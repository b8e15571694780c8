/**
 * The event-queue commands (src/commands/eq.rs): CREATE_EQ, DESTROY_EQ,
 * QUERY_EQ and GEN_EQE, and the bit-packed event-queue context they carry.
 *
 * The context is annotated as 64 bytes, but its fields and paddings add
 * up to 60 bytes and the annotation's size is ignored by the context's own
 * reader and writer: 60 bytes are written, and every later field of the
 * enclosing command moves up by 4.  Narrow fields keep their low bits.
 * The four requests are only ever written, so they have encoders and
 * layout lemmas; the outputs are also read.
 */
module EqCodec {
  import opened Bytes
  import opened Types

  datatype EQContext = EQContext(
    status: byte,
    ec: bool, oi: bool,
    st: byte,
    logEqSize: byte, uarPage: u32,
    intr: byte, logPageSize: byte,
    consumerCounter: u32, producerCounter: u32)

  /** Whether every narrow field holds a value its bits can carry. */
  predicate InRange(c: EQContext) {
    && c.status < 0x10 && c.st < 0x10
    && c.logEqSize < 0x20 && c.logPageSize < 0x20
    && c.uarPage < 0x100_0000 && c.consumerCounter < 0x100_0000 && c.producerCounter < 0x100_0000
  }

  const CONTEXT_LEN: nat := 60

  /**
   * Bytes 0..16: status in the high nibble of byte 0, ec and oi at bits 2
   * and 1 of byte 1, st in the low nibble of byte 2, eight padding bytes,
   * log_eq_size in the low 5 bits of byte 12, uar_page at 13..16.
   */
  function EncodeHead(c: EQContext): (r: seq<byte>)
    ensures |r| == 16
  {
    [(c.status % 0x10) * 0x10, Bit(c.ec, 0x04) + Bit(c.oi, 0x02), c.st % 0x10, 0]
      + Zeros(8)
      + [c.logEqSize % 0x20] + BE24(c.uarPage % 0x100_0000)
  }

  /**
   * Bytes 16..60: seven padding bytes, intr at 23, log_page_size in the low
   * 5 bits of byte 24, twelve padding bytes, consumer_counter at 37..40,
   * a padding byte, producer_counter at 41..44, sixteen padding bytes.
   */
  function EncodeTail(c: EQContext): (r: seq<byte>)
    ensures |r| == 44
  {
    Zeros(7) + [c.intr, c.logPageSize % 0x20] + Zeros(12)
      + BE24(c.consumerCounter % 0x100_0000) + [0]
      + BE24(c.producerCounter % 0x100_0000) + Zeros(16)
  }

  function EncodeContext(c: EQContext): (r: seq<byte>)
    ensures |r| == CONTEXT_LEN
  {
    EncodeHead(c) + EncodeTail(c)
  }

  /** The fields of bytes 0..16, and of bytes 16..60. */
  datatype Head = Head(status: byte, ec: bool, oi: bool, st: byte, logEqSize: byte, uarPage: u32)
  datatype Tail = Tail(intr: byte, logPageSize: byte, consumerCounter: u32, producerCounter: u32)

  function DecodeHead(b: seq<byte>): (h: Head)
    requires |b| >= 16
    ensures h.status < 0x10 && h.st < 0x10 && h.logEqSize < 0x20
  {
    Head(b[0] / 0x10, b[1] % 0x08 >= 0x04, b[1] % 0x04 >= 0x02, b[2] % 0x10, b[12] % 0x20, FromBE24(b[13..16]))
  }

  function DecodeTail(b: seq<byte>): (t: Tail)
    requires |b| >= 44
    ensures t.logPageSize < 0x20
  {
    Tail(b[7], b[8] % 0x20, FromBE24(b[21..24]), FromBE24(b[25..28]))
  }

  /** Reads a context from the front of `b`; padding bits are skipped. */
  function DecodeContext(b: seq<byte>): (r: Option<EQContext>)
    ensures r.Some? <==> |b| >= CONTEXT_LEN
    ensures r.Some? ==> InRange(r.value)
  {
    if |b| < CONTEXT_LEN then None
    else
      var h := DecodeHead(b[..16]);
      var t := DecodeTail(b[16..60]);
      Some(EQContext(h.status, h.ec, h.oi, h.st, h.logEqSize, h.uarPage,
                     t.intr, t.logPageSize, t.consumerCounter, t.producerCounter))
  }

  /** The sub-byte fields of bytes 0..3 read back. */
  lemma HeadBits(c: EQContext)
    requires InRange(c)
    ensures ((c.status % 0x10) * 0x10) / 0x10 == c.status
    ensures (Bit(c.ec, 0x04) + Bit(c.oi, 0x02)) % 0x08 >= 0x04 <==> c.ec
    ensures (Bit(c.ec, 0x04) + Bit(c.oi, 0x02)) % 0x04 >= 0x02 <==> c.oi
    ensures (c.st % 0x10) % 0x10 == c.st && (c.logEqSize % 0x20) % 0x20 == c.logEqSize
  {
  }

  lemma {:induction false} HeadRoundTrip(c: EQContext)
    requires InRange(c)
    ensures DecodeHead(EncodeHead(c)) == Head(c.status, c.ec, c.oi, c.st, c.logEqSize, c.uarPage)
  {
    var b := EncodeHead(c);
    assert b[0] == (c.status % 0x10) * 0x10 && b[1] == Bit(c.ec, 0x04) + Bit(c.oi, 0x02);
    assert b[2] == c.st % 0x10 && b[12] == c.logEqSize % 0x20;
    HeadBits(c);
    assert b[13..16] == BE24(c.uarPage);
    BE24Inverse(c.uarPage);
  }

  lemma {:induction false} TailRoundTrip(c: EQContext)
    requires InRange(c)
    ensures DecodeTail(EncodeTail(c)) == Tail(c.intr, c.logPageSize, c.consumerCounter, c.producerCounter)
  {
    var b := EncodeTail(c);
    assert b[7] == c.intr;
    assert b[8] % 0x20 == c.logPageSize by {
      assert b[8] == c.logPageSize % 0x20;
    }
    assert FromBE24(b[21..24]) == c.consumerCounter by {
      assert b[21..24] == BE24(c.consumerCounter);
      BE24Inverse(c.consumerCounter);
    }
    assert FromBE24(b[25..28]) == c.producerCounter by {
      assert b[25..28] == BE24(c.producerCounter);
      BE24Inverse(c.producerCounter);
    }
  }

  /** A context whose narrow fields fit reads back from its 60 bytes. */
  lemma {:induction false} ContextRoundTrip(c: EQContext, rest: seq<byte>)
    requires InRange(c)
    ensures DecodeContext(EncodeContext(c) + rest) == Some(c)
  {
    var b := EncodeContext(c) + rest;
    assert b[..16] == EncodeHead(c);
    assert b[16..60] == EncodeTail(c);
    HeadRoundTrip(c);
    TailRoundTrip(c);
  }

  /** Only the low bits of a narrow field are written. */
  lemma ContextTruncates(c: EQContext)
    ensures EncodeContext(c) == EncodeContext(c.(
      status := c.status % 0x10, st := c.st % 0x10,
      logEqSize := c.logEqSize % 0x20, logPageSize := c.logPageSize % 0x20,
      uarPage := c.uarPage % 0x100_0000,
      consumerCounter := c.consumerCounter % 0x100_0000, producerCounter := c.producerCounter % 0x100_0000))
  {
    var d := c.(
      status := c.status % 0x10, st := c.st % 0x10,
      logEqSize := c.logEqSize % 0x20, logPageSize := c.logPageSize % 0x20,
      uarPage := c.uarPage % 0x100_0000,
      consumerCounter := c.consumerCounter % 0x100_0000, producerCounter := c.producerCounter % 0x100_0000);
    assert d.status % 0x10 == c.status % 0x10 && d.st % 0x10 == c.st % 0x10;
    assert d.logEqSize % 0x20 == c.logEqSize % 0x20 && d.logPageSize % 0x20 == c.logPageSize % 0x20;
    assert d.uarPage % 0x100_0000 == c.uarPage % 0x100_0000;
    assert d.consumerCounter % 0x100_0000 == c.consumerCounter % 0x100_0000;
    assert d.producerCounter % 0x100_0000 == c.producerCounter % 0x100_0000;
    assert EncodeHead(c) == EncodeHead(d);
    assert EncodeTail(c) == EncodeTail(d);
  }

  /** The context of the unit tests. */
  const TEST_CONTEXT: EQContext := EQContext(7, true, false, 3, 4, 0x12_3456, 0x55, 5, 0xaa_55aa, 0xba_dbad)

  const TEST_HEAD: seq<byte> := [7 * 0x10, 1 * 4 + 0 * 2, 0x03, 0x00] + Zeros(8) + [0x04, 0x12, 0x34, 0x56]

  const TEST_TAIL: seq<byte> :=
    Zeros(7) + [0x55, 0x05] + Zeros(12) + [0xaa, 0x55, 0xaa] + [0x00] + [0xba, 0xdb, 0xad] + Zeros(16)

  lemma HeadTestVector()
    ensures EncodeHead(TEST_CONTEXT) == TEST_HEAD
  {
    assert BE24(0x12_3456) == [0x12, 0x34, 0x56];
  }

  lemma TailTestVector()
    ensures EncodeTail(TEST_CONTEXT) == TEST_TAIL
  {
    assert BE24(0xaa_55aa) == [0xaa, 0x55, 0xaa];
    assert BE24(0xba_dbad) == [0xba, 0xdb, 0xad];
  }

  /** The unit test's 60-byte image: bytes 0..16, then bytes 16..60. */
  lemma ContextTestVector()
    ensures EncodeContext(TEST_CONTEXT) == TEST_HEAD + TEST_TAIL
    ensures |TEST_HEAD + TEST_TAIL| == 60
  {
    HeadTestVector();
    TailTestVector();
  }

  // ---------------------------------------------------------------- CREATE_EQ

  datatype CreateEQ = CreateEQ(ctx: EQContext, eventBitmask: u64, pas: seq<u64>)

  const CREATE_EQ_MAGIC: seq<byte> := [0x03, 0x01] + Zeros(14)

  /** Magic, the context, twelve padding bytes, event_bitmask, 176 padding bytes, then each physical address. */
  function EncodeCreateEQ(m: CreateEQ): (r: seq<byte>)
    ensures |r| == 0x110 + 8 * |m.pas|
  {
    CreateEQAround(m, EncodeContext(m.ctx))
  }

  /** The request laid out around the 60 context bytes `ctx`. */
  function CreateEQAround(m: CreateEQ, ctx: seq<byte>): (r: seq<byte>)
    requires |ctx| == CONTEXT_LEN
    ensures |r| == 0x110 + 8 * |m.pas|
  {
    CREATE_EQ_MAGIC + ctx + Zeros(12) + BE64(m.eventBitmask) + Zeros(176) + BE64s(m.pas)
  }

  /** `size()`: 0x110 bytes and eight per physical address, the encoded length. */
  function CreateEQSize(m: CreateEQ): (n: nat)
    ensures n == |EncodeCreateEQ(m)|
  {
    0x110 + 8 * |m.pas|
  }

  const CREATE_EQ_OUTLEN: nat := 0x10

  /** Where the fields of CREATE_EQ are found, whatever the context bytes, in the slices the unit test checks. */
  lemma {:induction false} CreateEQAt(m: CreateEQ, ctx: seq<byte>)
    requires |ctx| == CONTEXT_LEN
    ensures var b := CreateEQAround(m, ctx);
      && b[..0x10] == CREATE_EQ_MAGIC
      && b[0x10..0x50] == ctx + Zeros(4)
      && b[0x50..0x58] == Zeros(8)
      && b[0x58..0x60] == BE64(m.eventBitmask)
      && b[0x60..0x110] == Zeros(0xb0)
      && b[0x110..] == BE64s(m.pas)
  {
    var b := CreateEQAround(m, ctx);
    assert b[..0x10] == CREATE_EQ_MAGIC;
    assert b[0x10..0x50] == ctx + Zeros(4);
    assert b[0x50..0x58] == Zeros(8);
    assert b[0x58..0x60] == BE64(m.eventBitmask);
    assert b[0x60..0x110] == Zeros(0xb0);
    assert b[0x110..] == BE64s(m.pas);
  }

  /** Every field of a request whose context fits reads back from its place. */
  lemma {:induction false} CreateEQFieldsReadBack(m: CreateEQ)
    requires InRange(m.ctx)
    ensures var b := EncodeCreateEQ(m);
      && DecodeContext(b[0x10..0x50]) == Some(m.ctx)
      && FromBE64(b[0x58..0x60]) == m.eventBitmask
      && FromBE64s(b[0x110..], |m.pas|) == m.pas
  {
    var ctx := EncodeContext(m.ctx);
    CreateEQAt(m, ctx);
    ContextRoundTrip(m.ctx, Zeros(4));
    BE64Inverse(m.eventBitmask);
    BE64sInverse(m.pas, []);
    assert BE64s(m.pas) + [] == BE64s(m.pas);
  }

  datatype CreateEQOutput = CreateEQOutput(base: BaseOutput, eq: byte)

  const CREATE_EQ_OUTPUT_LEN: nat := 16

  /** The header, three padding bytes, the queue number at byte 11, four padding bytes. */
  function EncodeCreateEQOutput(o: CreateEQOutput): (r: seq<byte>)
    ensures |r| == CREATE_EQ_OUTPUT_LEN
  {
    EncodeBaseOutput(o.base) + Zeros(3) + [o.eq] + Zeros(4)
  }

  function DecodeCreateEQOutput(b: seq<byte>): (r: Option<CreateEQOutput>)
    ensures r.Some? <==> |b| >= CREATE_EQ_OUTPUT_LEN
    ensures r.Some? ==> r.value.eq == b[11] && Some(r.value.base) == DecodeBaseOutput(b)
  {
    if |b| < CREATE_EQ_OUTPUT_LEN then None
    else Some(CreateEQOutput(DecodeBaseOutput(b).value, b[11]))
  }

  lemma {:induction false} CreateEQOutputRoundTrip(o: CreateEQOutput, rest: seq<byte>)
    requires Canonical(o.base.status)
    ensures DecodeCreateEQOutput(EncodeCreateEQOutput(o) + rest) == Some(o)
  {
    var tail := Zeros(3) + [o.eq] + Zeros(4) + rest;
    var b := EncodeCreateEQOutput(o) + rest;
    assert b == EncodeBaseOutput(o.base) + tail;
    BaseOutputRoundTrip(o.base, tail);
    assert b[11] == o.eq;
  }

  /** The request of the unit test: both physical addresses, and its slices as the test lists them. */
  const TEST_CREATE_EQ: CreateEQ :=
    CreateEQ(TEST_CONTEXT, 0x1234_5678_aa55_aa55, [0x55aa_55aa_55aa_55aa, 0x1337_1337_1337_1337])

  /** The slices of any request that the unit test checks, in the test's grouping. */
  lemma {:induction false} CreateEQSlices(m: CreateEQ)
    ensures var b := EncodeCreateEQ(m);
      && b[0x10..0x50] == EncodeContext(m.ctx) + Zeros(4)
      && b[0x50..0x60] == Zeros(8) + BE64(m.eventBitmask)
      && b[0x110..] == BE64s(m.pas)
  {
    var b := EncodeCreateEQ(m);
    CreateEQAt(m, EncodeContext(m.ctx));
    assert b[0x50..0x60] == b[0x50..0x58] + b[0x58..0x60];
  }

  /** The request of the unit test, slice by slice as the test lists them. */
  lemma CreateEQTestVector()
    ensures var b := EncodeCreateEQ(TEST_CREATE_EQ);
      && |b| == 0x120 == CreateEQSize(TEST_CREATE_EQ)
      && b[..0x10] == [0x03, 0x01] + Zeros(14)
      && b[0x10..0x50] == TEST_HEAD + TEST_TAIL + Zeros(4)
      && b[0x50..0x60] == Zeros(8) + [0x12, 0x34, 0x56, 0x78, 0xaa, 0x55, 0xaa, 0x55]
      && b[0x60..0x110] == Zeros(0xb0)
      && b[0x110..] == [0x55, 0xaa, 0x55, 0xaa, 0x55, 0xaa, 0x55, 0xaa] + [0x13, 0x37, 0x13, 0x37, 0x13, 0x37, 0x13, 0x37]
  {
    CreateEQAt(TEST_CREATE_EQ, EncodeContext(TEST_CONTEXT));
    CreateEQSlices(TEST_CREATE_EQ);
    ContextTestVector();
    TestMaskWord();
    TestPasWord0();
    TestPasWord1();
    BE64sTwo(0x55aa_55aa_55aa_55aa, 0x1337_1337_1337_1337);
  }

  /** The 64-bit words of the unit test, big-endian. */
  lemma TestMaskWord()
    ensures BE64(0x1234_5678_aa55_aa55) == [0x12, 0x34, 0x56, 0x78, 0xaa, 0x55, 0xaa, 0x55]
  {
  }

  lemma TestPasWord0()
    ensures BE64(0x55aa_55aa_55aa_55aa) == [0x55, 0xaa, 0x55, 0xaa, 0x55, 0xaa, 0x55, 0xaa]
  {
  }

  lemma TestPasWord1()
    ensures BE64(0x1337_1337_1337_1337) == [0x13, 0x37, 0x13, 0x37, 0x13, 0x37, 0x13, 0x37]
  {
  }

  // ------------------------------------------- DESTROY_EQ, QUERY_EQ, GEN_EQE

  /** The 64 bytes of an event entry that GEN_EQE injects. */
  type Eqe = s: seq<byte> | |s| == 0x40 witness Zeros(0x40)

  datatype EqRequest = DestroyEQ(eq: byte) | QueryEQ(eq: byte) | GenEQE(eq: byte, eqe: Eqe)

  function RequestOpcode(r: EqRequest): byte {
    match r
    case DestroyEQ(_) => 0x02
    case QueryEQ(_) => 0x03
    case GenEQE(_, _) => 0x04
  }

  /** Magic `03 op` and six zero bytes, three padding bytes, the queue number at byte 11, four padding bytes; GEN_EQE then the entry. */
  function EncodeRequest(r: EqRequest): (b: seq<byte>)
  {
    var header := [0x03, RequestOpcode(r)] + Zeros(6) + Zeros(3) + [r.eq] + Zeros(4);
    if r.GenEQE? then header + r.eqe else header
  }

  function RequestSize(r: EqRequest): nat {
    if r.GenEQE? then 0x50 else 0x10
  }

  /** `outlen()`: the QUERY_EQ reply is 0x110 bytes, the others 0x10. */
  function RequestOutlen(r: EqRequest): nat {
    if r.QueryEQ? then 0x110 else 0x10
  }

  /** `size()` is the encoded length, and every byte is where the layout puts it. */
  lemma RequestLayout(r: EqRequest)
    ensures var b := EncodeRequest(r);
      && |b| == RequestSize(r)
      && b[..2] == [0x03, RequestOpcode(r)]
      && AllZero(b[2..11]) && b[11] == r.eq && AllZero(b[12..16])
      && (r.GenEQE? ==> b[16..] == r.eqe)
  {
    var b := EncodeRequest(r);
    assert b[2..11] == Zeros(9);
    assert b[12..16] == Zeros(4);
  }

  /** Two requests with the same bytes are the same request. */
  lemma RequestInjective(r: EqRequest, s: EqRequest)
    requires EncodeRequest(r) == EncodeRequest(s)
    ensures r == s
  {
    RequestLayout(r);
    RequestLayout(s);
    var b := EncodeRequest(r);
    assert RequestOpcode(r) == b[1] == RequestOpcode(s);
  }

  /** The DESTROY_EQ request of the unit test. */
  lemma DestroyEQTestVector()
    ensures EncodeRequest(DestroyEQ(0x47))
         == [0x03, 0x02, 0x00, 0x00, 0x00, 0x00, 0x00, 0x00, 0x00, 0x00, 0x00, 0x47, 0x00, 0x00, 0x00, 0x00]
  {
  }

  // ----------------------------------------------------------- QUERY_EQ output

  datatype QueryEQOutput = QueryEQOutput(base: BaseOutput, ctx: EQContext, eventMask: u64)

  const QUERY_EQ_OUTPUT_LEN: nat := 96

  /** The header, eight padding bytes, the context at 16..76, twelve padding bytes, event_mask at 88..96. */
  function EncodeQueryEQOutput(o: QueryEQOutput): (r: seq<byte>)
    ensures |r| == QUERY_EQ_OUTPUT_LEN
  {
    QueryEQOutputAround(o, EncodeContext(o.ctx))
  }

  function QueryEQOutputAround(o: QueryEQOutput, ctx: seq<byte>): (r: seq<byte>)
    requires |ctx| == CONTEXT_LEN
    ensures |r| == QUERY_EQ_OUTPUT_LEN
  {
    EncodeBaseOutput(o.base) + Zeros(8) + ctx + Zeros(12) + BE64(o.eventMask)
  }

  function DecodeQueryEQOutput(b: seq<byte>): (r: Option<QueryEQOutput>)
    ensures r.Some? <==> |b| >= QUERY_EQ_OUTPUT_LEN
    ensures r.Some? ==> Some(r.value.base) == DecodeBaseOutput(b) && Some(r.value.ctx) == DecodeContext(b[16..76])
  {
    if |b| < QUERY_EQ_OUTPUT_LEN then None
    else Some(QueryEQOutput(DecodeBaseOutput(b).value, DecodeContext(b[16..76]).value, FromBE64(b[88..96])))
  }

  lemma {:induction false} QueryEQOutputAt(o: QueryEQOutput, ctx: seq<byte>, rest: seq<byte>)
    requires |ctx| == CONTEXT_LEN
    ensures var b := QueryEQOutputAround(o, ctx) + rest;
      && b[..8] == EncodeBaseOutput(o.base) && b[16..76] == ctx && b[88..96] == BE64(o.eventMask)
  {
    var b := QueryEQOutputAround(o, ctx) + rest;
    assert b[..8] == EncodeBaseOutput(o.base);
    assert b[16..76] == ctx;
    assert b[88..96] == BE64(o.eventMask);
  }

  lemma {:induction false} QueryEQOutputRoundTrip(o: QueryEQOutput, rest: seq<byte>)
    requires Canonical(o.base.status) && InRange(o.ctx)
    ensures DecodeQueryEQOutput(EncodeQueryEQOutput(o) + rest) == Some(o)
  {
    var ctx := EncodeContext(o.ctx);
    var b := EncodeQueryEQOutput(o) + rest;
    QueryEQOutputAt(o, ctx, rest);
    assert b == b[..8] + b[8..];
    BaseOutputRoundTrip(o.base, b[8..]);
    assert ctx + [] == ctx;
    ContextRoundTrip(o.ctx, []);
    BE64Inverse(o.eventMask);
  }

  /** Any reply of QUERY_EQ's `outlen` bytes holds a whole output. */
  lemma QueryEQReplyDecodes(e: byte, b: seq<byte>)
    requires |b| == RequestOutlen(QueryEQ(e))
    ensures DecodeQueryEQOutput(b).Some?
  {
  }
}
