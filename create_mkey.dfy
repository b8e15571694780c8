/**
 * CREATE_MKEY (src/commands/create_mkey.rs): registers a memory key.  The
 * request carries a bit-packed 64-byte key context and a list of
 * translation entries; the reply carries the new key's 24-bit index.
 *
 * A narrow field written from a wider integer keeps its low bits: qpn and
 * pd keep 24, log_entry_size keeps 5.
 */
module CreateMKeyCodec {
  import opened Bytes
  import opened Types
  import ResourceCodec

  /** The 2-bit access mode; the bit pattern 3 names no mode. */
  datatype AccessMode = PA | MTT | KLMs

  function AccessModeBits(m: AccessMode): nat {
    match m
    case PA => 0
    case MTT => 1
    case KLMs => 2
  }

  function AccessModeFromBits(v: nat): (r: Option<AccessMode>)
    ensures r.Some? <==> v <= 2
    ensures r.Some? ==> AccessModeBits(r.value) == v
  {
    if v == 0 then Some(PA) else if v == 1 then Some(MTT) else if v == 2 then Some(KLMs) else None
  }

  datatype MKeyContext = MKeyContext(
    free: bool,
    umrEn: bool, a: bool, rw: bool, rr: bool, lw: bool, lr: bool,
    accessMode: AccessMode,
    qpn: u32, mkey: byte,
    length64: bool, pd: u32,
    startAddr: u64, len: u64,
    bsfOctwordSize: u32,
    translationOctwordSize: u32,
    logEntrySize: byte)

  /** Whether every narrow field holds a value its bits can carry. */
  predicate InRange(c: MKeyContext) {
    c.qpn < 0x100_0000 && c.pd < 0x100_0000 && c.logEntrySize < 0x20
  }

  /** umr_en, a, rw, rr, lw and lr, in the order of bits 7..2 of byte 2. */
  function Flags(c: MKeyContext): seq<bool> {
    [c.umrEn, c.a, c.rw, c.rr, c.lw, c.lr]
  }

  /** Byte 2: the six flags at bits 7..2, the access mode in bits 1..0. */
  function AccessByte(c: MKeyContext): byte {
    BitsBound(Flags(c));
    assert Pow2(6) == 0x40;
    BitsValue(Flags(c)) * 4 + AccessModeBits(c.accessMode)
  }

  /** Bytes 0..16: free at bit 6 of byte 0, the access byte, qpn at 4..7, mkey at 7, length64 at bit 7 of byte 12, pd at 13..16. */
  function EncodeHead(c: MKeyContext): (r: seq<byte>)
    ensures |r| == 16
  {
    [Bit(c.free, 0x40), 0, AccessByte(c), 0]
      + BE24(c.qpn % 0x100_0000) + [c.mkey]
      + Zeros(4)
      + [Bit(c.length64, 0x80)] + BE24(c.pd % 0x100_0000)
  }

  /** Bytes 16..64: start_addr, len, bsf_octword_size, sixteen padding bytes, translation_octword_size, log_entry_size in the low 5 bits of byte 59, four padding bytes. */
  function EncodeTail(c: MKeyContext): (r: seq<byte>)
    ensures |r| == 48
  {
    BE64(c.startAddr) + BE64(c.len) + BE32(c.bsfOctwordSize)
      + Zeros(16) + BE32(c.translationOctwordSize)
      + Zeros(3) + [c.logEntrySize % 0x20] + Zeros(4)
  }

  const CONTEXT_LEN: nat := 64

  function EncodeContext(c: MKeyContext): (r: seq<byte>)
    ensures |r| == CONTEXT_LEN
  {
    EncodeHead(c) + EncodeTail(c)
  }

  /** The flags and the access mode of an access byte, read from bit 7 down. */
  datatype AccessFlags = AccessFlags(umrEn: bool, a: bool, rw: bool, rr: bool, lw: bool, lr: bool, mode: nat)

  function ReadAccessByte(x: byte): (f: AccessFlags)
    ensures f.mode == x % 4
  {
    var bits := ReadBits(x / 4, 6);
    AccessFlags(bits[0], bits[1], bits[2], bits[3], bits[4], bits[5], x % 4)
  }

  /** The flags and the access mode read back from the access byte. */
  lemma AccessByteFields(c: MKeyContext)
    ensures ReadAccessByte(AccessByte(c))
         == AccessFlags(c.umrEn, c.a, c.rw, c.rr, c.lw, c.lr, AccessModeBits(c.accessMode))
  {
    var x := AccessByte(c);
    assert x / 4 == BitsValue(Flags(c));
    ReadBitsValue(Flags(c));
  }

  /** The fields of bytes 0..16, and of bytes 16..64. */
  datatype Head = Head(free: bool, flags: AccessFlags, accessMode: AccessMode, qpn: u32, mkey: byte, length64: bool, pd: u32)
  datatype Tail = Tail(startAddr: u64, len: u64, bsfOctwordSize: u32, translationOctwordSize: u32, logEntrySize: byte)

  /** Reads bytes 0..16; the access-mode pattern 3 fails. */
  function DecodeHead(b: seq<byte>): (r: Option<Head>)
    requires |b| >= 16
    ensures r.Some? <==> b[2] % 4 != 3
  {
    var f := ReadAccessByte(b[2]);
    match AccessModeFromBits(f.mode)
    case None => None
    case Some(mode) => Some(Head(b[0] % 0x80 >= 0x40, f, mode, FromBE24(b[4..7]), b[7], b[12] >= 0x80, FromBE24(b[13..16])))
  }

  function DecodeTail(b: seq<byte>): Tail
    requires |b| >= 48
  {
    Tail(FromBE64(b[0..8]), FromBE64(b[8..16]), FromBE32(b[16..20]), FromBE32(b[36..40]), b[43] % 0x20)
  }

  /** Reads a context from the front of `b`; padding bits are skipped, and access mode 3 fails. */
  function DecodeContext(b: seq<byte>): (r: Option<MKeyContext>)
    ensures r.Some? <==> |b| >= CONTEXT_LEN && b[2] % 4 != 3
    ensures r.Some? ==> InRange(r.value)
  {
    if |b| < 64 then None
    else
      match DecodeHead(b[..16])
      case None => None
      case Some(h) =>
        var t := DecodeTail(b[16..64]);
        Some(MKeyContext(
          h.free, h.flags.umrEn, h.flags.a, h.flags.rw, h.flags.rr, h.flags.lw, h.flags.lr, h.accessMode,
          h.qpn, h.mkey, h.length64, h.pd,
          t.startAddr, t.len, t.bsfOctwordSize, t.translationOctwordSize, t.logEntrySize))
  }

  /** The single bits of bytes 0 and 12 read back. */
  lemma HeadBits(c: MKeyContext)
    ensures Bit(c.free, 0x40) % 0x80 >= 0x40 <==> c.free
    ensures Bit(c.length64, 0x80) >= 0x80 <==> c.length64
  {
  }

  lemma {:induction false} HeadRoundTrip(c: MKeyContext)
    requires InRange(c)
    ensures DecodeHead(EncodeHead(c))
         == Some(Head(c.free, AccessFlags(c.umrEn, c.a, c.rw, c.rr, c.lw, c.lr, AccessModeBits(c.accessMode)),
                      c.accessMode, c.qpn, c.mkey, c.length64, c.pd))
  {
    var b := EncodeHead(c);
    assert b[0] == Bit(c.free, 0x40) && b[12] == Bit(c.length64, 0x80);
    HeadBits(c);
    assert b[2] == AccessByte(c);
    AccessByteFields(c);
    assert b[4..7] == BE24(c.qpn);
    assert b[13..16] == BE24(c.pd);
    BE24Inverse(c.qpn);
    BE24Inverse(c.pd);
  }

  /** Where the fields of the tail lie, whatever their images. */
  lemma TailPieces(x1: seq<byte>, x2: seq<byte>, x3: seq<byte>, x4: seq<byte>, l: byte)
    requires |x1| == 8 && |x2| == 8 && |x3| == 4 && |x4| == 4
    ensures var b := x1 + x2 + x3 + Zeros(16) + x4 + Zeros(3) + [l] + Zeros(4);
      b[0..8] == x1 && b[8..16] == x2 && b[16..20] == x3 && b[36..40] == x4 && b[43] == l
  {
  }

  lemma {:induction false} TailRoundTrip(c: MKeyContext)
    requires InRange(c)
    ensures DecodeTail(EncodeTail(c)) == Tail(c.startAddr, c.len, c.bsfOctwordSize, c.translationOctwordSize, c.logEntrySize)
  {
    TailPieces(BE64(c.startAddr), BE64(c.len), BE32(c.bsfOctwordSize), BE32(c.translationOctwordSize), c.logEntrySize % 0x20);
    BE64Inverse(c.startAddr);
    BE64Inverse(c.len);
    BE32Inverse(c.bsfOctwordSize);
    BE32Inverse(c.translationOctwordSize);
  }

  /** A context whose narrow fields fit reads back from its encoding. */
  lemma {:induction false} ContextRoundTrip(c: MKeyContext, rest: seq<byte>)
    requires InRange(c)
    ensures DecodeContext(EncodeContext(c) + rest) == Some(c)
  {
    var b := EncodeContext(c) + rest;
    assert b[..16] == EncodeHead(c);
    assert b[16..64] == EncodeTail(c);
    HeadRoundTrip(c);
    TailRoundTrip(c);
  }

  /** Only the low bits of a narrow field are written. */
  lemma ContextTruncates(c: MKeyContext)
    ensures EncodeContext(c)
         == EncodeContext(c.(qpn := c.qpn % 0x100_0000, pd := c.pd % 0x100_0000, logEntrySize := c.logEntrySize % 0x20))
  {
    var d := c.(qpn := c.qpn % 0x100_0000, pd := c.pd % 0x100_0000, logEntrySize := c.logEntrySize % 0x20);
    assert d.qpn % 0x100_0000 == c.qpn % 0x100_0000 && d.pd % 0x100_0000 == c.pd % 0x100_0000;
    assert d.logEntrySize % 0x20 == c.logEntrySize % 0x20;
    assert AccessByte(c) == AccessByte(d);
  }

  /** The bit pattern 3 in the access-mode bits makes the context undecodable. */
  lemma AccessModeThreeFails(b: seq<byte>)
    requires |b| >= CONTEXT_LEN && b[2] % 4 == 3
    ensures DecodeContext(b) == None
  {
  }

  datatype CreateMKey = CreateMKey(
    pgAccess: bool, umemValid: bool,
    context: MKeyContext,
    translationOctwordsActualSize: u32,
    translationEntries: seq<u64>)

  const MAGIC: seq<byte> := [0x02, 0x00]
  const ENTRIES_AT: nat := 0x110
  const OUTLEN: nat := 0x10

  /**
   * The first 0x110 bytes: magic `02 00`, ten padding bytes, pg_access and
   * umem_valid at bits 7 and 6 of byte 12, the context at 0x10..0x50,
   * sixteen padding bytes, the actual size at 0x60..0x64, 172 padding bytes.
   */
  function Prefix(m: CreateMKey): (r: seq<byte>)
    ensures |r| == ENTRIES_AT
  {
    PrefixAround(m, EncodeContext(m.context))
  }

  /** The prefix laid out around the 64 context bytes `ctx`. */
  function PrefixAround(m: CreateMKey, ctx: seq<byte>): (r: seq<byte>)
    requires |ctx| == CONTEXT_LEN
    ensures |r| == ENTRIES_AT
  {
    MAGIC + Zeros(10) + [FlagsByte(m)] + Zeros(3)
      + ctx
      + Zeros(16) + BE32(m.translationOctwordsActualSize) + Zeros(172)
  }

  /** Byte 12: pg_access at bit 7, umem_valid at bit 6. */
  function FlagsByte(m: CreateMKey): byte {
    Bit(m.pgAccess, 0x80) + Bit(m.umemValid, 0x40)
  }

  lemma FlagsByteFields(m: CreateMKey)
    ensures FlagsByte(m) >= 0x80 <==> m.pgAccess
    ensures FlagsByte(m) % 0x80 >= 0x40 <==> m.umemValid
  {
  }

  /** Where the fields of the prefix are found, whatever the context bytes. */
  lemma {:induction false} PrefixFieldsAt(m: CreateMKey, ctx: seq<byte>)
    requires |ctx| == CONTEXT_LEN
    ensures var b := PrefixAround(m, ctx);
      && b[..2] == MAGIC && b[12] == FlagsByte(m) && b[0x10..0x50] == ctx
      && b[0x60..0x64] == BE32(m.translationOctwordsActualSize)
  {
    var b := PrefixAround(m, ctx);
    assert b[..2] == MAGIC;
    assert b[0x10..0x50] == ctx;
    assert b[0x60..0x64] == BE32(m.translationOctwordsActualSize);
  }

  /** The prefix, then each translation entry big-endian at 0x110 + 8i. */
  function Encode(m: CreateMKey): (r: seq<byte>)
    ensures |r| == ENTRIES_AT + 8 * |m.translationEntries|
  {
    Prefix(m) + BE64s(m.translationEntries)
  }

  /** `size()`: sixteen bytes per octword of the actual size after the prefix. */
  function Size(m: CreateMKey): nat {
    0x110 + 16 * m.translationOctwordsActualSize
  }

  /** `size()` is the encoded length exactly when there are two entries per octword counted. */
  lemma SizeVersusLength(m: CreateMKey)
    ensures Size(m) == |Encode(m)| <==> |m.translationEntries| == 2 * m.translationOctwordsActualSize
  {
  }

  /** The fields of the first 0x110 bytes. */
  datatype PrefixFields = PrefixFields(pgAccess: bool, umemValid: bool, context: MKeyContext, actualSize: u32)

  function DecodePrefix(b: seq<byte>): (r: Option<PrefixFields>)
    requires |b| >= ENTRIES_AT
  {
    if b[..2] != MAGIC then None
    else
      match DecodeContext(b[0x10..0x50])
      case None => None
      case Some(ctx) => Some(PrefixFields(b[12] >= 0x80, b[12] % 0x80 >= 0x40, ctx, FromBE32(b[0x60..0x64])))
  }

  /** Reads a request: after the prefix exactly `translation_octwords_actual_size` entries. */
  function Decode(b: seq<byte>): (r: Option<CreateMKey>)
    ensures r.Some? ==> |r.value.translationEntries| == r.value.translationOctwordsActualSize
  {
    if |b| < 0x110 then None
    else
      match DecodePrefix(b[..0x110])
      case None => None
      case Some(p) =>
        if |b| < 0x110 + 8 * p.actualSize then None
        else Some(CreateMKey(p.pgAccess, p.umemValid, p.context, p.actualSize, FromBE64s(b[0x110..], p.actualSize)))
  }

  lemma {:induction false} PrefixRoundTrip(m: CreateMKey)
    requires InRange(m.context)
    ensures DecodePrefix(Prefix(m)) == Some(PrefixFields(m.pgAccess, m.umemValid, m.context, m.translationOctwordsActualSize))
  {
    var ctx := EncodeContext(m.context);
    PrefixFieldsAt(m, ctx);
    FlagsByteFields(m);
    assert ctx + [] == ctx;
    ContextRoundTrip(m.context, []);
    BE32Inverse(m.translationOctwordsActualSize);
  }

  lemma {:induction false} RoundTrip(m: CreateMKey, rest: seq<byte>)
    requires InRange(m.context) && m.translationOctwordsActualSize == |m.translationEntries|
    ensures Decode(Encode(m) + rest) == Some(m)
  {
    var b := Encode(m) + rest;
    assert b[..0x110] == Prefix(m);
    assert b[0x110..] == BE64s(m.translationEntries) + rest;
    PrefixRoundTrip(m);
    BE64sInverse(m.translationEntries, rest);
  }

  /** The reply is the header, a padding byte and the 24-bit mkey_index at 9..12: the handle layout. */
  function DecodeOutput(b: seq<byte>): (r: Option<ResourceCodec.HandleOutput>)
    ensures r.Some? <==> |b| >= 12
    ensures r.Some? ==> r.value.handle < 0x100_0000 && BE24(r.value.handle) == b[9..12]
  {
    ResourceCodec.DecodeHandleOutput(b)
  }

  /** The context of the unit test. */
  const TEST_CONTEXT: MKeyContext := MKeyContext(
    true, false, false, true, true, true, true, MTT,
    0xff_ffff, 0x41, false, 17,
    0x1234_5678_9abc_def0, 0x4142_4344_4546_4748, 0, 0x9876_5432, 1)

  /** The unit test's flags: rw, rr, lw and lr set; access mode MTT. */
  lemma TestAccessByte()
    ensures AccessByte(TEST_CONTEXT) == 15 * 4 + 1
  {
    var f := Flags(TEST_CONTEXT);
    assert f == [false, false, true, true, true, true];
    assert f[..1][..0] == [] && f[..2][..1] == f[..1] && f[..3][..2] == f[..2];
    assert f[..4][..3] == f[..3] && f[..5][..4] == f[..4] && f[..6][..5] == f[..5] && f[..6] == f;
    assert BitsValue(f[..1]) == 0;
    assert BitsValue(f[..2]) == 0;
    assert BitsValue(f[..3]) == 1;
    assert BitsValue(f[..4]) == 3;
    assert BitsValue(f[..5]) == 7;
    assert BitsValue(f[..6]) == 15;
  }

  const TEST_HEAD: seq<byte> := [0x40, 0x00, 15 * 4 + 1, 0x00, 0xff, 0xff, 0xff, 0x41, 0x00, 0x00, 0x00, 0x00, 0x00, 0x00, 0x00, 17]

  const TEST_TAIL: seq<byte> :=
    [0x12, 0x34, 0x56, 0x78, 0x9a, 0xbc, 0xde, 0xf0] + [0x41, 0x42, 0x43, 0x44, 0x45, 0x46, 0x47, 0x48]
      + [0x00, 0x00, 0x00, 0x00] + Zeros(16) + [0x98, 0x76, 0x54, 0x32]
      + Zeros(3) + [0x01] + Zeros(4)

  lemma HeadTestVector()
    ensures EncodeHead(TEST_CONTEXT) == TEST_HEAD
  {
    TestAccessByte();
    assert BE24(0xff_ffff) == [0xff, 0xff, 0xff];
    assert BE24(17) == [0, 0, 17];
  }

  lemma TailTestVector()
    ensures EncodeTail(TEST_CONTEXT) == TEST_TAIL
  {
    assert BE64(0x1234_5678_9abc_def0) == [0x12, 0x34, 0x56, 0x78, 0x9a, 0xbc, 0xde, 0xf0];
    assert BE64(0x4142_4344_4546_4748) == [0x41, 0x42, 0x43, 0x44, 0x45, 0x46, 0x47, 0x48];
    assert BE32(0) == [0x00, 0x00, 0x00, 0x00];
    assert BE32(0x9876_5432) == [0x98, 0x76, 0x54, 0x32];
  }

  /** The unit test's 64-byte image: bytes 0..16, then bytes 16..64. */
  lemma ContextTestVector()
    ensures EncodeContext(TEST_CONTEXT) == TEST_HEAD + TEST_TAIL
  {
    HeadTestVector();
    TailTestVector();
  }
}
