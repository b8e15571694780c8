/**
 * QUERY_PAGES (src/types/query_pages.rs): asks the firmware how many
 * pages of the given kind it wants (positive), wants to give back
 * (negative) or needs no change for (zero).
 */
module QueryPagesCodec {
  import opened Bytes
  import opened Types

  datatype QueryPagesOpMod = BootPages | InitPages | RegularPages

  datatype QueryPages = QueryPages(opMod: QueryPagesOpMod)

  datatype QueryPagesOutput = QueryPagesOutput(base: BaseOutput, numPages: i32)

  function OpModToU16(m: QueryPagesOpMod): u16 {
    match m
    case BootPages => 1
    case InitPages => 2
    case RegularPages => 3
  }

  /** 1, 2 and 3 are the only discriminants; any other value fails to decode. */
  function OpModFromU16(v: u16): (r: Option<QueryPagesOpMod>)
    ensures r.Some? <==> 1 <= v <= 3
    ensures r.Some? ==> OpModToU16(r.value) == v
  {
    if v == 1 then Some(BootPages)
    else if v == 2 then Some(InitPages)
    else if v == 3 then Some(RegularPages)
    else None
  }

  const MAGIC: seq<byte> := [0x01, 0x07]

  /** Magic `01 07`, four padding bytes, op_mod big-endian, eight padding bytes. */
  function Encode(q: QueryPages): (r: seq<byte>)
    ensures |r| == 16
  {
    MAGIC + Zeros(4) + BE16(OpModToU16(q.opMod)) + Zeros(8)
  }

  /** Reads a request from the front of `b`; trailing bytes are ignored. */
  function Decode(b: seq<byte>): (r: Option<QueryPages>)
    ensures r.Some? ==> |b| >= 16 && b[..2] == MAGIC
  {
    if |b| < 16 || b[..2] != MAGIC then None
    else
      match OpModFromU16(FromBE16(b[6..8]))
      case None => None
      case Some(m) => Some(QueryPages(m))
  }

  function Size(q: QueryPages): nat { 0x10 }

  function Outlen(q: QueryPages): nat { 0x10 }

  /** Where the fields of a request are found, and that `size()` is its length. */
  lemma EncodeLayout(q: QueryPages)
    ensures var r := Encode(q);
      && r[..2] == MAGIC
      && AllZero(r[2..6])
      && r[6..8] == BE16(OpModToU16(q.opMod))
      && AllZero(r[8..16])
      && |r| == Size(q)
  {
    var r := Encode(q);
    assert r[2..6] == Zeros(4);
    assert r[8..16] == Zeros(8);
  }

  lemma {:induction false} RoundTrip(q: QueryPages, rest: seq<byte>)
    ensures Decode(Encode(q) + rest) == Some(q)
  {
    var b := Encode(q) + rest;
    assert b[..2] == MAGIC;
    assert b[6..8] == BE16(OpModToU16(q.opMod));
    BE16Inverse(OpModToU16(q.opMod));
  }

  /** An op_mod outside 1..3 makes the request undecodable. */
  lemma BadOpMod(b: seq<byte>)
    requires |b| >= 16 && b[..2] == MAGIC && !(1 <= FromBE16(b[6..8]) <= 3)
    ensures Decode(b) == None
  {
  }

  const OUTPUT_LEN: nat := 16

  function EncodeOutput(o: QueryPagesOutput): (r: seq<byte>)
    ensures |r| == OUTPUT_LEN
  {
    EncodeBaseOutput(o.base) + Zeros(4) + BE32Signed(o.numPages)
  }

  /** The header, four padding bytes, then num_pages as a signed big-endian word at 12..16. */
  function DecodeOutput(b: seq<byte>): (r: Option<QueryPagesOutput>)
    ensures r.Some? <==> |b| >= OUTPUT_LEN
    ensures r.Some? ==> r.value.numPages % 0x1_0000_0000 == FromBE32(b[12..16])
  {
    if |b| < OUTPUT_LEN then None
    else Some(QueryPagesOutput(DecodeBaseOutput(b).value, FromBE32Signed(b[12..16])))
  }

  lemma {:induction false} OutputRoundTrip(o: QueryPagesOutput, rest: seq<byte>)
    requires Canonical(o.base.status)
    ensures DecodeOutput(EncodeOutput(o) + rest) == Some(o)
  {
    var h := EncodeBaseOutput(o.base);
    var b := EncodeOutput(o) + rest;
    assert b == h + (Zeros(4) + BE32Signed(o.numPages) + rest);
    BaseOutputRoundTrip(o.base, Zeros(4) + BE32Signed(o.numPages) + rest);
    assert b[12..16] == BE32Signed(o.numPages);
  }

  /** The request of the unit test, and its 16-byte reply asking for 8226 pages. */
  lemma TestVectors()
    ensures Encode(QueryPages(BootPages)) == [0x01, 0x07, 0, 0, 0, 0, 0, 0x01, 0, 0, 0, 0, 0, 0, 0, 0]
    ensures DecodeOutput([0, 0, 0, 0, 0, 0, 0, 0, 0, 0, 0, 0, 0, 0, 0x20, 0x22])
         == Some(QueryPagesOutput(BaseOutput(Ok, 0), 8226))
  {
    var b: seq<byte> := [0, 0, 0, 0, 0, 0, 0, 0, 0, 0, 0, 0, 0, 0, 0x20, 0x22];
    assert b[12..16] == BE32(8226);
    BE32Inverse(8226);
    assert b[4..8] == BE32(0);
    BE32Inverse(0);
  }
}
