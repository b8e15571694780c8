/**
 * QUERY_HCA_CAP (src/types/query_hca_cap.rs): asks for one page of
 * device capabilities, selected by op_mod.
 */
module QueryHcaCapCodec {
  import opened Bytes
  import opened Types

  datatype QueryHCACap = QueryHCACap(opMod: u16)

  const MAGIC: seq<byte> := [0x01, 0x00]
  const SIZE: nat := 0x10
  const OUTLEN: nat := 0x1010

  /** Magic `01 00`, four padding bytes, op_mod at 6..8, eight padding bytes. */
  function Encode(q: QueryHCACap): (r: seq<byte>)
    ensures |r| == SIZE
  {
    MAGIC + Zeros(4) + BE16(q.opMod) + Zeros(8)
  }

  function Decode(b: seq<byte>): (r: Option<QueryHCACap>)
    ensures r.Some? <==> |b| >= 16 && b[..2] == MAGIC
    ensures r.Some? ==> BE16(r.value.opMod) == b[6..8]
  {
    if |b| < 16 || b[..2] != MAGIC then None
    else Some(QueryHCACap(FromBE16(b[6..8])))
  }

  lemma {:induction false} RoundTrip(q: QueryHCACap, rest: seq<byte>)
    ensures Decode(Encode(q) + rest) == Some(q)
  {
    var b := Encode(q) + rest;
    assert b[..2] == MAGIC;
    assert b[6..8] == BE16(q.opMod);
    BE16Inverse(q.opMod);
  }

  /** The 0x1000 capability bytes. */
  type Capabilities = s: seq<byte> | |s| == 0x1000 witness Zeros(0x1000)

  datatype QueryHCACapOutput = QueryHCACapOutput(base: BaseOutput, capabilities: Capabilities)

  /** The header, eight padding bytes, then the capabilities at 0x10..0x1010: exactly `outlen` bytes. */
  function EncodeOutput(o: QueryHCACapOutput): (r: seq<byte>)
    ensures |r| == OUTLEN
  {
    EncodeBaseOutput(o.base) + Zeros(8) + o.capabilities
  }

  function DecodeOutput(b: seq<byte>): (r: Option<QueryHCACapOutput>)
    ensures r.Some? <==> |b| >= OUTLEN
    ensures r.Some? ==> r.value.capabilities == b[0x10..0x1010] && Some(r.value.base) == DecodeBaseOutput(b)
  {
    if |b| < 0x1010 then None
    else Some(QueryHCACapOutput(DecodeBaseOutput(b).value, b[0x10..0x1010]))
  }

  lemma {:induction false} OutputRoundTrip(o: QueryHCACapOutput, rest: seq<byte>)
    requires Canonical(o.base.status)
    ensures DecodeOutput(EncodeOutput(o) + rest) == Some(o)
  {
    var b := EncodeOutput(o) + rest;
    var tail := Zeros(8) + o.capabilities + rest;
    assert b == EncodeBaseOutput(o.base) + tail;
    BaseOutputRoundTrip(o.base, tail);
    assert b[0x10..0x1010] == o.capabilities;
  }

  /** `QueryHCACap { op_mod: 1 }` of the unit test. */
  lemma TestVector()
    ensures Encode(QueryHCACap(1)) == [0x01, 0x00, 0, 0, 0, 0, 0, 0x01, 0, 0, 0, 0, 0, 0, 0, 0]
  {
  }
}
