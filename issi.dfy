/**
 * QUERY_ISSI and SET_ISSI (src/types/issi.rs): the interface step
 * sequence id the firmware supports, and the one the driver picks.
 */
module IssiCodec {
  import opened Bytes
  import opened Types

  /** `QueryISSI` has no fields: its whole 16-byte image is its magic, `01 0a` and fourteen zero bytes. */
  const QUERY_ISSI: seq<byte> := [0x01, 0x0a] + Zeros(14)

  const QUERY_ISSI_SIZE: nat := 0x10
  const QUERY_ISSI_OUTLEN: nat := 0x70

  /** Reading a `QueryISSI` succeeds exactly on bytes that begin with its magic. */
  predicate DecodesQueryISSI(b: seq<byte>) {
    HasMagic(b, QUERY_ISSI)
  }

  lemma QueryISSILayout()
    ensures |QUERY_ISSI| == QUERY_ISSI_SIZE
    ensures QUERY_ISSI == [0x01, 0x0a, 0, 0, 0, 0, 0, 0, 0, 0, 0, 0, 0, 0, 0, 0]
    ensures forall rest :: DecodesQueryISSI(QUERY_ISSI + rest)
  {
    forall rest: seq<byte> ensures DecodesQueryISSI(QUERY_ISSI + rest) {
      MagicPrefix(QUERY_ISSI, rest);
    }
  }

  /** The eighty bytes of `supported_issi`. */
  type SupportedIssi = s: seq<byte> | |s| == 0x50 witness Zeros(0x50)

  datatype QueryISSIOutput = QueryISSIOutput(base: BaseOutput, currentIssi: u16, supportedIssi: SupportedIssi)

  /** The header, two padding bytes, current_issi at 10..12, twenty padding bytes, supported_issi at 32..0x70. */
  function EncodeQueryISSIOutput(o: QueryISSIOutput): (r: seq<byte>)
    ensures |r| == QUERY_ISSI_OUTLEN
  {
    EncodeBaseOutput(o.base) + Zeros(2) + BE16(o.currentIssi) + Zeros(20) + o.supportedIssi
  }

  function DecodeQueryISSIOutput(b: seq<byte>): (r: Option<QueryISSIOutput>)
    ensures r.Some? <==> |b| >= QUERY_ISSI_OUTLEN
    ensures r.Some? ==> BE16(r.value.currentIssi) == b[10..12] && r.value.supportedIssi == b[32..0x70]
  {
    if |b| < 0x70 then None
    else Some(QueryISSIOutput(DecodeBaseOutput(b).value, FromBE16(b[10..12]), b[32..0x70]))
  }

  lemma {:induction false} QueryISSIOutputRoundTrip(o: QueryISSIOutput, rest: seq<byte>)
    requires Canonical(o.base.status)
    ensures DecodeQueryISSIOutput(EncodeQueryISSIOutput(o) + rest) == Some(o)
  {
    var h := EncodeBaseOutput(o.base);
    var b := EncodeQueryISSIOutput(o) + rest;
    var tail := Zeros(2) + BE16(o.currentIssi) + Zeros(20) + o.supportedIssi + rest;
    assert b == h + tail;
    BaseOutputRoundTrip(o.base, tail);
    assert b[10..12] == BE16(o.currentIssi);
    assert b[32..0x70] == o.supportedIssi;
    BE16Inverse(o.currentIssi);
  }

  /** supported_issi of the unit test: byte i holds i. */
  const TEST_SUPPORTED: SupportedIssi := seq(0x50, i requires 0 <= i < 0x50 => i)

  const TEST_QUERY_REPLY: seq<byte> := TEST_HEADER + [0x00, 0x00, 0xaa, 0xbb] + Zeros(20) + TEST_SUPPORTED

  /** The 0x70-byte reply of the unit test fills `outlen` and decodes as the test expects. */
  lemma QueryISSIOutputTestVector()
    ensures |TEST_QUERY_REPLY| == QUERY_ISSI_OUTLEN
    ensures DecodeQueryISSIOutput(TEST_QUERY_REPLY)
         == Some(QueryISSIOutput(BaseOutput(UnknownError(0xab), 0x1234_5678), 0xaabb, TEST_SUPPORTED))
  {
    var b := TEST_QUERY_REPLY;
    BaseOutputTestVector();
    assert b[..8] == TEST_HEADER;
    assert b == b[..8] + b[8..];
    BaseOutputPrefix(b[..8], b[8..]);
    assert b[10..12] == BE16(0xaabb);
    BE16Inverse(0xaabb);
    assert b[32..0x70] == TEST_SUPPORTED;
  }

  datatype SetISSI = SetISSI(currentIssi: u16)

  const SET_ISSI_MAGIC: seq<byte> := [0x01, 0x0b]
  const SET_ISSI_SIZE: nat := 0x10
  const SET_ISSI_OUTLEN: nat := 0x10

  /** Magic `01 0b`, eight padding bytes, current_issi at 10..12, four padding bytes. */
  function EncodeSetISSI(c: SetISSI): (r: seq<byte>)
    ensures |r| == SET_ISSI_SIZE
  {
    SET_ISSI_MAGIC + Zeros(8) + BE16(c.currentIssi) + Zeros(4)
  }

  function DecodeSetISSI(b: seq<byte>): (r: Option<SetISSI>)
    ensures r.Some? <==> |b| >= 16 && b[..2] == SET_ISSI_MAGIC
    ensures r.Some? ==> BE16(r.value.currentIssi) == b[10..12]
  {
    if |b| < 16 || b[..2] != SET_ISSI_MAGIC then None
    else Some(SetISSI(FromBE16(b[10..12])))
  }

  lemma {:induction false} SetISSIRoundTrip(c: SetISSI, rest: seq<byte>)
    ensures DecodeSetISSI(EncodeSetISSI(c) + rest) == Some(c)
  {
    var b := EncodeSetISSI(c) + rest;
    assert b[..2] == SET_ISSI_MAGIC;
    assert b[10..12] == BE16(c.currentIssi);
    BE16Inverse(c.currentIssi);
  }

  /** `SetISSI { current_issi: 0x1337 }` of the unit test. */
  lemma SetISSITestVector()
    ensures EncodeSetISSI(SetISSI(0x1337)) == [0x01, 0x0b, 0x00, 0x00, 0x00, 0x00, 0x00, 0x00, 0x00, 0x00, 0x13, 0x37, 0x00, 0x00, 0x00, 0x00]
  {
  }

  /** `SetISSIOutput` is the header and eight padding bytes. */
  const SET_ISSI_OUTPUT_PAD: nat := 8

  lemma SetISSIOutputTestVector()
    ensures |TEST_HEADER + Zeros(SET_ISSI_OUTPUT_PAD)| == SET_ISSI_OUTLEN
    ensures DecodeStatusOutput(TEST_HEADER + Zeros(SET_ISSI_OUTPUT_PAD), SET_ISSI_OUTPUT_PAD)
         == Some(BaseOutput(UnknownError(0xab), 0x1234_5678))
  {
    StatusOutputTestVector(SET_ISSI_OUTPUT_PAD);
  }
}
