/**
 * SET_DRIVER_VERSION (src/types/set_driver_version.rs): hands the
 * firmware a 64-byte version string.
 */
module SetDriverVersionCodec {
  import opened Bytes
  import opened Types

  /** The 64 bytes of `driver_version`. */
  type DriverVersion = s: seq<byte> | |s| == 64 witness Zeros(64)

  datatype SetDriverVersion = SetDriverVersion(driverVersion: DriverVersion)

  const MAGIC: seq<byte> := [0x01, 0x0d]
  const SIZE: nat := 0x50
  const OUTLEN: nat := 0x10

  /** Magic `01 0d`, fourteen padding bytes, the version at 0x10..0x50. */
  function Encode(c: SetDriverVersion): (r: seq<byte>)
    ensures |r| == SIZE
  {
    MAGIC + Zeros(14) + c.driverVersion
  }

  function Decode(b: seq<byte>): (r: Option<SetDriverVersion>)
    ensures r.Some? <==> |b| >= SIZE && b[..2] == MAGIC
    ensures r.Some? ==> r.value.driverVersion == b[0x10..0x50]
  {
    if |b| < 0x50 || b[..2] != MAGIC then None
    else Some(SetDriverVersion(b[0x10..0x50]))
  }

  lemma {:induction false} RoundTrip(c: SetDriverVersion, rest: seq<byte>)
    ensures Decode(Encode(c) + rest) == Some(c)
  {
    var b := Encode(c) + rest;
    assert b[..2] == MAGIC;
    assert b[0x10..0x50] == c.driverVersion;
  }

  /** The output is the header and four padding bytes, within `outlen`. */
  const OUTPUT_PAD: nat := 4

  /** A reply fits `outlen()`, and only its status and syndrome are read back from it. */
  lemma {:induction false} OutputFits(o: BaseOutput, rest: seq<byte>)
    requires Canonical(o.status)
    ensures |EncodeStatusOutput(o, OUTPUT_PAD)| <= OUTLEN
    ensures DecodeStatusOutput(EncodeStatusOutput(o, OUTPUT_PAD) + rest, OUTPUT_PAD) == Some(o)
  {
    StatusOutputRoundTrip(o, OUTPUT_PAD, rest);
  }

  /** Copying a string into the zeroed 64-byte array, as the unit test does with `write`: at most 64 bytes land at the front. */
  function Padded(s: seq<byte>): DriverVersion {
    if |s| <= 64 then s + Zeros(64 - |s|) else s[..64]
  }

  /** "test-version" and its terminating zero byte. */
  const TEST_VERSION: seq<byte> := [116, 101, 115, 116, 45, 118, 101, 114, 115, 105, 111, 110, 0]

  /** The unit test's image: the header, then the string and 51 zero bytes. */
  lemma TestVector()
    ensures Encode(SetDriverVersion(Padded(TEST_VERSION)))
         == [1, 13, 0, 0, 0, 0, 0, 0, 0, 0, 0, 0, 0, 0, 0, 0] + TEST_VERSION + Zeros(51)
  {
  }
}
