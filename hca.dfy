/**
 * INIT_HCA, ENABLE_HCA and DISABLE_HCA (src/commands/hca.rs): three
 * commands without fields whose 16-byte image is a magic, and whose
 * replies are the header and four padding bytes.
 */
module HcaCodec {
  import opened Bytes
  import opened Types

  datatype HcaCommand = InitHCA | EnableHCA | DisableHCA

  /** The second opcode byte; the first is 0x01 for all three. */
  function Opcode(c: HcaCommand): byte {
    match c
    case InitHCA => 0x02
    case EnableHCA => 0x04
    case DisableHCA => 0x05
  }

  /** The magic of each command, which is also its whole encoding. */
  function Encode(c: HcaCommand): (r: seq<byte>)
    ensures |r| == Size(c)
  {
    [0x01, Opcode(c)] + Zeros(14)
  }

  /** Reading command `c` succeeds exactly on bytes that begin with its magic. */
  predicate Decodes(c: HcaCommand, b: seq<byte>) {
    HasMagic(b, Encode(c))
  }

  function Size(c: HcaCommand): nat { 0x10 }

  function Outlen(c: HcaCommand): nat { 0x10 }

  /** Each output is the header and four padding bytes. */
  const OUTPUT_PAD: nat := 4

  /** A command reads back from its own encoding, and from no other command's. */
  lemma {:induction false} DecodesExactly(c: HcaCommand, d: HcaCommand, rest: seq<byte>)
    ensures Decodes(c, Encode(d) + rest) <==> c == d
  {
    var b := Encode(d) + rest;
    assert b[..16] == Encode(d);
    if c != d {
      assert Encode(c)[1] != Encode(d)[1];
    }
  }

  /** The reply fits `outlen`, and only its status and syndrome carry information. */
  lemma {:induction false} OutputFits(c: HcaCommand, o: BaseOutput, pad: seq<byte>)
    requires Canonical(o.status) && |pad| == OUTPUT_PAD
    ensures |EncodeStatusOutput(o, OUTPUT_PAD)| <= Outlen(c)
    ensures DecodeStatusOutput(EncodeBaseOutput(o) + pad, OUTPUT_PAD) == Some(o)
  {
    BaseOutputRoundTrip(o, pad);
  }

  lemma TestVectors()
    ensures Encode(InitHCA) == [0x01, 0x02, 0, 0, 0, 0, 0, 0, 0, 0, 0, 0, 0, 0, 0, 0]
    ensures Encode(EnableHCA) == [0x01, 0x04, 0, 0, 0, 0, 0, 0, 0, 0, 0, 0, 0, 0, 0, 0]
    ensures Encode(DisableHCA) == [0x01, 0x05, 0, 0, 0, 0, 0, 0, 0, 0, 0, 0, 0, 0, 0, 0]
  {
  }
}
