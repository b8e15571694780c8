/**
 * ACCESS_REGISTER (src/types/access_register.rs): reads or writes one
 * device register; the register's image travels after a 16-byte header,
 * in the request and in the reply.
 *
 * The snapshot type carries the register image as 32-bit words.  The
 * register accessors of the command interface hand it the register's own
 * encoding as bytes (the command type they use is not part of this
 * model); `EncodeBytes` is that form, and `EncodeBytesOfWords` shows the
 * two agree whenever the bytes are whole big-endian words.
 */
module AccessRegisterCodec {
  import opened Bytes
  import opened Types

  datatype AccessRegisterOpMod = Write | Read

  datatype AccessRegister = AccessRegister(opMod: AccessRegisterOpMod, registerId: u16, argument: u32, registerData: seq<u32>)

  datatype AccessRegisterOutput = AccessRegisterOutput(base: BaseOutput, registerData: seq<u32>)

  function OpModToU16(m: AccessRegisterOpMod): u16 {
    match m
    case Write => 0
    case Read => 1
  }

  function OpModFromU16(v: u16): (r: Option<AccessRegisterOpMod>)
    ensures r.Some? <==> v <= 1
    ensures r.Some? ==> OpModToU16(r.value) == v
  {
    if v == 0 then Some(Write) else if v == 1 then Some(Read) else None
  }

  const MAGIC: seq<byte> := [0x08, 0x05]

  /** Magic `08 05`, four padding bytes, op_mod at 6..8, two padding bytes, register_id at 10..12, argument at 12..16. */
  function Header(opMod: AccessRegisterOpMod, registerId: u16, argument: u32): (r: seq<byte>)
    ensures |r| == 16
  {
    MAGIC + Zeros(4) + BE16(OpModToU16(opMod)) + Zeros(2) + BE16(registerId) + BE32(argument)
  }

  /** The header, then each register word big-endian. */
  function Encode(c: AccessRegister): (r: seq<byte>)
    ensures |r| == Size(c)
  {
    Header(c.opMod, c.registerId, c.argument) + BE32s(c.registerData)
  }

  /** The request as the register accessors build it: the header, then the register's bytes. */
  function EncodeBytes(opMod: AccessRegisterOpMod, registerId: u16, argument: u32, data: seq<byte>): (r: seq<byte>)
    ensures |r| == 16 + |data| && r[16..] == data
  {
    Header(opMod, registerId, argument) + data
  }

  lemma EncodeBytesOfWords(c: AccessRegister)
    ensures EncodeBytes(c.opMod, c.registerId, c.argument, BE32s(c.registerData)) == Encode(c)
  {
  }

  /** `size()` and `outlen()`: the header and four bytes per register word. */
  function Size(c: AccessRegister): nat {
    0x10 + 4 * |c.registerData|
  }

  function Outlen(c: AccessRegister): nat {
    0x10 + 4 * |c.registerData|
  }

  /** The header fields read back from the front of `Header(..) + tail`. */
  lemma {:induction false} HeaderFields(opMod: AccessRegisterOpMod, registerId: u16, argument: u32, tail: seq<byte>)
    ensures var b := Header(opMod, registerId, argument) + tail;
      && |b| >= 16 && b[..2] == MAGIC
      && FromBE16(b[6..8]) == OpModToU16(opMod)
      && FromBE16(b[10..12]) == registerId
      && FromBE32(b[12..16]) == argument
      && b[16..] == tail
  {
    var b := Header(opMod, registerId, argument) + tail;
    assert b[..2] == MAGIC;
    assert b[6..8] == BE16(OpModToU16(opMod));
    assert b[10..12] == BE16(registerId);
    assert b[12..16] == BE32(argument);
    BE16Inverse(OpModToU16(opMod));
    BE16Inverse(registerId);
    BE32Inverse(argument);
  }

  /**
   * Reads a request: everything after the header is register data, which
   * must be whole words; a bad magic or op_mod fails.
   */
  function Decode(b: seq<byte>): (r: Option<AccessRegister>)
    ensures r.Some? ==> |b| >= 16 && BE32s(r.value.registerData) == b[16..]
  {
    if |b| < 16 || b[..2] != MAGIC then None
    else
      match OpModFromU16(FromBE16(b[6..8]))
      case None => None
      case Some(op) =>
        match FromBE32s(b[16..])
        case None => None
        case Some(ws) =>
          BE32sReencode(b[16..]);
          Some(AccessRegister(op, FromBE16(b[10..12]), FromBE32(b[12..16]), ws))
  }

  /** A request decodes from its own encoding alone: the data runs to the end of the bytes. */
  lemma {:induction false} RoundTrip(c: AccessRegister)
    ensures Decode(Encode(c)) == Some(c)
  {
    HeaderFields(c.opMod, c.registerId, c.argument, BE32s(c.registerData));
    BE32sInverse(c.registerData);
  }

  /** An op_mod other than 0 and 1 makes the request undecodable. */
  lemma BadOpMod(b: seq<byte>)
    requires |b| >= 16 && b[..2] == MAGIC && FromBE16(b[6..8]) > 1
    ensures Decode(b) == None
  {
  }

  /** The header, eight padding bytes, then each register word big-endian. */
  function EncodeOutput(o: AccessRegisterOutput): (r: seq<byte>)
    ensures |r| == 16 + 4 * |o.registerData|
  {
    EncodeBaseOutput(o.base) + Zeros(8) + BE32s(o.registerData)
  }

  function DecodeOutput(b: seq<byte>): (r: Option<AccessRegisterOutput>)
    ensures r.Some? <==> |b| >= 16 && |b| % 4 == 0
    ensures r.Some? ==> BE32s(r.value.registerData) == b[16..] && Some(r.value.base) == DecodeBaseOutput(b)
  {
    if |b| < 16 then None
    else
      match FromBE32s(b[16..])
      case None => None
      case Some(ws) =>
        BE32sReencode(b[16..]);
        Some(AccessRegisterOutput(DecodeBaseOutput(b).value, ws))
  }

  lemma {:induction false} OutputRoundTrip(o: AccessRegisterOutput)
    requires Canonical(o.base.status)
    ensures DecodeOutput(EncodeOutput(o)) == Some(o)
  {
    var b := EncodeOutput(o);
    var tail := Zeros(8) + BE32s(o.registerData);
    assert b == EncodeBaseOutput(o.base) + tail;
    BaseOutputRoundTrip(o.base, tail);
    assert b[16..] == BE32s(o.registerData);
    BE32sInverse(o.registerData);
  }

  /** The register data of a reply as the register accessors read it: every byte after the first sixteen. */
  function OutputBytes(b: seq<byte>): (r: Option<seq<byte>>)
    ensures r.Some? <==> |b| >= 16
    ensures r.Some? ==> b == b[..16] + r.value
  {
    if |b| < 16 then None else Some(b[16..])
  }

  const TEST_REQUEST: AccessRegister := AccessRegister(Read, 0x1337, 0x1234_5678, [0x8765_4321, 0, 0xffff_ffff])

  /** The unit test's request: the header, then the three words. */
  lemma TestVector()
    ensures Encode(TEST_REQUEST)
         == [0x08, 0x05, 0x00, 0x00, 0x00, 0x00, 0x00, 0x01, 0x00, 0x00, 0x13, 0x37, 0x12, 0x34, 0x56, 0x78]
          + [0x87, 0x65, 0x43, 0x21] + [0x00, 0x00, 0x00, 0x00] + [0xff, 0xff, 0xff, 0xff]
    ensures |Encode(TEST_REQUEST)| == Size(TEST_REQUEST) == 28
  {
    assert Header(Read, 0x1337, 0x1234_5678)
        == [0x08, 0x05, 0x00, 0x00, 0x00, 0x00, 0x00, 0x01, 0x00, 0x00, 0x13, 0x37, 0x12, 0x34, 0x56, 0x78];
    var ws := TEST_REQUEST.registerData;
    assert ws[1..] == [0, 0xffff_ffff];
    assert ws[1..][1..] == [0xffff_ffff];
    assert ws[1..][1..][1..] == [];
    assert BE32s(ws) == BE32(0x8765_4321) + (BE32(0) + (BE32(0xffff_ffff) + []));
  }
}
