/**
 * The status header that starts every command output: the status byte, three
 * bytes of padding and a big-endian syndrome word (src/types.rs).
 */
module Types {
  import opened Bytes

  /** Firmware command status codes; any unlisted byte is kept as `UnknownError`. */
  datatype CommandErrorStatus =
    | Ok
    | InternalError
    | BadOperation
    | BadParameter
    | BadSystemState
    | BadResource
    | ResourceBusy
    | ExceededLimit
    | BadResourceState
    | BadIndex
    | NoResources
    | BadInputLen
    | BadOutputLen
    | UnknownError(code: byte)

  /** The status bytes that have a named variant. */
  const KNOWN_STATUS: set<byte> :=
    {0x00, 0x01, 0x02, 0x03, 0x04, 0x05, 0x06, 0x08, 0x09, 0x0a, 0x0f, 0x50, 0x51}

  function StatusToByte(s: CommandErrorStatus): byte {
    match s
    case Ok => 0x00
    case InternalError => 0x01
    case BadOperation => 0x02
    case BadParameter => 0x03
    case BadSystemState => 0x04
    case BadResource => 0x05
    case ResourceBusy => 0x06
    case ExceededLimit => 0x08
    case BadResourceState => 0x09
    case BadIndex => 0x0a
    case NoResources => 0x0f
    case BadInputLen => 0x50
    case BadOutputLen => 0x51
    case UnknownError(b) => b
  }

  /**
   * Decoding a status byte never fails: the listed ids give their variants
   * and every other byte (0x07 included) gives `UnknownError` of itself.
   */
  function StatusFromByte(b: byte): (s: CommandErrorStatus)
    ensures StatusToByte(s) == b
    ensures s.UnknownError? <==> b !in KNOWN_STATUS
    ensures s == Ok <==> b == 0
  {
    if b == 0x00 then Ok
    else if b == 0x01 then InternalError
    else if b == 0x02 then BadOperation
    else if b == 0x03 then BadParameter
    else if b == 0x04 then BadSystemState
    else if b == 0x05 then BadResource
    else if b == 0x06 then ResourceBusy
    else if b == 0x08 then ExceededLimit
    else if b == 0x09 then BadResourceState
    else if b == 0x0a then BadIndex
    else if b == 0x0f then NoResources
    else if b == 0x50 then BadInputLen
    else if b == 0x51 then BadOutputLen
    else UnknownError(b)
  }

  /** A status value that decoding can produce. */
  predicate Canonical(s: CommandErrorStatus) {
    s.UnknownError? ==> s.code !in KNOWN_STATUS
  }

  lemma StatusRoundTrip(s: CommandErrorStatus)
    requires Canonical(s)
    ensures StatusFromByte(StatusToByte(s)) == s
  {
  }

  /** Two statuses that decoding can produce are equal exactly when their bytes are. */
  lemma {:induction false} StatusInjective(s: CommandErrorStatus, t: CommandErrorStatus)
    requires Canonical(s) && Canonical(t)
    ensures StatusToByte(s) == StatusToByte(t) <==> s == t
  {
    if StatusToByte(s) == StatusToByte(t) {
      StatusRoundTrip(s);
      StatusRoundTrip(t);
    }
  }

  datatype BaseOutput = BaseOutput(status: CommandErrorStatus, syndrome: u32)

  const BASE_OUTPUT_LEN: nat := 8

  function EncodeBaseOutput(o: BaseOutput): (r: seq<byte>)
    ensures |r| == BASE_OUTPUT_LEN
  {
    [StatusToByte(o.status)] + Zeros(3) + BE32(o.syndrome)
  }

  /**
   * Reads the header from the front of `b`: status from byte 0, padding
   * bytes 1..4 skipped, syndrome from bytes 4..8.
   */
  function DecodeBaseOutput(b: seq<byte>): (r: Option<BaseOutput>)
    ensures r.Some? <==> |b| >= BASE_OUTPUT_LEN
    ensures r.Some? ==>
              && StatusToByte(r.value.status) == b[0]
              && BE32(r.value.syndrome) == b[4..8]
              && Canonical(r.value.status)
  {
    if |b| < BASE_OUTPUT_LEN then None
    else Some(BaseOutput(StatusFromByte(b[0]), FromBE32(b[4..8])))
  }

  lemma {:induction false} BaseOutputRoundTrip(o: BaseOutput, rest: seq<byte>)
    requires Canonical(o.status)
    ensures DecodeBaseOutput(EncodeBaseOutput(o) + rest) == Some(o)
  {
    var b := EncodeBaseOutput(o) + rest;
    assert b[4..8] == BE32(o.syndrome);
    BE32Inverse(o.syndrome);
    StatusRoundTrip(o.status);
  }

  /** Decoding reads only the first eight bytes. */
  lemma BaseOutputPrefix(b: seq<byte>, rest: seq<byte>)
    requires |b| >= BASE_OUTPUT_LEN
    ensures DecodeBaseOutput(b + rest) == DecodeBaseOutput(b)
  {
    assert (b + rest)[4..8] == b[4..8];
  }

  /** Re-encoding a decoded header gives back its bytes, with the padding zeroed. */
  lemma {:induction false} BaseOutputReencode(b: seq<byte>)
    requires |b| >= BASE_OUTPUT_LEN
    ensures EncodeBaseOutput(DecodeBaseOutput(b).value) == [b[0], 0, 0, 0] + b[4..8]
  {
    var o := DecodeBaseOutput(b).value;
    assert BE32(o.syndrome) == b[4..8];
  }

  /** The header of the unit tests' replies: status 0xab, three padding bytes, syndrome 0x12345678. */
  const TEST_HEADER: seq<byte> := [0xab, 0, 0, 0, 0x12, 0x34, 0x56, 0x78]

  lemma BaseOutputTestVector()
    ensures DecodeBaseOutput(TEST_HEADER) == Some(BaseOutput(UnknownError(0xab), 0x1234_5678))
  {
    assert BE32(0x1234_5678) == TEST_HEADER[4..8];
    BE32Inverse(0x1234_5678);
  }

  /** deku's magic check on reading: `b` begins with `magic`. */
  predicate HasMagic(b: seq<byte>, magic: seq<byte>) {
    |magic| <= |b| && b[..|magic|] == magic
  }

  lemma MagicPrefix(magic: seq<byte>, rest: seq<byte>)
    ensures HasMagic(magic + rest, magic)
  {
    assert (magic + rest)[..|magic|] == magic;
  }

  /** An output made of the header and `pad` padding bytes, such as `InitHCAOutput`. */
  function EncodeStatusOutput(o: BaseOutput, pad: nat): (r: seq<byte>)
    ensures |r| == BASE_OUTPUT_LEN + pad
  {
    EncodeBaseOutput(o) + Zeros(pad)
  }

  /** Reading such an output needs the header and the padding to be present; the padding is skipped. */
  function DecodeStatusOutput(b: seq<byte>, pad: nat): (r: Option<BaseOutput>)
    ensures r.Some? <==> |b| >= BASE_OUTPUT_LEN + pad
    ensures r.Some? ==> Some(r.value) == DecodeBaseOutput(b)
  {
    if |b| < BASE_OUTPUT_LEN + pad then None else DecodeBaseOutput(b)
  }

  lemma {:induction false} StatusOutputRoundTrip(o: BaseOutput, pad: nat, rest: seq<byte>)
    requires Canonical(o.status)
    ensures DecodeStatusOutput(EncodeStatusOutput(o, pad) + rest, pad) == Some(o)
  {
    assert EncodeStatusOutput(o, pad) + rest == EncodeBaseOutput(o) + (Zeros(pad) + rest);
    BaseOutputRoundTrip(o, Zeros(pad) + rest);
  }

  /** The unit tests' reply header followed by padding decodes to status `UnknownError(0xab)` and syndrome 0x12345678. */
  lemma StatusOutputTestVector(pad: nat)
    ensures DecodeStatusOutput(TEST_HEADER + Zeros(pad), pad) == Some(BaseOutput(UnknownError(0xab), 0x1234_5678))
  {
    BaseOutputTestVector();
    BaseOutputPrefix(TEST_HEADER, Zeros(pad));
  }
}
