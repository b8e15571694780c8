/**
 * The tracer registers (src/registers/mtrc.rs): MTRC_CAP, MTRC_CONF,
 * MTRC_STDB and MTRC_CTRL, read and written through ACCESS_REGISTER.
 *
 * Each register is a big-endian bit-packed record; narrow fields keep
 * their low bits when written and padding is skipped when read.
 */
module MtrcRegisters {
  import opened Bytes

  const MTRC_CAP_ID: u16 := 0x9040
  const MTRC_CONF_ID: u16 := 0x9041
  const MTRC_STDB_ID: u16 := 0x9042
  const MTRC_CTRL_ID: u16 := 0x9043

  // ------------------------------------------------------------ StringDbParam

  /** Where one string database lies: its address, then its size. */
  datatype StringDbParam = StringDbParam(address: u32, size: u32)

  /** The parameters one after the other, eight bytes each. */
  function EncodeParams(ps: seq<StringDbParam>): (r: seq<byte>)
    ensures |r| == 8 * |ps|
  {
    if |ps| == 0 then [] else BE32(ps[0].address) + BE32(ps[0].size) + EncodeParams(ps[1..])
  }

  /** The first `n` parameters of `b`. */
  function DecodeParams(b: seq<byte>, n: nat): (ps: seq<StringDbParam>)
    requires 8 * n <= |b|
    ensures |ps| == n
  {
    if n == 0 then [] else [StringDbParam(FromBE32(b[..4]), FromBE32(b[4..8]))] + DecodeParams(b[8..], n - 1)
  }

  lemma {:induction false} ParamsRoundTrip(ps: seq<StringDbParam>, rest: seq<byte>)
    ensures DecodeParams(EncodeParams(ps) + rest, |ps|) == ps
  {
    if |ps| > 0 {
      var b := EncodeParams(ps) + rest;
      assert b[..4] == BE32(ps[0].address);
      assert b[4..8] == BE32(ps[0].size);
      assert b[8..] == EncodeParams(ps[1..]) + rest;
      BE32Inverse(ps[0].address);
      BE32Inverse(ps[0].size);
      ParamsRoundTrip(ps[1..], rest);
    }
  }

  // ----------------------------------------------------------------- MTRC_CAP

  type Params = ps: seq<StringDbParam> | |ps| == 8 witness seq(8, _ => StringDbParam(0, 0))

  datatype MtrcCapReg = MtrcCapReg(
    traceOwner: bool, traceToMemory: bool, trcVer: byte,
    numStringDb: byte,
    firstStringTrace: byte, numStringTrace: byte,
    logMaxTraceBufferSize: byte,
    stringDbParam: Params)

  predicate CapInRange(r: MtrcCapReg) {
    r.trcVer < 4 && r.numStringDb < 0x10
  }

  const CAP_LEN: nat := 80

  /** `size()` of MTRC_CAP. */
  const CAP_SIZE: nat := 80

  /** Byte 0: trace_owner at bit 7, trace_to_memory at bit 6, trc_ver in bits 1..0. */
  function CapByte0(r: MtrcCapReg): byte {
    Bit(r.traceOwner, 0x80) + Bit(r.traceToMemory, 0x40) + r.trcVer % 4
  }

  /**
   * Bytes 0..16: byte 0, num_string_db in the low nibble of byte 3,
   * first_string_trace and num_string_trace at 4 and 5,
   * log_max_trace_buffer_size at 11; then the eight parameters at 16..80.
   */
  function EncodeCap(r: MtrcCapReg): (b: seq<byte>)
    ensures |b| == CAP_LEN
  {
    CapHead(r) + EncodeParams(r.stringDbParam)
  }

  /** The sixteen bytes before the parameters. */
  function CapHead(r: MtrcCapReg): (h: seq<byte>)
    ensures |h| == 16
  {
    [CapByte0(r), 0, 0, r.numStringDb % 0x10, r.firstStringTrace, r.numStringTrace]
      + Zeros(5) + [r.logMaxTraceBufferSize] + Zeros(4)
  }

  /** Where the decoder finds the head fields. */
  lemma CapHeadRead(r: MtrcCapReg, b: seq<byte>)
    requires |b| >= 16 && b[..16] == CapHead(r)
    ensures b[0] == CapByte0(r) && b[3] == r.numStringDb % 0x10
    ensures b[4] == r.firstStringTrace && b[5] == r.numStringTrace && b[11] == r.logMaxTraceBufferSize
  {
    assert b[0] == b[..16][0] && b[3] == b[..16][3] && b[4] == b[..16][4];
    assert b[5] == b[..16][5] && b[11] == b[..16][11];
  }

  function DecodeCap(b: seq<byte>): (r: Option<MtrcCapReg>)
    ensures r.Some? <==> |b| >= CAP_LEN
    ensures r.Some? ==> CapInRange(r.value)
  {
    if |b| < CAP_LEN then None
    else
      Some(MtrcCapReg(b[0] >= 0x80, b[0] % 0x80 >= 0x40, b[0] % 4, b[3] % 0x10, b[4], b[5], b[11],
                      DecodeParams(b[16..], 8)))
  }

  /** The bits of byte 0 read back. */
  lemma CapByte0Fields(r: MtrcCapReg)
    requires CapInRange(r)
    ensures CapByte0(r) >= 0x80 <==> r.traceOwner
    ensures CapByte0(r) % 0x80 >= 0x40 <==> r.traceToMemory
    ensures CapByte0(r) % 4 == r.trcVer
  {
  }

  lemma {:induction false} CapRoundTrip(r: MtrcCapReg, rest: seq<byte>)
    requires CapInRange(r)
    ensures DecodeCap(EncodeCap(r) + rest) == Some(r)
  {
    var b := EncodeCap(r) + rest;
    CapSplit(r, rest);
    CapHeadRead(r, b);
    CapByte0Fields(r);
    ParamsRoundTrip(r.stringDbParam, rest);
    var ps: Params := DecodeParams(b[16..], 8);
    assert ps == r.stringDbParam;
    assert DecodeCap(b) == Some(MtrcCapReg(b[0] >= 0x80, b[0] % 0x80 >= 0x40, b[0] % 4, b[3] % 0x10, b[4], b[5], b[11], ps));
  }

  lemma CapSplit(r: MtrcCapReg, rest: seq<byte>)
    ensures (EncodeCap(r) + rest)[..16] == CapHead(r)
    ensures (EncodeCap(r) + rest)[16..] == EncodeParams(r.stringDbParam) + rest
  {
    assert EncodeCap(r) + rest == CapHead(r) + (EncodeParams(r.stringDbParam) + rest);
  }

  // ---------------------------------------------------------------- MTRC_STDB

  type Chunk = s: seq<byte> | |s| == 64 witness Zeros(64)

  datatype MtrcStdbReg = MtrcStdbReg(index: byte, size: u32, offset: u32, data: Chunk)

  predicate StdbInRange(r: MtrcStdbReg) {
    r.index < 0x10 && r.size < 0x100_0000
  }

  const STDB_LEN: nat := 72

  /** `size()` of MTRC_STDB: 4 + 4 + 64. */
  const STDB_SIZE: nat := 4 + 4 + 64

  /** index in the high nibble of byte 0, size at 1..4, offset at 4..8, the 64 data bytes at 8..72. */
  function EncodeStdb(r: MtrcStdbReg): (b: seq<byte>)
    ensures |b| == STDB_LEN
  {
    [(r.index % 0x10) * 0x10] + BE24(r.size % 0x100_0000) + BE32(r.offset) + r.data
  }

  function DecodeStdb(b: seq<byte>): (r: Option<MtrcStdbReg>)
    ensures r.Some? <==> |b| >= STDB_LEN
    ensures r.Some? ==> StdbInRange(r.value) && r.value.data == b[8..72]
  {
    if |b| < STDB_LEN then None
    else Some(MtrcStdbReg(b[0] / 0x10, FromBE24(b[1..4]), FromBE32(b[4..8]), b[8..72]))
  }

  lemma {:induction false} StdbRoundTrip(r: MtrcStdbReg, rest: seq<byte>)
    requires StdbInRange(r)
    ensures DecodeStdb(EncodeStdb(r) + rest) == Some(r)
  {
    var b := EncodeStdb(r) + rest;
    assert b[0] == r.index * 0x10;
    assert b[1..4] == BE24(r.size);
    assert b[4..8] == BE32(r.offset);
    assert b[8..72] == r.data;
    BE24Inverse(r.size);
    BE32Inverse(r.offset);
  }

  // ---------------------------------------------------------------- MTRC_CONF

  datatype MtrcConfReg = MtrcConfReg(traceMode: byte, logTraceBufferSize: byte, traceMkey: u32)

  predicate ConfInRange(r: MtrcConfReg) {
    r.traceMode < 0x10
  }

  const CONF_LEN: nat := 12

  /** `size()` of MTRC_CONF: 4 + 4 + 4. */
  const CONF_SIZE: nat := 4 + 4 + 4

  /** trace_mode in the low nibble of byte 3, log_trace_buffer_size at byte 7, trace_mkey at 8..12. */
  function EncodeConf(r: MtrcConfReg): (b: seq<byte>)
    ensures |b| == CONF_LEN
  {
    [0, 0, 0, r.traceMode % 0x10] + [0, 0, 0, r.logTraceBufferSize] + BE32(r.traceMkey)
  }

  function DecodeConf(b: seq<byte>): (r: Option<MtrcConfReg>)
    ensures r.Some? <==> |b| >= CONF_LEN
    ensures r.Some? ==> ConfInRange(r.value)
  {
    if |b| < CONF_LEN then None
    else Some(MtrcConfReg(b[3] % 0x10, b[7], FromBE32(b[8..12])))
  }

  lemma {:induction false} ConfRoundTrip(r: MtrcConfReg, rest: seq<byte>)
    requires ConfInRange(r)
    ensures DecodeConf(EncodeConf(r) + rest) == Some(r)
  {
    var b := EncodeConf(r) + rest;
    assert b[3] == r.traceMode && b[7] == r.logTraceBufferSize;
    assert b[8..12] == BE32(r.traceMkey);
    BE32Inverse(r.traceMkey);
  }

  // ---------------------------------------------------------------- MTRC_CTRL

  datatype MtrcCtrlReg = MtrcCtrlReg(traceStatus: byte, armEvent: bool, modifyFieldSelect: u16, timestampHi: u32, timestampLo: u32)

  predicate CtrlInRange(r: MtrcCtrlReg) {
    r.traceStatus < 4
  }

  const CTRL_LEN: nat := 16

  /** `size()` of MTRC_CTRL: 4 + 4 + 4, four bytes short of the encoding. */
  const CTRL_SIZE: nat := 4 + 4 + 4

  /** Byte 0: trace_status in bits 7..6, arm_event at bit 3. */
  function CtrlByte0(r: MtrcCtrlReg): byte {
    (r.traceStatus % 4) * 0x40 + Bit(r.armEvent, 0x08)
  }

  /** Byte 0, a padding byte, modify_field_select at 2..4, four padding bytes, the timestamp halves at 8..12 and 12..16. */
  function EncodeCtrl(r: MtrcCtrlReg): (b: seq<byte>)
    ensures |b| == CTRL_LEN
  {
    [CtrlByte0(r), 0] + BE16(r.modifyFieldSelect) + Zeros(4) + BE32(r.timestampHi) + BE32(r.timestampLo)
  }

  function DecodeCtrl(b: seq<byte>): (r: Option<MtrcCtrlReg>)
    ensures r.Some? <==> |b| >= CTRL_LEN
    ensures r.Some? ==> CtrlInRange(r.value)
  {
    if |b| < CTRL_LEN then None
    else Some(MtrcCtrlReg(b[0] / 0x40, b[0] % 0x10 >= 0x08, FromBE16(b[2..4]), FromBE32(b[8..12]), FromBE32(b[12..16])))
  }

  lemma CtrlByte0Fields(r: MtrcCtrlReg)
    requires CtrlInRange(r)
    ensures CtrlByte0(r) / 0x40 == r.traceStatus
    ensures CtrlByte0(r) % 0x10 >= 0x08 <==> r.armEvent
  {
  }

  lemma {:induction false} CtrlRoundTrip(r: MtrcCtrlReg, rest: seq<byte>)
    requires CtrlInRange(r)
    ensures DecodeCtrl(EncodeCtrl(r) + rest) == Some(r)
  {
    var b := EncodeCtrl(r) + rest;
    assert b[0] == CtrlByte0(r);
    CtrlByte0Fields(r);
    assert b[2..4] == BE16(r.modifyFieldSelect);
    assert b[8..12] == BE32(r.timestampHi);
    assert b[12..16] == BE32(r.timestampLo);
    BE16Inverse(r.modifyFieldSelect);
    BE32Inverse(r.timestampHi);
    BE32Inverse(r.timestampLo);
  }

  /** `size()` equals the encoded length for CAP, STDB and CONF, and not for CTRL. */
  lemma SizesVersusLengths(c: MtrcCapReg, s: MtrcStdbReg, f: MtrcConfReg, t: MtrcCtrlReg)
    ensures |EncodeCap(c)| == CAP_SIZE && |EncodeStdb(s)| == STDB_SIZE && |EncodeConf(f)| == CONF_SIZE
    ensures |EncodeCtrl(t)| == CTRL_SIZE + 4
  {
  }

  /** Only the low bits of narrow fields are written. */
  lemma CapTruncates(c: MtrcCapReg)
    ensures EncodeCap(c) == EncodeCap(c.(trcVer := c.trcVer % 4, numStringDb := c.numStringDb % 0x10))
  {
    assert CapByte0(c) == CapByte0(c.(trcVer := c.trcVer % 4, numStringDb := c.numStringDb % 0x10));
  }

  lemma StdbTruncates(s: MtrcStdbReg)
    ensures EncodeStdb(s) == EncodeStdb(s.(index := s.index % 0x10, size := s.size % 0x100_0000))
  {
    assert (s.size % 0x100_0000) % 0x100_0000 == s.size % 0x100_0000;
  }

  lemma ConfTruncates(f: MtrcConfReg)
    ensures EncodeConf(f) == EncodeConf(f.(traceMode := f.traceMode % 0x10))
  {
  }

  lemma CtrlTruncates(t: MtrcCtrlReg)
    ensures EncodeCtrl(t) == EncodeCtrl(t.(traceStatus := t.traceStatus % 4))
  {
    assert CtrlByte0(t) == CtrlByte0(t.(traceStatus := t.traceStatus % 4));
  }
}
