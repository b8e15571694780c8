/**
 * The flash registers (src/registers/flash.rs): MFPA, the flash parameter
 * record, and MFBA, a 64-byte block transfer.  The file is not declared
 * by the register module list, so this model keeps these registers apart
 * from the tracer registers.
 *
 * The pointer-sized fields are 64-bit integers of which only the declared
 * number of bits is written; padding is skipped when read.
 */
module FlashRegisters {
  import opened Bytes

  const MFPA_ID: u16 := 0x9010
  const MFBA_ID: u16 := 0x9011

  /** The first word of both registers: add_cap_32b at bit 7 of byte 0, p at bit 0 of byte 2, fs in bits 5..4 of byte 3. */
  function Word0(addCap32b: bool, p: bool, fs: u64): (r: seq<byte>)
    ensures |r| == 4
  {
    [Bit(addCap32b, 0x80), 0, Bit(p, 0x01), (fs % 4) * 0x10]
  }

  datatype Word0Fields = Word0Fields(addCap32b: bool, p: bool, fs: u64)

  function ReadWord0(b: seq<byte>): (r: Word0Fields)
    requires |b| >= 4
    ensures r.fs < 4
  {
    Word0Fields(b[0] >= 0x80, b[2] % 2 == 1, (b[3] / 0x10) % 4)
  }

  lemma Word0RoundTrip(addCap32b: bool, p: bool, fs: u64)
    requires fs < 4
    ensures ReadWord0(Word0(addCap32b, p, fs)) == Word0Fields(addCap32b, p, fs)
  {
  }

  // --------------------------------------------------------------------- MFPA

  datatype MFPA = MFPA(
    addCap32b: bool, p: bool, fs: u64,
    bootAddress: u32,
    wip: bool, bulk32kbEraseEn: bool, bulk64kbEraseEn: bool,
    sectorWrpEn: bool, subSectorWrpEn: bool,
    flashNum: u64,
    jedecId: u32,
    blockSize: u64, blockAlignment: u64,
    sectorSize: u64,
    capabilityMask: u32)

  predicate MfpaInRange(r: MFPA) {
    && r.fs < 4 && r.flashNum < 0x10 && r.jedecId < 0x100_0000
    && r.blockSize < 0x100 && r.blockAlignment < 0x100 && r.sectorSize < 0x400
  }

  const MFPA_LEN: nat := 0x20

  /** `size()` of MFPA. */
  const MFPA_SIZE: nat := 0x20

  /** Byte 16: wip, bulk_32kb_erase_en and bulk_64kb_erase_en at bits 7, 6 and 5. */
  function EraseByte(r: MFPA): byte {
    Bit(r.wip, 0x80) + Bit(r.bulk32kbEraseEn, 0x40) + Bit(r.bulk64kbEraseEn, 0x20)
  }

  /** Byte 17: sector_wrp_en and sub_sector_wrp_en at bits 1 and 0. */
  function ProtectByte(r: MFPA): byte {
    Bit(r.sectorWrpEn, 0x02) + Bit(r.subSectorWrpEn, 0x01)
  }

  /** Bytes 0..16: the first word, boot_address at 4..8, eight padding bytes. */
  function MfpaHead(r: MFPA): (b: seq<byte>)
    ensures |b| == 16
  {
    Word0(r.addCap32b, r.p, r.fs) + BE32(r.bootAddress) + Zeros(8)
  }

  /**
   * Bytes 16..32: the flag bytes 16 and 17, flash_num in the low nibble of
   * byte 19, a padding byte, jedec_id at 21..24, block_size and
   * block_alignment at 24 and 25, sector_size in the low 10 bits of 26..28,
   * capability_mask at 28..32.
   */
  function MfpaTail(r: MFPA): (b: seq<byte>)
    ensures |b| == 16
  {
    [EraseByte(r), ProtectByte(r), 0, r.flashNum % 0x10]
      + [0] + BE24(r.jedecId % 0x100_0000)
      + [r.blockSize % 0x100, r.blockAlignment % 0x100] + BE16(r.sectorSize % 0x400)
      + BE32(r.capabilityMask)
  }

  function EncodeMfpa(r: MFPA): (b: seq<byte>)
    ensures |b| == MFPA_LEN
  {
    MfpaHead(r) + MfpaTail(r)
  }

  datatype MfpaHeadFields = MfpaHeadFields(w: Word0Fields, bootAddress: u32)

  datatype MfpaTailFields = MfpaTailFields(
    wip: bool, bulk32kbEraseEn: bool, bulk64kbEraseEn: bool,
    sectorWrpEn: bool, subSectorWrpEn: bool,
    flashNum: u64, jedecId: u32, blockSize: u64, blockAlignment: u64,
    sectorSize: u64, capabilityMask: u32)

  function ReadMfpaHead(b: seq<byte>): (h: MfpaHeadFields)
    requires |b| >= 16
  {
    MfpaHeadFields(ReadWord0(b), FromBE32(b[4..8]))
  }

  function ReadMfpaTail(b: seq<byte>): (t: MfpaTailFields)
    requires |b| >= 16
    ensures t.flashNum < 0x10 && t.jedecId < 0x100_0000 && t.blockSize < 0x100
    ensures t.blockAlignment < 0x100 && t.sectorSize < 0x400
  {
    MfpaTailFields(
      b[0] >= 0x80, b[0] % 0x80 >= 0x40, b[0] % 0x40 >= 0x20,
      b[1] % 4 >= 2, b[1] % 2 == 1,
      b[3] % 0x10,
      FromBE24(b[5..8]),
      b[8], b[9], FromBE16(b[10..12]) % 0x400,
      FromBE32(b[12..16]))
  }

  function DecodeMfpa(b: seq<byte>): (r: Option<MFPA>)
    ensures r.Some? <==> |b| >= MFPA_LEN
    ensures r.Some? ==> MfpaInRange(r.value)
  {
    if |b| < MFPA_LEN then None
    else
      var h := ReadMfpaHead(b);
      var t := ReadMfpaTail(b[16..]);
      Some(MFPA(h.w.addCap32b, h.w.p, h.w.fs, h.bootAddress,
                t.wip, t.bulk32kbEraseEn, t.bulk64kbEraseEn, t.sectorWrpEn, t.subSectorWrpEn,
                t.flashNum, t.jedecId, t.blockSize, t.blockAlignment, t.sectorSize, t.capabilityMask))
  }

  /** The flags of bytes 16 and 17 read back. */
  lemma FlagBytesFields(r: MFPA)
    ensures EraseByte(r) >= 0x80 <==> r.wip
    ensures EraseByte(r) % 0x80 >= 0x40 <==> r.bulk32kbEraseEn
    ensures EraseByte(r) % 0x40 >= 0x20 <==> r.bulk64kbEraseEn
    ensures ProtectByte(r) % 4 >= 2 <==> r.sectorWrpEn
    ensures ProtectByte(r) % 2 == 1 <==> r.subSectorWrpEn
  {
  }

  lemma {:induction false} MfpaHeadRoundTrip(r: MFPA, rest: seq<byte>)
    requires r.fs < 4
    ensures ReadMfpaHead(MfpaHead(r) + rest) == MfpaHeadFields(Word0Fields(r.addCap32b, r.p, r.fs), r.bootAddress)
  {
    var b := MfpaHead(r) + rest;
    assert b[..4] == Word0(r.addCap32b, r.p, r.fs);
    Word0RoundTrip(r.addCap32b, r.p, r.fs);
    assert ReadWord0(b) == ReadWord0(b[..4]);
    assert b[4..8] == BE32(r.bootAddress);
    BE32Inverse(r.bootAddress);
  }

  lemma {:induction false} MfpaTailRoundTrip(r: MFPA, rest: seq<byte>)
    requires MfpaInRange(r)
    ensures ReadMfpaTail(MfpaTail(r) + rest)
         == MfpaTailFields(r.wip, r.bulk32kbEraseEn, r.bulk64kbEraseEn, r.sectorWrpEn, r.subSectorWrpEn,
                           r.flashNum, r.jedecId, r.blockSize, r.blockAlignment, r.sectorSize, r.capabilityMask)
  {
    var b := MfpaTail(r) + rest;
    assert b[0] == EraseByte(r) && b[1] == ProtectByte(r) && b[3] == r.flashNum;
    FlagBytesFields(r);
    assert b[8] == r.blockSize && b[9] == r.blockAlignment;
    assert FromBE24(b[5..8]) == r.jedecId by {
      assert b[5..8] == BE24(r.jedecId);
      BE24Inverse(r.jedecId);
    }
    assert FromBE16(b[10..12]) % 0x400 == r.sectorSize by {
      assert b[10..12] == BE16(r.sectorSize);
      BE16Inverse(r.sectorSize);
    }
    assert FromBE32(b[12..16]) == r.capabilityMask by {
      assert b[12..16] == BE32(r.capabilityMask);
      BE32Inverse(r.capabilityMask);
    }
  }

  lemma {:induction false} MfpaRoundTrip(r: MFPA, rest: seq<byte>)
    requires MfpaInRange(r)
    ensures DecodeMfpa(EncodeMfpa(r) + rest) == Some(r)
  {
    var b := EncodeMfpa(r) + rest;
    assert b == MfpaHead(r) + (MfpaTail(r) + rest);
    assert b[16..] == MfpaTail(r) + rest;
    MfpaHeadRoundTrip(r, MfpaTail(r) + rest);
    MfpaTailRoundTrip(r, rest);
  }

  /** The record with each narrow field cut to its declared width. */
  function Truncated(r: MFPA): MFPA {
    r.(fs := r.fs % 4, flashNum := r.flashNum % 0x10, jedecId := r.jedecId % 0x100_0000,
       blockSize := r.blockSize % 0x100, blockAlignment := r.blockAlignment % 0x100,
       sectorSize := r.sectorSize % 0x400)
  }

  /** Only the declared low bits of the narrow fields are written. */
  lemma MfpaTruncates(r: MFPA)
    ensures EncodeMfpa(r) == EncodeMfpa(Truncated(r))
  {
    HeadTruncates(r);
    TailTruncates(r);
  }

  lemma HeadTruncates(r: MFPA)
    ensures MfpaHead(r) == MfpaHead(Truncated(r))
  {
    var d := Truncated(r);
    assert Word0(r.addCap32b, r.p, r.fs) == Word0(d.addCap32b, d.p, d.fs);
  }

  lemma TailTruncates(r: MFPA)
    ensures MfpaTail(r) == MfpaTail(Truncated(r))
  {
    var d := Truncated(r);
    assert EraseByte(r) == EraseByte(d) && ProtectByte(r) == ProtectByte(d);
    assert d.flashNum % 0x10 == r.flashNum % 0x10;
    assert BE24(d.jedecId % 0x100_0000) == BE24(r.jedecId % 0x100_0000);
    assert d.blockSize % 0x100 == r.blockSize % 0x100 && d.blockAlignment % 0x100 == r.blockAlignment % 0x100;
    assert BE16(d.sectorSize % 0x400) == BE16(r.sectorSize % 0x400);
  }

  /** The derived default: every field false or zero. */
  const DEFAULT_MFPA: MFPA := MFPA(false, false, 0, 0, false, false, false, false, false, 0, 0, 0, 0, 0, 0)

  /** A record whose every field is false or zero encodes to 32 zero bytes. */
  lemma {:induction false} ZeroMfpaIsZero(r: MFPA)
    requires !r.addCap32b && !r.p && r.fs == 0 && r.bootAddress == 0
    requires !r.wip && !r.bulk32kbEraseEn && !r.bulk64kbEraseEn && !r.sectorWrpEn && !r.subSectorWrpEn
    requires r.flashNum == 0 && r.jedecId == 0 && r.blockSize == 0 && r.blockAlignment == 0
    requires r.sectorSize == 0 && r.capabilityMask == 0
    ensures EncodeMfpa(r) == Zeros(MFPA_LEN)
  {
    assert MfpaHead(r) == Zeros(16) by {
      assert Word0(false, false, 0) == Zeros(4);
      assert BE32(0) == Zeros(4);
      ZerosAppend(4, 4);
      ZerosAppend(8, 8);
    }
    assert MfpaTail(r) == Zeros(16) by {
      assert [EraseByte(r), ProtectByte(r), 0, r.flashNum % 0x10] == Zeros(4);
      assert [0] + BE24(0) == Zeros(4);
      assert [r.blockSize % 0x100, r.blockAlignment % 0x100] + BE16(0) == Zeros(4);
      assert BE32(0) == Zeros(4);
      ZerosAppend(4, 4);
      ZerosAppend(8, 4);
      ZerosAppend(12, 4);
    }
    ZerosAppend(16, 16);
  }

  lemma DefaultMfpaIsZero()
    ensures EncodeMfpa(DEFAULT_MFPA) == Zeros(MFPA_LEN)
  {
    ZeroMfpaIsZero(DEFAULT_MFPA);
  }

  // --------------------------------------------------------------------- MFBA

  type Block = s: seq<byte> | |s| == 0x40 witness Zeros(0x40)

  datatype MFBA = MFBA(addCap32b: bool, p: bool, fs: u64, size: u64, address: u64, data: Block)

  predicate MfbaInRange(r: MFBA) {
    r.fs < 4 && r.size < 0x200 && r.address < 0x1_0000_0000
  }

  const MFBA_LEN: nat := 76

  /** `size()` of MFBA: 0x10c, not the 76 bytes the record encodes to. */
  const MFBA_SIZE: nat := 0x10c

  /** The first word, size in the low 9 bits of 4..8, address at 8..12, the 64 data bytes at 12..76. */
  function EncodeMfba(r: MFBA): (b: seq<byte>)
    ensures |b| == MFBA_LEN
  {
    Word0(r.addCap32b, r.p, r.fs) + BE32(r.size % 0x200) + BE32(r.address % 0x1_0000_0000) + r.data
  }

  function DecodeMfba(b: seq<byte>): (r: Option<MFBA>)
    ensures r.Some? <==> |b| >= MFBA_LEN
    ensures r.Some? ==> MfbaInRange(r.value) && r.value.data == b[12..76]
  {
    if |b| < MFBA_LEN then None
    else
      var w := ReadWord0(b);
      Some(MFBA(w.addCap32b, w.p, w.fs, FromBE32(b[4..8]) % 0x200, FromBE32(b[8..12]), b[12..76]))
  }

  lemma {:induction false} MfbaRoundTrip(r: MFBA, rest: seq<byte>)
    requires MfbaInRange(r)
    ensures DecodeMfba(EncodeMfba(r) + rest) == Some(r)
  {
    var b := EncodeMfba(r) + rest;
    assert b[..4] == Word0(r.addCap32b, r.p, r.fs);
    Word0RoundTrip(r.addCap32b, r.p, r.fs);
    assert ReadWord0(b) == ReadWord0(b[..4]);
    assert b[4..8] == BE32(r.size);
    assert b[8..12] == BE32(r.address);
    assert b[12..76] == r.data;
    BE32Inverse(r.size);
    BE32Inverse(r.address);
  }

  lemma MfbaTruncates(r: MFBA)
    ensures EncodeMfba(r) == EncodeMfba(r.(fs := r.fs % 4, size := r.size % 0x200, address := r.address % 0x1_0000_0000))
  {
    assert (r.size % 0x200) % 0x200 == r.size % 0x200;
    assert (r.address % 0x1_0000_0000) % 0x1_0000_0000 == r.address % 0x1_0000_0000;
  }

  /** `MFBA::default()`: everything zero, 64 zero data bytes. */
  const DEFAULT_MFBA: MFBA := MFBA(false, false, 0, 0, 0, Zeros(0x40))

  lemma DefaultMfbaIsZero()
    ensures EncodeMfba(DEFAULT_MFBA) == Zeros(MFBA_LEN)
  {
    assert BE32(0) == Zeros(4);
  }

  /** `size()` is the encoded length of MFPA, and 0x10c against 76 bytes for MFBA. */
  lemma SizesVersusLengths(a: MFPA, b: MFBA)
    ensures |EncodeMfpa(a)| == MFPA_SIZE
    ensures |EncodeMfba(b)| == MFBA_LEN < MFBA_SIZE
  {
  }
}
