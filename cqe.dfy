/**
 * The command queue entry (src/cqe.rs): a 64-byte record in DMA memory
 * through which the driver hands one command to the device.
 *
 * Register writes in the driver store `value.to_be()` through a
 * little-endian register accessor, so on the little-endian hosts the
 * driver runs on every 32-bit field lands in memory big-endian.
 */
module Cqe {
  import opened Bytes
  import Memory

  const CQE_LEN: nat := 0x40

  const CMD_TYPE: nat := 0x00
  const INPUT_LENGTH: nat := 0x04
  const INPUT_MB_PTR_HI: nat := 0x08
  const INPUT_MB_PTR_LO: nat := 0x0c
  const CMD_INPUT_INLINE: nat := 0x10
  const CMD_OUTPUT_INLINE: nat := 0x20
  const OUTPUT_MB_PTR_HI: nat := 0x30
  const OUTPUT_MB_PTR_LO: nat := 0x34
  const OUTPUT_LENGTH: nat := 0x38
  const TOKEN: nat := 0x3c
  const SIGNATURE: nat := 0x3d
  const STATUS: nat := 0x3f

  /** A field of the entry: its byte offset and its width in bytes. */
  datatype Field = Field(at: nat, width: nat)

  /** The declared fields in the order of their offsets; the four inline words of each direction are listed one by one. */
  const FIELDS: seq<Field> := [
    Field(CMD_TYPE, 1),
    Field(INPUT_LENGTH, 4),
    Field(INPUT_MB_PTR_HI, 4),
    Field(INPUT_MB_PTR_LO, 4),
    Field(0x10, 4), Field(0x14, 4), Field(0x18, 4), Field(0x1c, 4),
    Field(0x20, 4), Field(0x24, 4), Field(0x28, 4), Field(0x2c, 4),
    Field(OUTPUT_MB_PTR_HI, 4),
    Field(OUTPUT_MB_PTR_LO, 4),
    Field(OUTPUT_LENGTH, 4),
    Field(TOKEN, 1),
    Field(SIGNATURE, 1),
    Field(STATUS, 1)
  ]

  /** Every field lies inside the 0x40 bytes and ends before the next one starts. */
  lemma FieldsLayout()
    ensures |FIELDS| == 18
    ensures forall i :: 0 <= i < |FIELDS| ==> FIELDS[i].at + FIELDS[i].width <= CQE_LEN
    ensures forall i :: 0 <= i < |FIELDS| - 1 ==> FIELDS[i].at + FIELDS[i].width <= FIELDS[i + 1].at
  {
  }

  /** Fields in offset order that do not touch their successors do not touch any later one either. */
  lemma {:induction false} FieldsDisjoint(i: nat, j: nat)
    requires i < j < |FIELDS|
    ensures FIELDS[i].at + FIELDS[i].width <= FIELDS[j].at
    decreases j - i
  {
    FieldsLayout();
    if i + 1 < j {
      FieldsDisjoint(i + 1, j);
    }
  }

  /**
   * `update_signature` on the entry's bytes: the signature byte is zeroed,
   * the XOR of 0xff and all 64 bytes is taken and stored at 0x3d.
   */
  function SignEntry(b: seq<byte>): (r: seq<byte>)
    requires |b| == CQE_LEN
    ensures |r| == CQE_LEN
  {
    var z := b[SIGNATURE := 0];
    z[SIGNATURE := XorFold(0xff, z)]
  }

  predicate SignedEntry(b: seq<byte>) {
    |b| == CQE_LEN && XorFold(0xff, b) == 0
  }

  /** Signing changes byte 0x3d only, and afterwards 0xff XOR all 64 bytes is zero. */
  lemma SignEntrySigned(b: seq<byte>)
    requires |b| == CQE_LEN
    ensures SignedEntry(SignEntry(b))
    ensures forall j :: 0 <= j < CQE_LEN && j != SIGNATURE ==> SignEntry(b)[j] == b[j]
  {
    SignatureSelfConsistent(b[SIGNATURE := 0], SIGNATURE);
  }

  /** Signing twice leaves the same 64 bytes as signing once. */
  lemma SignEntryIdempotent(b: seq<byte>)
    requires |b| == CQE_LEN
    ensures SignEntry(SignEntry(b)) == SignEntry(b)
  {
    assert SignEntry(b)[SIGNATURE := 0] == b[SIGNATURE := 0];
  }

  /** The entry: a view of 0x40 bytes at `offset` in the DMA memory. */
  class Entry {
    const mem: array<byte>
    const offset: nat

    constructor (mem: array<byte>, offset: nat)
      ensures this.mem == mem && this.offset == offset
    {
      this.mem := mem;
      this.offset := offset;
    }

    predicate Valid() {
      offset + CQE_LEN <= mem.Length
    }

    function Image(): (r: seq<byte>)
      requires Valid()
      reads mem
      ensures |r| == CQE_LEN
    {
      mem[offset..offset + CQE_LEN]
    }

    /** A one-byte register, or `write_u8`, at entry byte `at`. */
    method WriteU8(at: nat, v: byte)
      requires Valid() && at < CQE_LEN
      modifies mem
      ensures mem[..] == Overwrite(old(mem[..]), offset + at, [v])
      ensures Image() == Overwrite(old(Image()), at, [v])
    {
      OverwriteSliceInside(mem[..], offset, CQE_LEN, offset + at, [v]);
      Memory.Write(mem, offset + at, [v]);
    }

    /** A 32-bit register written with `v.to_be()`: the big-endian image of `v` at entry byte `at`. */
    method WriteU32(at: nat, v: u32)
      requires Valid() && at + 4 <= CQE_LEN
      modifies mem
      ensures mem[..] == Overwrite(old(mem[..]), offset + at, BE32(v))
      ensures Image() == Overwrite(old(Image()), at, BE32(v))
    {
      OverwriteSliceInside(mem[..], offset, CQE_LEN, offset + at, BE32(v));
      Memory.Write(mem, offset + at, BE32(v));
    }

    method ReadU8(at: nat) returns (v: byte)
      requires Valid() && at < CQE_LEN
      ensures v == Image()[at]
    {
      v := mem[offset + at];
    }

    /** Stores `ptr >> 32` at 0x08 and `ptr & 0xffffffff` at 0x0c, big-endian. */
    method SetInputMb(ptr: u64)
      requires Valid()
      modifies mem
      ensures mem[..] == Overwrite(old(mem[..]), offset + INPUT_MB_PTR_HI, BE64(ptr))
      ensures Image() == Overwrite(old(Image()), INPUT_MB_PTR_HI, BE64(ptr))
    {
      OverwriteSliceInside(mem[..], offset, CQE_LEN, offset + INPUT_MB_PTR_HI, BE64(ptr));
      OverwriteAdjacent(mem[..], offset + INPUT_MB_PTR_HI, BE32(Hi32(ptr)), BE32(Lo32(ptr)));
      WriteU32(INPUT_MB_PTR_HI, Hi32(ptr));
      WriteU32(INPUT_MB_PTR_LO, Lo32(ptr));
    }

    /** Stores `ptr >> 32` at 0x30 and `ptr & 0xffffffff` at 0x34, big-endian. */
    method SetOutputMb(ptr: u64)
      requires Valid()
      modifies mem
      ensures mem[..] == Overwrite(old(mem[..]), offset + OUTPUT_MB_PTR_HI, BE64(ptr))
      ensures Image() == Overwrite(old(Image()), OUTPUT_MB_PTR_HI, BE64(ptr))
    {
      OverwriteSliceInside(mem[..], offset, CQE_LEN, offset + OUTPUT_MB_PTR_HI, BE64(ptr));
      OverwriteAdjacent(mem[..], offset + OUTPUT_MB_PTR_HI, BE32(Hi32(ptr)), BE32(Lo32(ptr)));
      WriteU32(OUTPUT_MB_PTR_HI, Hi32(ptr));
      WriteU32(OUTPUT_MB_PTR_LO, Lo32(ptr));
    }

    /**
     * Zeroes the signature byte, folds 0xff with all 64 bytes and stores
     * the result at 0x3d.  Afterwards the entry is `SignedEntry`, and only
     * byte 0x3d has changed.
     */
    method UpdateSignature()
      requires Valid()
      modifies mem
      ensures mem[..] == Overwrite(old(mem[..]), offset, SignEntry(old(Image())))
      ensures Image() == SignEntry(old(Image()))
      ensures SignedEntry(Image())
    {
      ghost var b := Image();
      mem[offset + SIGNATURE] := 0;
      var data := Memory.Read(mem, offset, CQE_LEN);
      assert data == b[SIGNATURE := 0];
      var signature := Memory.XorLoop(0xff, data);
      mem[offset + SIGNATURE] := signature;
      assert Image() == SignEntry(b);
      assert mem[..] == Overwrite(old(mem[..]), offset, SignEntry(b)) by {
        OverwriteAt(old(mem[..]), offset, SignEntry(b));
        forall j | 0 <= j < mem.Length
          ensures mem[j] == Overwrite(old(mem[..]), offset, SignEntry(b))[j]
        {
          if offset <= j < offset + CQE_LEN {
            assert mem[j] == Image()[j - offset];
          }
        }
      }
      SignEntrySigned(b);
    }
  }

  /** A pointer stored by `SetInputMb`/`SetOutputMb` reads back, word by word, as the pointer. */
  lemma PointerReassembles(m: seq<byte>, at: nat, ptr: u64)
    requires at + 8 <= |m|
    ensures var r := Overwrite(m, at, BE64(ptr));
      FromBE32(r[at..at + 4]) * 0x1_0000_0000 + FromBE32(r[at + 4..at + 8]) == ptr
  {
    var r := Overwrite(m, at, BE64(ptr));
    OverwriteAt(m, at, BE64(ptr));
    assert r[at..at + 4] == BE64(ptr)[..4] == BE32(Hi32(ptr));
    assert r[at + 4..at + 8] == BE64(ptr)[4..] == BE32(Lo32(ptr));
    BE32Inverse(Hi32(ptr));
    BE32Inverse(Lo32(ptr));
    Halves(ptr);
  }

  /** A pointer write leaves every byte outside its eight bytes as it was. */
  lemma PointerWriteLocal(m: seq<byte>, at: nat, ptr: u64, j: nat)
    requires at + 8 <= |m| && j < |m| && (j < at || at + 8 <= j)
    ensures Overwrite(m, at, BE64(ptr))[j] == m[j]
  {
    OverwriteAt(m, at, BE64(ptr));
  }
}
