/**
 * The VFIO transport of the command interface (src/cmdif/vfio.rs).
 *
 * One DMA region of 32768 pages at device address 0x1000_0000 is shared by
 * the command queue entry (one page of its own) and, per command, a fresh
 * 256-page scratch region holding the input and output mailbox chains.
 * The driver fills the entry, rings the doorbell in the init segment and
 * reads the reply back from the entry and the output chain.
 *
 * The device is one abstract step: `firmware(n, input)` is what it does
 * with the n-th command rung in, whose input bytes are `input`: an error
 * code and the reply bytes it writes.  On top
 * of the transport sit page negotiation (`handle_page_request`) and bring-up
 * (`initialize`), which keep the pages given to the device in a map from
 * device address to allocation guard.
 */
module VfioTransport {
  import opened Bytes
  import opened Errors
  import Memory
  import DmaAllocator
  import Cqe
  import Mailboxes
  import CmdIf
  import Types
  import QueryPagesCodec
  import ManagePagesCodec
  import HcaCodec
  import IssiCodec
  import QueryHcaCapCodec

  /** `iommu_map(.., 0x10000000, DMA_PAGES << 12)`: the region's device address and length. */
  const DMA_BASE: nat := 0x1000_0000
  const DMA_LEN: nat := 0x800_0000
  /** The allocator's unit, one page. */
  const PAGE_SIZE: nat := 0x1000
  /** Each command's scratch region: 256 pages, room for 0x400 mailbox slots. */
  const SCRATCH_PAGES: nat := 256
  const SCRATCH_LEN: nat := 0x10_0000

  /** Init segment registers (src/init.rs), by byte offset into BAR 0. */
  const INIT_SEGMENT_LEN: nat := 0x1000
  const CMDQ_PHY_ADDR_HI: nat := 0x10
  const CMDQ_PHY_ADDR_LO: nat := 0x14
  const CMDQ_DOORBELL: nat := 0x18

  // ---------------------------------------------------------------------
  // The device

  /** The error code the device reports in bits 7..1 of the status byte. */
  type ErrorCode = c: nat | c < 0x80

  /**
   * What the device does with one command: it writes `data` as the reply
   * (the first 16 bytes into the entry, the rest 0x200 bytes per output
   * block) and then the status byte `code << 1`, whose clear low bit hands
   * the entry back to the driver.
   */
  datatype Completion = Completion(code: ErrorCode, data: seq<byte>)

  /** The reply bytes the device writes for an output chain of `k` blocks. */
  function Reply(c: Completion, k: nat): (r: seq<byte>)
    ensures |r| == 0x10 + 0x200 * k
  {
    Resize(c.data, 0x10 + 0x200 * k)
  }

  /** The part of a reply that goes to output block `i`. */
  function Piece(r: seq<byte>, i: nat): (p: seq<byte>)
    requires 0x10 + 0x200 * (i + 1) <= |r|
    ensures |p| == 0x200
  {
    r[0x10 + 0x200 * i..0x10 + 0x200 * (i + 1)]
  }

  /** What `exec_command` returns once the device has completed the command. */
  function Completed(c: Completion, outlen: nat): (r: Result<seq<byte>>)
    ensures r.Ok? <==> c.code == 0
    ensures r.Err? ==> r.error == CmdIf(c.code)
  {
    if c.code != 0 then Err(CmdIf(c.code)) else Ok(Resize(c.data, outlen))
  }

  /** Both chains fit the 0x400 slots of the scratch region. */
  predicate ChainsFit(inputLen: nat, outlen: nat) {
    inputLen >= 0x10 && Mailboxes.NumChunks(inputLen - 0x10) + Mailboxes.NumChunks(outlen) <= 0x400
  }

  // ---------------------------------------------------------------------
  // The entry as submitted

  /** The input chain's address in the entry: the first block's, or 0 when all input is inline. */
  function InPointer(inputLen: nat, scratch: u64): u64 {
    if inputLen <= 0x10 then 0 else scratch
  }

  /** The output chain's address: the slot after the input blocks, or 0 for an empty chain. */
  function OutPointer(inputLen: nat, outlen: nat, scratch: nat): (p: u64)
    requires ChainsFit(inputLen, outlen) && scratch + SCRATCH_LEN <= 0x1_0000_0000_0000_0000
  {
    if outlen == 0 then 0
    else
      NonEmptyChain(outlen);
      scratch + 0x400 * Mailboxes.NumChunks(inputLen - 0x10)
  }

  lemma NonEmptyChain(n: nat)
    requires n > 0
    ensures Mailboxes.NumChunks(n) >= 1
  {
  }

  /** The chain for `n` bytes has room for all of them. */
  lemma ChainCovers(n: nat)
    ensures 0x200 * Mailboxes.NumChunks(n) >= n
  {
  }

  /**
   * The 64 bytes `exec_command` leaves in the entry before signing it,
   * starting from the stale entry `e`: command type 7, the input length,
   * the input pointer, the first 16 input bytes, 16 zero output bytes, the
   * output pointer, the output length, token 0 and status 1 (owned by the
   * device).  Bytes 1..4 and the signature and reserved bytes keep their
   * stale values.
   */
  function Request(e: seq<byte>, input16: seq<byte>, inLen: u32, inPtr: u64, outPtr: u64, outlen: u32): (r: seq<byte>)
    requires |e| == Cqe.CQE_LEN && |input16| == 0x10
    ensures |r| == Cqe.CQE_LEN
  {
    [7] + e[1..4] + BE32(inLen) + BE64(inPtr) + input16 + Zeros(16)
      + BE64(outPtr) + BE32(outlen) + [0] + e[0x3d..0x3f] + [1]
  }

  /** The fields of a submitted request read back at their offsets. */
  lemma RequestFields(e: seq<byte>, input16: seq<byte>, inLen: u32, inPtr: u64, outPtr: u64, outlen: u32)
    requires |e| == Cqe.CQE_LEN && |input16| == 0x10
    ensures var r := Request(e, input16, inLen, inPtr, outPtr, outlen);
      && r[Cqe.CMD_TYPE] == 7
      && FromBE32(r[4..8]) == inLen
      && FromBE64(r[8..16]) == inPtr
      && r[0x10..0x20] == input16
      && r[0x20..0x30] == Zeros(16)
      && FromBE64(r[0x30..0x38]) == outPtr
      && FromBE32(r[0x38..0x3c]) == outlen
      && r[Cqe.TOKEN] == 0
      && r[Cqe.STATUS] == 1
  {
    var r := Request(e, input16, inLen, inPtr, outPtr, outlen);
    assert r[4..8] == BE32(inLen);
    assert r[8..16] == BE64(inPtr);
    assert r[0x30..0x38] == BE64(outPtr);
    assert r[0x38..0x3c] == BE32(outlen);
    BE32Inverse(inLen);
    BE32Inverse(outlen);
    BE64Inverse(inPtr);
    BE64Inverse(outPtr);
  }

  /**
   * The entry after its first four writes: command type 7, both chain
   * pointers cleared, the input length.
   */
  function HeadImage(e: seq<byte>, inLen: u32): (r: seq<byte>)
    requires |e| == Cqe.CQE_LEN
    ensures |r| == Cqe.CQE_LEN
  {
    [7] + e[1..4] + BE32(inLen) + Zeros(8) + e[0x10..0x30] + Zeros(8) + e[0x38..]
  }

  /** The entry once the input half is written: the inline input and the input pointer too. */
  function InputHalf(e: seq<byte>, input16: seq<byte>, inLen: u32, inPtr: u64): (r: seq<byte>)
    requires |e| == Cqe.CQE_LEN && |input16| == 0x10
    ensures |r| == Cqe.CQE_LEN
  {
    [7] + e[1..4] + BE32(inLen) + BE64(inPtr) + input16 + e[0x20..0x30] + Zeros(8) + e[0x38..]
  }

  /** The output half written over `e`: zeroed inline output, output pointer and length, token, status. */
  function OutputHalf(e: seq<byte>, outPtr: u64, outlen: u32): (r: seq<byte>)
    requires |e| == Cqe.CQE_LEN
    ensures |r| == Cqe.CQE_LEN
  {
    e[..0x20] + Zeros(16) + BE64(outPtr) + BE32(outlen) + [0] + e[0x3d..0x3f] + [1]
  }

  lemma {:induction false} HeadWrites(e0: seq<byte>, inLen: u32, e1: seq<byte>, e2: seq<byte>, e3: seq<byte>, e4: seq<byte>)
    requires |e0| == Cqe.CQE_LEN
    requires e1 == Overwrite(e0, Cqe.CMD_TYPE, [7])
    requires e2 == Overwrite(e1, Cqe.INPUT_MB_PTR_HI, BE64(0))
    requires e3 == Overwrite(e2, Cqe.OUTPUT_MB_PTR_HI, BE64(0))
    requires e4 == Overwrite(e3, Cqe.INPUT_LENGTH, BE32(inLen))
    ensures e4 == HeadImage(e0, inLen)
  {
    OverwriteAt(e0, 0, [7]);
    OverwriteAt(e1, 8, BE64(0));
    OverwriteAt(e2, 0x30, BE64(0));
    OverwriteAt(e3, 4, BE32(inLen));
    assert BE64(0) == Zeros(8);
    var r := HeadImage(e0, inLen);
    forall j | 0 <= j < 0x40
      ensures e4[j] == r[j]
    {
    }
  }

  /**
   * The inline input and, for a non-empty input chain, its pointer written
   * over the head give the input half; an input pointer left at zero is
   * the zero the head wrote.
   */
  lemma {:induction false} InputWrites(e0: seq<byte>, input16: seq<byte>, inLen: u32, inPtr: u64, e5: seq<byte>, e6: seq<byte>)
    requires |e0| == Cqe.CQE_LEN && |input16| == 0x10
    requires e5 == Overwrite(HeadImage(e0, inLen), Cqe.CMD_INPUT_INLINE, input16)
    requires e6 == Overwrite(e5, Cqe.INPUT_MB_PTR_HI, BE64(inPtr)) || (inPtr == 0 && e6 == e5)
    ensures e6 == InputHalf(e0, input16, inLen, inPtr)
  {
    var h := HeadImage(e0, inLen);
    OverwriteAt(h, 0x10, input16);
    OverwriteAt(e5, 8, BE64(inPtr));
    assert BE64(0) == Zeros(8);
    var r := InputHalf(e0, input16, inLen, inPtr);
    forall j | 0 <= j < 0x40
      ensures e6[j] == r[j]
    {
    }
  }

  /** The output half's writes, in `exec_command`'s order, give `OutputHalf`. */
  lemma {:induction false} OutputWrites(e6: seq<byte>, outPtr: u64, outlen: u32,
                                        e7: seq<byte>, e8: seq<byte>, e9: seq<byte>, e10: seq<byte>, e11: seq<byte>)
    requires |e6| == Cqe.CQE_LEN && e6[0x30..0x38] == Zeros(8)
    requires e7 == Overwrite(e6, Cqe.OUTPUT_LENGTH, BE32(outlen))
    requires e8 == Overwrite(e7, Cqe.CMD_OUTPUT_INLINE, Zeros(16))
    requires e9 == Overwrite(e8, Cqe.OUTPUT_MB_PTR_HI, BE64(outPtr)) || (outPtr == 0 && e9 == e8)
    requires e10 == Overwrite(e9, Cqe.TOKEN, [0])
    requires e11 == Overwrite(e10, Cqe.STATUS, [1])
    ensures e11 == OutputHalf(e6, outPtr, outlen)
  {
    OverwriteAt(e6, 0x38, BE32(outlen));
    OverwriteAt(e7, 0x20, Zeros(16));
    OverwriteAt(e8, 0x30, BE64(outPtr));
    OverwriteAt(e9, 0x3c, [0]);
    OverwriteAt(e10, 0x3f, [1]);
    assert BE64(0) == Zeros(8);
    var r := OutputHalf(e6, outPtr, outlen);
    forall j | 0 <= j < 0x40
      ensures e11[j] == r[j]
    {
      if 0x30 <= j < 0x38 {
        assert e6[j] == e6[0x30..0x38][j - 0x30];
      }
    }
  }

  /** The two halves together are the request. */
  lemma HalvesRequest(e: seq<byte>, input16: seq<byte>, inLen: u32, inPtr: u64, outPtr: u64, outlen: u32)
    requires |e| == Cqe.CQE_LEN && |input16| == 0x10
    ensures InputHalf(e, input16, inLen, inPtr)[0x30..0x38] == Zeros(8)
    ensures OutputHalf(InputHalf(e, input16, inLen, inPtr), outPtr, outlen) == Request(e, input16, inLen, inPtr, outPtr, outlen)
  {
    var h := InputHalf(e, input16, inLen, inPtr);
    assert h[..0x20] == [7] + e[1..4] + BE32(inLen) + BE64(inPtr) + input16;
    assert h[0x3d..0x3f] == e[0x3d..0x3f];
    assert h[0x30..0x38] == Zeros(8);
  }

  /** Writes confined to the entry keep whatever a range around it kept. */
  lemma EntryKeeps(a: seq<byte>, m0: seq<byte>, m: seq<byte>, e: nat, lo: nat, hi: nat)
    requires Keeps(a, m0, e, lo, hi) && e + Cqe.CQE_LEN <= |m0| == |m|
    requires m == Overwrite(m0, e, m[e..e + Cqe.CQE_LEN])
    ensures Keeps(a, m, e, lo, hi)
  {
    OverwriteAt(m0, e, m[e..e + Cqe.CQE_LEN]);
  }

  // ---------------------------------------------------------------------
  // Where a command writes

  /** `b` equals `a` outside the 64-byte entry at `e` and outside `lo .. hi`. */
  ghost predicate Keeps(a: seq<byte>, b: seq<byte>, e: nat, lo: nat, hi: nat) {
    |a| == |b| && forall j :: 0 <= j < |a| && !(e <= j < e + Cqe.CQE_LEN) && !(lo <= j < hi) ==> b[j] == a[j]
  }

  /** Keeping to a range keeps to any range around it. */
  lemma KeepsWiden(a: seq<byte>, b: seq<byte>, e: nat, lo: nat, hi: nat, lo2: nat, hi2: nat)
    requires Keeps(a, b, e, lo2, hi2) && lo <= lo2 && hi2 <= hi
    ensures Keeps(a, b, e, lo, hi)
  {
  }

  /** Keeping to a range inside `lo .. hi` after keeping to `lo .. hi` keeps to `lo .. hi`. */
  lemma KeepsTrans(a: seq<byte>, b: seq<byte>, c: seq<byte>, e: nat, lo: nat, hi: nat, lo2: nat, hi2: nat)
    requires Keeps(a, b, e, lo, hi) && Keeps(b, c, e, lo2, hi2) && lo <= lo2 && hi2 <= hi
    ensures Keeps(a, c, e, lo, hi)
  {
  }

  /** A write inside the entry or inside `lo .. hi` keeps everything else. */
  lemma KeepsWrite(a: seq<byte>, m: seq<byte>, m2: seq<byte>, at: nat, w: seq<byte>, e: nat, lo: nat, hi: nat)
    requires Keeps(a, m, e, lo, hi) && at + |w| <= |m|
    requires (e <= at && at + |w| <= e + Cqe.CQE_LEN) || (lo <= at && at + |w| <= hi)
    requires m2 == Overwrite(m, at, w)
    ensures Keeps(a, m2, e, lo, hi)
  {
    OverwriteAt(m, at, w);
  }

  /** Building a chain of `k` blocks from index `s0` on keeps everything outside `s0 .. s0 + 0x400 * k`. */
  lemma BuiltKeeps(a: seq<byte>, m: seq<byte>, s0: nat, a0: nat, token: byte, chunks: seq<seq<byte>>, e: nat, lo: nat, hi: nat)
    requires Mailboxes.ShortChunks(chunks) && (|chunks| == 0 || Mailboxes.ChainFits(|m|, s0, a0, |chunks|))
    requires Keeps(a, m, e, lo, hi) && lo <= s0 && s0 + 0x400 * |chunks| <= hi
    ensures Keeps(a, Mailboxes.Built(m, s0, a0, token, chunks), e, lo, hi)
  {
    Mailboxes.BuiltShape(m, s0, a0, token, chunks);
  }

  /** The same build leaves an entry outside the chain's slots as it was. */
  lemma BuiltKeepsEntry(m: seq<byte>, s0: nat, a0: nat, token: byte, chunks: seq<seq<byte>>, e: nat)
    requires Mailboxes.ShortChunks(chunks) && (|chunks| == 0 || Mailboxes.ChainFits(|m|, s0, a0, |chunks|))
    requires e + Cqe.CQE_LEN <= |m| && (e + Cqe.CQE_LEN <= s0 || s0 + 0x400 * |chunks| <= e)
    ensures Mailboxes.Built(m, s0, a0, token, chunks)[e..e + Cqe.CQE_LEN] == m[e..e + Cqe.CQE_LEN]
  {
    Mailboxes.BuiltShape(m, s0, a0, token, chunks);
    var b := Mailboxes.Built(m, s0, a0, token, chunks);
    forall j | e <= j < e + Cqe.CQE_LEN
      ensures b[j] == m[j]
    {
      assert Mailboxes.OutsideBlocks(s0, |chunks|, j);
    }
  }

  /** A slice of the entry is the same slice of memory. */
  lemma EntrySlice(m: seq<byte>, e: nat, at: nat, n: nat)
    requires e + Cqe.CQE_LEN <= |m| && at + n <= Cqe.CQE_LEN
    ensures m[e..e + Cqe.CQE_LEN][at..at + n] == m[e + at..e + at + n]
  {
    var x := m[e..e + Cqe.CQE_LEN][at..at + n];
    forall j | 0 <= j < n
      ensures x[j] == m[e + at + j]
    {
      assert x[j] == m[e..e + Cqe.CQE_LEN][at + j];
    }
  }

  /**
   * The device's writes so far, from memory `m0` to `m`: the inline reply
   * bytes in the entry at `e` and the pieces of the first `i` of `k` output
   * blocks, nothing outside the entry and the chain.
   */
  ghost predicate Wrote(m0: seq<byte>, m: seq<byte>, e: nat, s1: nat, k: nat, reply: seq<byte>, i: nat) {
    && e + Cqe.CQE_LEN <= |m| && s1 + 0x400 * k <= |m| && |reply| == 0x10 + 0x200 * k && i <= k
    && (e + Cqe.CQE_LEN <= s1 || s1 + 0x400 * k <= e)
    && Keeps(m0, m, e, s1, s1 + 0x400 * k)
    && m[e + 0x20..e + 0x30] == reply[..0x10]
    && forall j :: 0 <= j < i ==> BlockData(m, s1, j) == Piece(reply, j)
  }

  lemma WroteInline(m0: seq<byte>, e: nat, s1: nat, k: nat, reply: seq<byte>)
    requires e + Cqe.CQE_LEN <= |m0| && s1 + 0x400 * k <= |m0| && |reply| == 0x10 + 0x200 * k
    requires e + Cqe.CQE_LEN <= s1 || s1 + 0x400 * k <= e
    ensures Wrote(m0, Overwrite(m0, e + 0x20, reply[..0x10]), e, s1, k, reply, 0)
  {
    OverwriteReadBack(m0, e + 0x20, reply[..0x10]);
    OverwriteAt(m0, e + 0x20, reply[..0x10]);
  }

  lemma WroteBlock(m0: seq<byte>, m: seq<byte>, e: nat, s1: nat, k: nat, reply: seq<byte>, i: nat)
    requires Wrote(m0, m, e, s1, k, reply, i) && i < k
    ensures Wrote(m0, Overwrite(m, s1 + 0x400 * i, Piece(reply, i)), e, s1, k, reply, i + 1)
  {
    var piece := Piece(reply, i);
    var at := s1 + 0x400 * i;
    KeepsWrite(m0, m, Overwrite(m, at, piece), at, piece, e, s1, s1 + 0x400 * k);
    OverwriteSliceOutside(m, e + 0x20, 0x10, at, piece);
    OverwriteReadBack(m, at, piece);
    forall j | 0 <= j < i
      ensures BlockData(Overwrite(m, at, piece), s1, j) == Piece(reply, j)
    {
      OverwriteSliceOutside(m, s1 + 0x400 * j, 0x200, at, piece);
    }
  }

  /**
   * The device's completion, from memory `m0` to `m`: all `k` output blocks
   * and the inline reply bytes written, and the status byte of the entry
   * at `e` set to `status`.
   */
  ghost predicate Delivered(m0: seq<byte>, m: seq<byte>, e: nat, s1: nat, k: nat, reply: seq<byte>, status: byte) {
    Wrote(m0, m, e, s1, k, reply, k) && m[e + Cqe.STATUS] == status
  }

  /** Memory `m` after the device has written the first `i` output blocks. */
  ghost function AfterBlocks(m: seq<byte>, s1: nat, reply: seq<byte>, i: nat): (r: seq<byte>)
    requires s1 + 0x400 * i <= |m| && 0x10 + 0x200 * i <= |reply|
    ensures |r| == |m|
  {
    if i == 0 then m
    else Overwrite(AfterBlocks(m, s1, reply, i - 1), s1 + 0x400 * (i - 1), Piece(reply, i - 1))
  }

  /**
   * Memory `m0` after the device completed a command answered by `reply`
   * over `k` output blocks: the inline reply bytes, the blocks, then the
   * status byte.
   */
  ghost function DeviceMemory(m0: seq<byte>, e: nat, s1: nat, k: nat, reply: seq<byte>, status: byte): (r: seq<byte>)
    requires e + Cqe.CQE_LEN <= |m0| && s1 + 0x400 * k <= |m0| && |reply| == 0x10 + 0x200 * k
    ensures |r| == |m0|
  {
    Overwrite(AfterBlocks(Overwrite(m0, e + 0x20, reply[..0x10]), s1, reply, k), e + Cqe.STATUS, [status])
  }

  lemma {:induction false} AfterBlocksWrote(m0: seq<byte>, m1: seq<byte>, e: nat, s1: nat, k: nat, reply: seq<byte>, i: nat)
    requires Wrote(m0, m1, e, s1, k, reply, 0) && i <= k
    ensures Wrote(m0, AfterBlocks(m1, s1, reply, i), e, s1, k, reply, i)
  {
    if i > 0 {
      AfterBlocksWrote(m0, m1, e, s1, k, reply, i - 1);
      AfterBlocksStep(m0, m1, e, s1, k, reply, i);
    }
  }

  /** The `i`-th block written after the first `i - 1`. */
  lemma AfterBlocksStep(m0: seq<byte>, m1: seq<byte>, e: nat, s1: nat, k: nat, reply: seq<byte>, i: nat)
    requires 0 < i <= k && |m1| == |m0| && s1 + 0x400 * k <= |m1| && |reply| == 0x10 + 0x200 * k
    requires Wrote(m0, AfterBlocks(m1, s1, reply, i - 1), e, s1, k, reply, i - 1)
    ensures Wrote(m0, AfterBlocks(m1, s1, reply, i), e, s1, k, reply, i)
  {
    var prev := AfterBlocks(m1, s1, reply, i - 1);
    WroteBlock(m0, prev, e, s1, k, reply, i - 1);
    assert AfterBlocks(m1, s1, reply, i) == Overwrite(prev, s1 + 0x400 * (i - 1), Piece(reply, i - 1));
  }

  /** What the device's completion leaves in memory. */
  lemma DeviceMemoryDelivers(m0: seq<byte>, e: nat, s1: nat, k: nat, reply: seq<byte>, status: byte)
    requires e + Cqe.CQE_LEN <= |m0| && s1 + 0x400 * k <= |m0| && |reply| == 0x10 + 0x200 * k
    requires e + Cqe.CQE_LEN <= s1 || s1 + 0x400 * k <= e
    ensures Delivered(m0, DeviceMemory(m0, e, s1, k, reply, status), e, s1, k, reply, status)
  {
    var m1 := Overwrite(m0, e + 0x20, reply[..0x10]);
    WroteInline(m0, e, s1, k, reply);
    AfterBlocksWrote(m0, m1, e, s1, k, reply, k);
    WroteStatus(m0, AfterBlocks(m1, s1, reply, k), e, s1, k, reply, status);
  }

  lemma WroteStatus(m0: seq<byte>, m: seq<byte>, e: nat, s1: nat, k: nat, reply: seq<byte>, status: byte)
    requires Wrote(m0, m, e, s1, k, reply, k)
    ensures Delivered(m0, Overwrite(m, e + Cqe.STATUS, [status]), e, s1, k, reply, status)
  {
    var r := Overwrite(m, e + Cqe.STATUS, [status]);
    KeepsWrite(m0, m, Overwrite(m, e + Cqe.STATUS, [status]), e + Cqe.STATUS, [status], e, s1, s1 + 0x400 * k);
    OverwriteSliceOutside(m, e + 0x20, 0x10, e + Cqe.STATUS, [status]);
    OverwriteAt(m, e + Cqe.STATUS, [status]);
    forall j | 0 <= j < k
      ensures BlockData(r, s1, j) == Piece(reply, j)
    {
      OverwriteSliceOutside(m, s1 + 0x400 * j, 0x200, e + Cqe.STATUS, [status]);
    }
  }

  /** The first 0x200 bytes of output block `i` of a chain starting at index `s1`. */
  function BlockData(m: seq<byte>, s1: nat, i: nat): (d: seq<byte>)
    requires s1 + 0x400 * i + 0x200 <= |m|
    ensures |d| == 0x200
  {
    m[s1 + 0x400 * i..s1 + 0x400 * i + 0x200]
  }

  /** The data bytes of the first `k` output blocks, in chain order. */
  function Gathered(m: seq<byte>, s1: nat, k: nat): (g: seq<byte>)
    requires k == 0 || s1 + 0x400 * k <= |m|
    ensures |g| == 0x200 * k
  {
    if k == 0 then [] else Gathered(m, s1, k - 1) + BlockData(m, s1, k - 1)
  }

  /** Blocks holding consecutive pieces of a reply gather back to the reply past its inline part. */
  lemma {:induction false} GatheredReply(m: seq<byte>, s1: nat, r: seq<byte>, k: nat)
    requires (k == 0 || s1 + 0x400 * k <= |m|) && |r| == 0x10 + 0x200 * k
    requires forall i :: 0 <= i < k ==> BlockData(m, s1, i) == Piece(r, i)
    ensures Gathered(m, s1, k) == r[0x10..]
  {
    if k > 0 {
      GatheredReply(m, s1, r[..0x10 + 0x200 * (k - 1)], k - 1);
      assert Piece(r, k - 1) == r[0x10 + 0x200 * (k - 1)..];
      assert r[..0x10 + 0x200 * (k - 1)][0x10..] + r[0x10 + 0x200 * (k - 1)..] == r[0x10..];
    }
  }

  /**
   * The data bytes of a chain built from `data`, gathered in chain order
   * and cut to the payload's length, are the payload.
   */
  lemma ChainCarries(m: seq<byte>, stale: seq<byte>, s0: nat, a0: nat, token: byte, data: seq<byte>)
    requires Mailboxes.Holds(m, stale, s0, a0, token, Mailboxes.Chunks(data))
    ensures |data| <= 0x200 * Mailboxes.NumChunks(|data|)
    ensures Gathered(m, s0, Mailboxes.NumChunks(|data|))[..|data|] == data
  {
    ChainCovers(|data|);
    GatheredPrefix(m, stale, s0, a0, token, data, Mailboxes.NumChunks(|data|));
  }

  lemma {:induction false} GatheredPrefix(m: seq<byte>, stale: seq<byte>, s0: nat, a0: nat, token: byte, data: seq<byte>, k: nat)
    requires Mailboxes.Holds(m, stale, s0, a0, token, Mailboxes.Chunks(data)) && k <= Mailboxes.NumChunks(|data|)
    ensures var n := Mailboxes.Min(0x200 * k, |data|);
      Gathered(m, s0, k)[..n] == data[..n]
  {
    if k > 0 {
      var chunks := Mailboxes.Chunks(data);
      var i := k - 1;
      GatheredPrefix(m, stale, s0, a0, token, data, i);
      Mailboxes.ChunkAt(data, i);
      Mailboxes.HoldsData(m, stale, s0, a0, token, chunks, i);
      var n := Mailboxes.Min(0x200 * k, |data|);
      var g := Gathered(m, s0, i);
      var d := BlockData(m, s0, i);
      assert Gathered(m, s0, k) == g + d;
      assert d[..|chunks[i]|] == chunks[i];
      assert g[..0x200 * i] == data[..0x200 * i];
      assert n == 0x200 * i + |chunks[i]|;
      assert (g + d)[..n] == g + d[..|chunks[i]|];
      assert data[..n] == data[..0x200 * i] + data[0x200 * i..n];
    }
  }

  /**
   * Memory `m` at the doorbell, against `stale` before the command: the
   * input past its first 16 bytes as a chain from the scratch region's
   * start (index `s0`, device address `a0`), and `outlen` zero bytes as a
   * chain in the slots after it, both linked, numbered, with token 0 and
   * signed.
   */
  ghost predicate Staged(m: seq<byte>, stale: seq<byte>, s0: nat, a0: nat, input: seq<byte>, outlen: nat) {
    && |input| >= 0x10
    && Mailboxes.Holds(m, stale, s0, a0, 0, Mailboxes.Chunks(input[0x10..]))
    && Mailboxes.Holds(m, stale, s0 + 0x400 * Mailboxes.NumChunks(|input| - 0x10),
                       a0 + 0x400 * Mailboxes.NumChunks(|input| - 0x10), 0, Mailboxes.Chunks(Zeros(outlen)))
  }

  /** The first 16 input bytes followed by the input chain's data, cut to the input's length, are the input. */
  lemma StagedInput(m: seq<byte>, stale: seq<byte>, s0: nat, a0: nat, input: seq<byte>, outlen: nat)
    requires Staged(m, stale, s0, a0, input, outlen)
    ensures |input| <= 0x10 + 0x200 * Mailboxes.NumChunks(|input| - 0x10)
    ensures (input[..0x10] + Gathered(m, s0, Mailboxes.NumChunks(|input| - 0x10)))[..|input|] == input
  {
    var rest := input[0x10..];
    ChainCarries(m, stale, s0, a0, 0, rest);
    var g := Gathered(m, s0, Mailboxes.NumChunks(|rest|));
    assert (input[..0x10] + g)[..|input|] == input[..0x10] + g[..|rest|];
    assert input == input[..0x10] + rest;
  }

  /**
   * What the device finds at the doorbell gives the input back: the signed
   * request's inline bytes 0x10..0x20 followed by the staged input chain's
   * data, cut to the input's length.
   */
  lemma EntryCarriesInput(e: seq<byte>, m: seq<byte>, stale: seq<byte>, s0: nat, a0: nat, input: seq<byte>,
                          inPtr: u64, outPtr: u64, outlen: u32)
    requires |e| == Cqe.CQE_LEN && Staged(m, stale, s0, a0, input, outlen)
    ensures var entry := Cqe.SignEntry(Request(e, input[..0x10], |input| % 0x1_0000_0000, inPtr, outPtr, outlen));
      (entry[0x10..0x20] + Gathered(m, s0, Mailboxes.NumChunks(|input| - 0x10)))[..|input|] == input
  {
    var req := Request(e, input[..0x10], |input| % 0x1_0000_0000, inPtr, outPtr, outlen);
    RequestFields(e, input[..0x10], |input| % 0x1_0000_0000, inPtr, outPtr, outlen);
    Cqe.SignEntrySigned(req);
    assert Cqe.SignEntry(req)[0x10..0x20] == req[0x10..0x20];
    StagedInput(m, stale, s0, a0, input, outlen);
  }

  /**
   * What the device finds when the doorbell rings for `input` and
   * `outlen`, with the scratch region at index `s0` and device address `a0`
   * of DMA memory `m0`, whose entry lies at `e`: `submitted` is the
   * signed request and sits in the entry of `atDoorbell`, both chains are
   * staged in the region, and the entry's inline bytes with the input
   * chain's data give the input back.
   */
  ghost predicate Rung(m0: seq<byte>, e: nat, s0: nat, a0: nat, input: seq<byte>, outlen: u32,
                       submitted: seq<byte>, atDoorbell: seq<byte>) {
    && e + Cqe.CQE_LEN <= |m0| && ChainsFit(|input|, outlen) && a0 + SCRATCH_LEN <= 0x1_0000_0000_0000_0000
    && submitted == Cqe.SignEntry(Request(m0[e..e + Cqe.CQE_LEN], input[..0x10], |input| % 0x1_0000_0000,
                                          InPointer(|input|, a0), OutPointer(|input|, outlen, a0), outlen))
    && |atDoorbell| == |m0| && e + Cqe.CQE_LEN <= |atDoorbell|
    && atDoorbell[e..e + Cqe.CQE_LEN] == submitted
    && Staged(atDoorbell, m0, s0, a0, input, outlen)
    && (submitted[0x10..0x20] + Gathered(atDoorbell, s0, Mailboxes.NumChunks(|input| - 0x10)))[..|input|] == input
  }

  /** `Rung` for the scratch region whose first page is unit `scratch` of the DMA allocator. */
  ghost predicate Executed(m0: seq<byte>, e: nat, scratch: nat, input: seq<byte>, outlen: u32,
                           submitted: seq<byte>, atDoorbell: seq<byte>) {
    Rung(m0, e, PAGE_SIZE * scratch, DMA_BASE + PAGE_SIZE * scratch, input, outlen, submitted, atDoorbell)
  }

  /**
   * The output chain built from slot index `s1` over `m1` is in place over
   * `m0` too, when `m0` and `m1` differ only in the entry at `e` and below
   * `s1`.
   */
  lemma OutputRestaled(m0: seq<byte>, m1: seq<byte>, m2: seq<byte>, e: nat, s0: nat, a0: nat, kin: nat,
                       s1: nat, a1: nat, kout: nat, outlen: nat)
    requires s1 == s0 + 0x400 * kin && a1 == a0 + 0x400 * kin && kout == Mailboxes.NumChunks(outlen)
    requires Keeps(m0, m1, e, s0, s1) && (e + Cqe.CQE_LEN <= s1 || s1 + 0x400 * kout <= e)
    requires Mailboxes.Holds(m2, m1, s1, a1, 0, Mailboxes.Chunks(Zeros(outlen)))
    ensures Mailboxes.Holds(m2, m0, s0 + 0x400 * kin, a0 + 0x400 * kin, 0, Mailboxes.Chunks(Zeros(outlen)))
  {
    assert |Mailboxes.Chunks(Zeros(outlen))| == kout;
    KeepsSlots(m0, m1, e, s0, s1, s1, kout);
    Mailboxes.HoldsRestaled(m2, m0, m1, s1, a1, 0, Mailboxes.Chunks(Zeros(outlen)));
  }

  /** Writing the input pointer into the entry at `e`, apart from the scratch region, keeps a chain there in place. */
  lemma PointerKeepsChain(m: seq<byte>, m2: seq<byte>, stale: seq<byte>, e: nat, p: u64, s0: nat, a0: nat, chunks: seq<seq<byte>>)
    requires Mailboxes.Holds(m, stale, s0, a0, 0, chunks) && 0x400 * |chunks| <= SCRATCH_LEN
    requires e + Cqe.CQE_LEN <= |m| && (e + Cqe.CQE_LEN <= s0 || s0 + SCRATCH_LEN <= e)
    requires m2 == Overwrite(m, e + Cqe.INPUT_MB_PTR_HI, BE64(p))
    ensures Mailboxes.Holds(m2, stale, s0, a0, 0, chunks)
  {
    EntryApart(e, s0, |chunks|, Cqe.INPUT_MB_PTR_HI, |BE64(p)|);
    WriteKeepsChain(m, m2, stale, e + Cqe.INPUT_MB_PTR_HI, BE64(p), s0, a0, chunks);
  }

  /** A field of the entry lies apart from `k` slots of the scratch region when the entry does. */
  lemma EntryApart(e: nat, s0: nat, k: nat, at: nat, n: nat)
    requires 0x400 * k <= SCRATCH_LEN && at + n <= Cqe.CQE_LEN
    requires e + Cqe.CQE_LEN <= s0 || s0 + SCRATCH_LEN <= e
    ensures e + at + n <= s0 || s0 + 0x400 * k <= e + at
  {
  }

  /** The input chain from `s0` and the output chain after its `kin` blocks make the memory staged. */
  lemma BothStaged(m: seq<byte>, stale: seq<byte>, s0: nat, a0: nat, kin: nat, input: seq<byte>, outlen: nat)
    requires |input| >= 0x10 && kin == Mailboxes.NumChunks(|input| - 0x10)
    requires Mailboxes.Holds(m, stale, s0, a0, 0, Mailboxes.Chunks(input[0x10..]))
    requires Mailboxes.Holds(m, stale, s0 + 0x400 * kin, a0 + 0x400 * kin, 0, Mailboxes.Chunks(Zeros(outlen)))
    ensures Staged(m, stale, s0, a0, input, outlen)
  {
  }

  /** A write that misses the `k` slots from `s0` on leaves them as they were. */
  lemma WriteSlots(m: seq<byte>, at: nat, w: seq<byte>, s0: nat, k: nat)
    requires at + |w| <= |m| && (at + |w| <= s0 || s0 + 0x400 * k <= at)
    ensures Mailboxes.SameSlots(m, Overwrite(m, at, w), s0, k)
  {
    OverwriteAt(m, at, w);
  }

  /** A write that misses a held chain's slots keeps the chain. */
  lemma WriteKeepsChain(m: seq<byte>, m2: seq<byte>, stale: seq<byte>, at: nat, w: seq<byte>, s0: nat, a0: nat, chunks: seq<seq<byte>>)
    requires Mailboxes.Holds(m, stale, s0, a0, 0, chunks)
    requires at + |w| <= |m| && (at + |w| <= s0 || s0 + 0x400 * |chunks| <= at)
    requires m2 == Overwrite(m, at, w)
    ensures Mailboxes.Holds(m2, stale, s0, a0, 0, chunks)
  {
    WriteSlots(m, at, w, s0, |chunks|);
    Mailboxes.HoldsMoved(m, m2, stale, s0, a0, 0, chunks);
  }

  /** A chain built after a write that missed its slots is held against the memory before that write. */
  lemma WriteBeforeChain(m: seq<byte>, stale: seq<byte>, at: nat, w: seq<byte>, s0: nat, a0: nat, chunks: seq<seq<byte>>)
    requires at + |w| <= |stale| && (at + |w| <= s0 || s0 + 0x400 * |chunks| <= at)
    requires Mailboxes.Holds(m, Overwrite(stale, at, w), s0, a0, 0, chunks)
    ensures Mailboxes.Holds(m, stale, s0, a0, 0, chunks)
  {
    WriteSlots(stale, at, w, s0, |chunks|);
    Mailboxes.HoldsRestaled(m, stale, Overwrite(stale, at, w), s0, a0, 0, chunks);
  }

  /** What keeps to the entry and to a range apart from the `k` slots from `s0` on leaves them alone. */
  lemma KeepsSlots(a: seq<byte>, b: seq<byte>, e: nat, lo: nat, hi: nat, s0: nat, k: nat)
    requires Keeps(a, b, e, lo, hi)
    requires e + Cqe.CQE_LEN <= s0 || s0 + 0x400 * k <= e
    requires hi <= s0 || s0 + 0x400 * k <= lo
    ensures Mailboxes.SameSlots(a, b, s0, k)
  {
  }

  /** A write into the entry, apart from the scratch region, keeps the staged chains. */
  lemma StagedEntryWrite(m: seq<byte>, m2: seq<byte>, stale: seq<byte>, s0: nat, a0: nat, input: seq<byte>, outlen: nat, e: nat, w: seq<byte>)
    requires Staged(m, stale, s0, a0, input, outlen) && ChainsFit(|input|, outlen)
    requires |w| == Cqe.CQE_LEN && e + Cqe.CQE_LEN <= |m| && (e + Cqe.CQE_LEN <= s0 || s0 + SCRATCH_LEN <= e)
    requires m2 == Overwrite(m, e, w)
    ensures Staged(m2, stale, s0, a0, input, outlen)
  {
    var kin := Mailboxes.NumChunks(|input| - 0x10);
    assert |Mailboxes.Chunks(input[0x10..])| == kin && |Mailboxes.Chunks(Zeros(outlen))| == Mailboxes.NumChunks(outlen);
    WriteKeepsChain(m, m2, stale, e, w, s0, a0, Mailboxes.Chunks(input[0x10..]));
    WriteKeepsChain(m, m2, stale, e, w, s0 + 0x400 * kin, a0 + 0x400 * kin, Mailboxes.Chunks(Zeros(outlen)));
    BothStaged(m2, stale, s0, a0, kin, input, outlen);
  }

  /** Resizing twice, the second time to no more than the first, is resizing once. */
  lemma ResizeTwice(s: seq<byte>, n: nat, k: nat)
    requires k <= n
    ensures Resize(Resize(s, n), k) == Resize(s, k)
  {
  }

  // ---------------------------------------------------------------------
  // Page negotiation and bring-up, seen through their `do_command` calls

  /** One `do_command` call: the command sent and what it returned. */
  datatype Event = Event(command: CmdIf.Command, answer: Result<CmdIf.Output>)

  /** `?` on a command's result, its output dropped. */
  function Unit(r: Result<CmdIf.Output>): Result<()> {
    if r.Ok? then Ok(()) else Err(r.error)
  }

  /** The smallest `i32`, whose negation overflows. */
  const I32_MIN: int := -0x8000_0000

  /**
   * The calls `seg` of one `handle_page_request(opMod)` and its result
   * `r`: QUERY_PAGES first, whose failure is returned, then what the page
   * count it answered calls for.
   */
  ghost predicate PageRequestRan(opMod: QueryPagesCodec.QueryPagesOpMod, seg: seq<Event>, r: Result<()>) {
    && |seg| >= 1
    && seg[0].command == CmdIf.QueryPagesCmd(QueryPagesCodec.QueryPages(opMod))
    && var q := seg[0].answer;
       if q.Err? then |seg| == 1 && r == Err(q.error)
       else q.value.QueryPagesOut? && CountHandled(q.value.qo.numPages, seg[1..], r)
  }

  /**
   * The calls `seg` made for page count `n`, and the result `r`:
   * MANAGE_PAGES granting `n` pages (unless the allocator ran out, a
   * panic), MANAGE_PAGES asking for `-n` pages back (unless `n` cannot be
   * negated, a panic), or nothing for 0; the result is that of the call.
   */
  ghost predicate CountHandled(n: i32, seg: seq<Event>, r: Result<()>) {
    if n == 0 then seg == [] && r == Ok(())
    else if n == I32_MIN then seg == [] && r == Err(Panic)
    else if n < 0 then
      && |seg| == 1
      && seg[0].command == CmdIf.ManagePagesCmd(ManagePagesCodec.ManagePages(ManagePagesCodec.HCAReturnPages, -n, []))
      && (seg[0].answer.Ok? ==> seg[0].answer.value.ManagePagesOut?)
      && r == Unit(seg[0].answer)
    else
      || (seg == [] && r == Err(Panic))
      || (&& |seg| == 1
          && seg[0].command.ManagePagesCmd?
          && seg[0].command.m.opMod == ManagePagesCodec.AllocationSuccess
          && seg[0].command.m.inputNumEntries == n
          && |seg[0].command.m.items| == n
          && r == Unit(seg[0].answer))
  }

  /**
   * `m` is `m0` with the distinct new addresses `pages` added, none of
   * which `m0` already held.
   */
  ghost predicate Granted(m0: map<u64, DmaAllocator.AllocationGuard>, m: map<u64, DmaAllocator.AllocationGuard>, pages: seq<u64>) {
    && (forall i, j :: 0 <= i < j < |pages| ==> pages[i] != pages[j])
    && (forall i :: 0 <= i < |pages| ==> pages[i] !in m0)
    && (forall a :: a in m <==> a in m0 || a in pages)
    && (forall a :: a in m0 ==> m[a] == m0[a])
  }

  /**
   * What a page request `seg` did to the page map: pages granted stay in
   * it whatever MANAGE_PAGES answered; the addresses the device hands
   * back are removed (absent ones are ignored); otherwise it is unchanged.
   */
  ghost predicate PagesMoved(seg: seq<Event>, m0: map<u64, DmaAllocator.AllocationGuard>,
                             m: map<u64, DmaAllocator.AllocationGuard>, pages: seq<u64>)
    requires |seg| >= 1
  {
    var q := seg[0].answer;
    if q.Ok? && q.value.QueryPagesOut? then CountMoved(q.value.qo.numPages, seg[1..], m0, m, pages)
    else m == m0
  }

  /** What the calls `seg` made for page count `n` did to the page map. */
  ghost predicate CountMoved(n: i32, seg: seq<Event>, m0: map<u64, DmaAllocator.AllocationGuard>,
                             m: map<u64, DmaAllocator.AllocationGuard>, pages: seq<u64>)
  {
    if n > 0 then
      && Granted(m0, m, pages) && |pages| <= n
      && (|seg| == 1 ==> seg[0].command.ManagePagesCmd? && seg[0].command.m.items == pages)
    else if I32_MIN < n < 0 && |seg| == 1 && seg[0].answer.Ok? && seg[0].answer.value.ManagePagesOut? then
      m == m0 - (set a | a in seg[0].answer.value.mo.items)
    else
      m == m0
  }

  /** The device address of page `i` of the DMA region. */
  function PageAddress(i: nat): int {
    DMA_BASE + PAGE_SIZE * i
  }

  /**
   * What moving pages from the map `m0` to the map `m` did to the DMA
   * allocator: the guards that left the map were dropped and those that
   * joined it were allocated (`live0` to `live`); the page of each address
   * that left is free again, the page of each address that joined is in
   * use, and every other unit is as it was (`bits0` to `bits`).
   */
  ghost predicate AllocatorFollows(live0: set<DmaAllocator.AllocationGuard>, live: set<DmaAllocator.AllocationGuard>,
                                   bits0: seq<bool>, bits: seq<bool>,
                                   m0: map<u64, DmaAllocator.AllocationGuard>, m: map<u64, DmaAllocator.AllocationGuard>)
  {
    && live == live0 - (m0.Values - m.Values) + (m.Values - m0.Values)
    && |bits| == |bits0|
    && forall i :: 0 <= i < |bits| ==>
         bits[i] == if PageAddress(i) in m.Keys - m0.Keys then true
                    else if PageAddress(i) in m0.Keys - m.Keys then false
                    else bits0[i]
  }

  /** Moving no page leaves the allocator as it was. */
  lemma FollowsNone(live: set<DmaAllocator.AllocationGuard>, bits: seq<bool>, m: map<u64, DmaAllocator.AllocationGuard>)
    ensures AllocatorFollows(live, live, bits, bits, m, m)
  {
  }

  /**
   * Allocating page `s` under the new address `a` with the new guard `g`
   * extends what a run of page moves did to the allocator.
   */
  lemma {:induction false} FollowsAdd(live0: set<DmaAllocator.AllocationGuard>, live: set<DmaAllocator.AllocationGuard>,
                                      bits0: seq<bool>, bits: seq<bool>,
                                      m0: map<u64, DmaAllocator.AllocationGuard>, m: map<u64, DmaAllocator.AllocationGuard>,
                                      a: u64, g: DmaAllocator.AllocationGuard, s: nat)
    requires AllocatorFollows(live0, live, bits0, bits, m0, m)
    requires a !in m && a !in m0
    requires (forall b :: b in m0 ==> m0[b] != g) && (forall b :: b in m ==> m[b] != g)
    requires s < |bits| && PageAddress(s) == a
    ensures AllocatorFollows(live0, live + {g}, bits0, bits[s := true], m0, m[a := g])
  {
    var m' := m[a := g];
    assert m'.Values == m.Values + {g} by {
      forall v | v in m'.Values ensures v in m.Values + {g} {
        var k :| k in m' && m'[k] == v;
        if k != a { assert m[k] == v; }
      }
      forall v | v in m.Values ensures v in m'.Values {
        var k :| k in m && m[k] == v;
        assert m'[k] == v;
      }
      assert m'[a] == g;
    }
  }

  /**
   * A single page move that adds the new address `a` with the new guard
   * `g` does to the allocator exactly this: `g` joins the live guards and
   * the unit `s` of the page is set, no other unit changing.
   */
  lemma {:induction false} FollowsAddOne(live0: set<DmaAllocator.AllocationGuard>, live: set<DmaAllocator.AllocationGuard>,
                                         bits0: seq<bool>, bits: seq<bool>, m: map<u64, DmaAllocator.AllocationGuard>,
                                         a: u64, g: DmaAllocator.AllocationGuard, s: nat)
    requires a !in m && forall b :: b in m ==> m[b] != g
    requires s < |bits0| && PageAddress(s) == a
    ensures AllocatorFollows(live0, live, bits0, bits, m, m[a := g]) <==> live == live0 + {g} && bits == bits0[s := true]
  {
    var m' := m[a := g];
    assert m'.Values == m.Values + {g} by {
      forall v | v in m'.Values ensures v in m.Values + {g} {
        var k :| k in m' && m'[k] == v;
        if k != a { assert m[k] == v; }
      }
      forall v | v in m.Values ensures v in m'.Values {
        var k :| k in m && m[k] == v;
        assert m'[k] == v;
      }
      assert m'[a] == g;
    }
    if AllocatorFollows(live0, live, bits0, bits, m, m') {
      forall i | 0 <= i < |bits| ensures bits[i] == bits0[s := true][i] {
        if i != s { assert PageAddress(i) != a; }
      }
    } else if live == live0 + {g} && bits == bits0[s := true] {
      FollowsAdd(live0, live0, bits0, bits0, m, m, a, g, s);
    }
  }

  /**
   * Dropping the guard under the address `a`, which `m0` held with the
   * same guard, and freeing its page `s` extends what a run of page moves
   * did to the allocator.
   */
  lemma {:induction false} FollowsRemove(live0: set<DmaAllocator.AllocationGuard>, live: set<DmaAllocator.AllocationGuard>,
                                         bits0: seq<bool>, bits: seq<bool>,
                                         m0: map<u64, DmaAllocator.AllocationGuard>, m: map<u64, DmaAllocator.AllocationGuard>,
                                         a: u64, s: nat)
    requires AllocatorFollows(live0, live, bits0, bits, m0, m)
    requires a in m && a in m0 && m0[a] == m[a]
    requires forall b :: b in m && b != a ==> m[b] != m[a]
    requires s < |bits| && PageAddress(s) == a
    ensures AllocatorFollows(live0, live - {m[a]}, bits0, bits[s := false], m0, m - {a})
  {
    var m' := m - {a};
    assert m'.Values == m.Values - {m[a]} by {
      forall v | v in m'.Values ensures v in m.Values - {m[a]} {
        var k :| k in m' && m'[k] == v;
        assert m[k] == v;
      }
      forall v | v in m.Values - {m[a]} ensures v in m'.Values {
        var k :| k in m && m[k] == v;
        assert m'[k] == v;
      }
    }
    assert m[a] in m0.Values;
  }

  /** Every address of `m` is in `m'` with the same guard. */
  ghost predicate SubMap(m: map<u64, DmaAllocator.AllocationGuard>, m': map<u64, DmaAllocator.AllocationGuard>) {
    forall a :: a in m ==> a in m' && m'[a] == m[a]
  }

  /**
   * The pages `pages` were taken, in order, from the allocator that went
   * from `live0`/`bits0` to `live`/`bits`, and put into the map that went
   * from `m0` to `m`.
   */
  ghost predicate PagesTaken(live0: set<DmaAllocator.AllocationGuard>, live: set<DmaAllocator.AllocationGuard>,
                             bits0: seq<bool>, bits: seq<bool>,
                             m0: map<u64, DmaAllocator.AllocationGuard>, m: map<u64, DmaAllocator.AllocationGuard>,
                             pages: seq<u64>)
  {
    Granted(m0, m, pages) && AllocatorFollows(live0, live, bits0, bits, m0, m)
  }

  /**
   * One more page taken under a new address `a` extends both what was
   * granted and what the grants did to the allocator.
   */
  lemma {:induction false} GrantedAdd(live0: set<DmaAllocator.AllocationGuard>, live: set<DmaAllocator.AllocationGuard>,
                                      live': set<DmaAllocator.AllocationGuard>,
                                      bits0: seq<bool>, bits: seq<bool>, bits': seq<bool>,
                                      m0: map<u64, DmaAllocator.AllocationGuard>, m: map<u64, DmaAllocator.AllocationGuard>,
                                      m': map<u64, DmaAllocator.AllocationGuard>, pages: seq<u64>, a: u64)
    requires PagesTaken(live0, live, bits0, bits, m0, m, pages)
    requires a !in m && a in m' && m' == m[a := m'[a]]
    requires AllocatorFollows(live, live', bits, bits', m, m')
    ensures PagesTaken(live0, live', bits0, bits', m0, m', pages + [a])
  {
    SubMapAdd(m, a, m'[a]);
    FollowsThen(live0, live, live', bits0, bits, bits', m0, m, m');
  }

  /** Adding an address the map does not hold keeps every other entry. */
  lemma SubMapAdd(m: map<u64, DmaAllocator.AllocationGuard>, a: u64, g: DmaAllocator.AllocationGuard)
    requires a !in m
    ensures SubMap(m, m[a := g])
  {
  }

  /**
   * Two runs of page moves that only add pages, or only remove them, make
   * one run whose effect on the allocator is the two effects together.
   */
  lemma {:induction false} FollowsThen(live0: set<DmaAllocator.AllocationGuard>, live1: set<DmaAllocator.AllocationGuard>,
                                       live2: set<DmaAllocator.AllocationGuard>,
                                       bits0: seq<bool>, bits1: seq<bool>, bits2: seq<bool>,
                                       m0: map<u64, DmaAllocator.AllocationGuard>, m1: map<u64, DmaAllocator.AllocationGuard>,
                                       m2: map<u64, DmaAllocator.AllocationGuard>)
    requires AllocatorFollows(live0, live1, bits0, bits1, m0, m1)
    requires AllocatorFollows(live1, live2, bits1, bits2, m1, m2)
    requires (SubMap(m0, m1) && SubMap(m1, m2)) || (SubMap(m2, m1) && SubMap(m1, m0))
    ensures AllocatorFollows(live0, live2, bits0, bits2, m0, m2)
  {
    if SubMap(m0, m1) && SubMap(m1, m2) {
      assert m0.Values <= m1.Values <= m2.Values by {
        forall v | v in m1.Values ensures v in m2.Values {
          var k :| k in m1 && m1[k] == v;
          assert m2[k] == v;
        }
        forall v | v in m0.Values ensures v in m1.Values {
          var k :| k in m0 && m0[k] == v;
          assert m1[k] == v;
        }
      }
    } else {
      assert m2.Values <= m1.Values <= m0.Values by {
        forall v | v in m1.Values ensures v in m0.Values {
          var k :| k in m1 && m1[k] == v;
          assert m0[k] == v;
        }
        forall v | v in m2.Values ensures v in m1.Values {
          var k :| k in m2 && m2[k] == v;
          assert m1[k] == v;
        }
      }
    }
  }

  /**
   * Removing the next address of `items` extends both the removal of the
   * ones before it and what those removals did to the allocator.
   */
  lemma ReturnedOne(live0: set<DmaAllocator.AllocationGuard>, live: set<DmaAllocator.AllocationGuard>,
                    live': set<DmaAllocator.AllocationGuard>,
                    bits0: seq<bool>, bits: seq<bool>, bits': seq<bool>,
                    m0: map<u64, DmaAllocator.AllocationGuard>, m: map<u64, DmaAllocator.AllocationGuard>,
                    m': map<u64, DmaAllocator.AllocationGuard>, items: seq<u64>, i: nat)
    requires i < |items| && m == m0 - (set a | a in items[..i])
    requires AllocatorFollows(live0, live, bits0, bits, m0, m)
    requires m' == m - {items[i]} && AllocatorFollows(live, live', bits, bits', m, m')
    ensures var pre := items[..i + 1];
            m' == m0 - (set a | a in pre) && SubMap(m', m0)
    ensures AllocatorFollows(live0, live', bits0, bits', m0, m')
  {
    assert items[..i + 1] == items[..i] + [items[i]];
    FollowsThen(live0, live, live', bits0, bits, bits', m0, m, m');
  }

  /** The steps of `initialize`: one command, or one page request. */
  datatype InitStep = Send(command: CmdIf.Command) | Pages(opMod: QueryPagesCodec.QueryPagesOpMod)

  const INIT_STEPS: seq<InitStep> := [
    Send(CmdIf.HcaCmd(HcaCodec.EnableHCA)),
    Send(CmdIf.QueryISSICmd),
    Send(CmdIf.SetISSICmd(IssiCodec.SetISSI(1))),
    Pages(QueryPagesCodec.BootPages),
    Send(CmdIf.QueryHCACapCmd(QueryHcaCapCodec.QueryHCACap(0x0001))),
    Pages(QueryPagesCodec.InitPages),
    Send(CmdIf.HcaCmd(HcaCodec.InitHCA))
  ]

  /** The calls `seg` of one step, ending with result `r`. */
  ghost predicate StepRan(s: InitStep, seg: seq<Event>, r: Result<()>) {
    match s
    case Send(c) => |seg| == 1 && seg[0].command == c && r == Unit(seg[0].answer)
    case Pages(op) => PageRequestRan(op, seg, r)
  }

  /** The first `k` steps succeeded, step `i` making the calls `seg[cuts[i]..cuts[i + 1]]`. */
  ghost predicate StepsRan(seg: seq<Event>, cuts: seq<nat>, k: nat)
    requires k <= |INIT_STEPS|
  {
    && |cuts| == k + 1 && cuts[0] == 0 && cuts[k] == |seg|
    && (forall i, j :: 0 <= i <= j <= k ==> cuts[i] <= cuts[j])
    && (forall i :: 0 <= i < k ==> StepRan(INIT_STEPS[i], seg[cuts[i]..cuts[i + 1]], Ok(())))
  }

  /**
   * `initialize` made the calls `seg` and returned `r`: the steps in
   * order, each one started only when the one before succeeded; `Ok`
   * exactly when all seven ran, otherwise the error of the step that
   * failed, the last one to run.
   */
  ghost predicate InitRan(seg: seq<Event>, cuts: seq<nat>, r: Result<()>) {
    && 1 <= |cuts| <= |INIT_STEPS| + 1
    && var k := |cuts| - 1;
       && cuts[k] <= |seg|
       && StepsRan(seg[..cuts[k]], cuts, k)
       && if r.Ok? then k == |INIT_STEPS| && cuts[k] == |seg|
          else k < |INIT_STEPS| && StepRan(INIT_STEPS[k], seg[cuts[k]..], r)
  }

  /** A further successful step extends the steps run. */
  lemma {:induction false} StepsExtend(seg: seq<Event>, cuts: seq<nat>, k: nat, more: seq<Event>)
    requires k < |INIT_STEPS| && StepsRan(seg, cuts, k) && StepRan(INIT_STEPS[k], more, Ok(()))
    ensures StepsRan(seg + more, cuts + [|seg + more|], k + 1)
  {
    var s := seg + more;
    var c := cuts + [|s|];
    forall i | 0 <= i < k + 1
      ensures StepRan(INIT_STEPS[i], s[c[i]..c[i + 1]], Ok(()))
    {
      if i < k {
        assert cuts[i] <= cuts[i + 1];
        assert s[c[i]..c[i + 1]] == seg[cuts[i]..cuts[i + 1]];
      } else {
        assert s[c[i]..c[i + 1]] == more;
      }
    }
  }

  /** A failed step after `k` successful ones ends `initialize` with its error. */
  lemma {:induction false} StepsStop(seg: seq<Event>, cuts: seq<nat>, k: nat, more: seq<Event>, r: Result<()>)
    requires k < |INIT_STEPS| && StepsRan(seg, cuts, k) && StepRan(INIT_STEPS[k], more, r) && r.Err?
    ensures InitRan(seg + more, cuts, r)
  {
    var s := seg + more;
    assert s[..cuts[k]] == seg;
    assert s[cuts[k]..] == more;
  }

  /** All seven steps succeeded: `initialize` returns `Ok`. */
  lemma {:induction false} StepsDone(seg: seq<Event>, cuts: seq<nat>)
    requires StepsRan(seg, cuts, |INIT_STEPS|)
    ensures InitRan(seg, cuts, Ok(()))
  {
    assert seg[..cuts[|INIT_STEPS|]] == seg;
  }

  /** The first command of a step. */
  function FirstCommand(s: InitStep): CmdIf.Command {
    match s
    case Send(c) => c
    case Pages(op) => CmdIf.QueryPagesCmd(QueryPagesCodec.QueryPages(op))
  }

  /**
   * A successful `initialize` began its steps with ENABLE_HCA, QUERY_ISSI,
   * SET_ISSI 1, QUERY_PAGES for boot pages, QUERY_HCA_CAP 1, QUERY_PAGES
   * for init pages and INIT_HCA, in this order, and INIT_HCA was its last
   * call.
   */
  lemma {:induction false} InitOrder(seg: seq<Event>, cuts: seq<nat>)
    requires InitRan(seg, cuts, Ok(()))
    ensures |cuts| == 8 && |seg| >= 7
    ensures forall i :: 0 <= i < 7 ==> cuts[i] < cuts[i + 1] && seg[cuts[i]].command == FirstCommand(INIT_STEPS[i])
    ensures seg[0].command == CmdIf.HcaCmd(HcaCodec.EnableHCA)
    ensures seg[|seg| - 1].command == CmdIf.HcaCmd(HcaCodec.InitHCA)
  {
    assert seg[..cuts[7]] == seg;
    assert StepsRan(seg, cuts, 7);
    forall i | 0 <= i < 7
      ensures cuts[i] < cuts[i + 1] && seg[cuts[i]].command == FirstCommand(INIT_STEPS[i])
    {
      assert cuts[i] <= cuts[i + 1];
      var part := seg[cuts[i]..cuts[i + 1]];
      StepFirst(INIT_STEPS[i], part, Ok(()));
      assert part[0] == seg[cuts[i]];
    }
    assert cuts[0] < cuts[1] < cuts[2] < cuts[3] < cuts[4] < cuts[5] < cuts[6] < cuts[7];
    var last := seg[cuts[6]..cuts[7]];
    assert INIT_STEPS[6] == Send(CmdIf.HcaCmd(HcaCodec.InitHCA));
    assert StepRan(INIT_STEPS[6], last, Ok(()));
    assert last[|last| - 1] == seg[|seg| - 1];
  }

  /** Every step makes at least one call, and its first is the step's own. */
  lemma StepFirst(s: InitStep, seg: seq<Event>, r: Result<()>)
    requires StepRan(s, seg, r)
    ensures |seg| >= 1 && seg[0].command == FirstCommand(s)
  {
  }

  /**
   * A page request makes one or two calls; the second follows only a
   * non-zero page count, granting pages for a positive count and asking
   * for pages back for a negative one.
   */
  lemma {:induction false} PageRequestCalls(opMod: QueryPagesCodec.QueryPagesOpMod, seg: seq<Event>, r: Result<()>)
    requires PageRequestRan(opMod, seg, r)
    ensures 1 <= |seg| <= 2
    ensures r.Ok? ==> seg[0].answer.Ok?
    ensures |seg| == 2 ==>
              && seg[0].answer.Ok? && seg[1].command.ManagePagesCmd?
              && var n := seg[0].answer.value.qo.numPages;
                 && n != 0
                 && (seg[1].command.m.opMod == ManagePagesCodec.AllocationSuccess <==> n > 0)
                 && (seg[1].command.m.opMod == ManagePagesCodec.HCAReturnPages <==> n < 0)
  {
    if seg[0].answer.Ok? {
      var rest := seg[1..];
      assert CountHandled(seg[0].answer.value.qo.numPages, rest, r);
      assert |seg| == 2 ==> rest[0] == seg[1];
    }
  }

  // ---------------------------------------------------------------------
  // The transport

  class VfioCmdIf {
    const dma: DmaAllocator.Allocator
    /** The page holding the command queue entry, and the entry at its start. */
    const cqeRegion: DmaAllocator.AllocationGuard
    const cqe: Cqe.Entry
    /** BAR 0; the init segment is its first 0x1000 bytes. */
    const bar0: array<byte>
    /** The pages given to the device, by device address. */
    var managedPages: map<u64, DmaAllocator.AllocationGuard>
    /** `firmware(n, input)` is the device's completion of the n-th command rung in. */
    const firmware: (nat, seq<byte>) -> Completion
    var step: nat
    /** The calls of `DoCommand`, oldest first. */
    ghost var log: seq<Event>

    /**
     * The state `new` leaves: the allocator over the whole DMA region, the
     * entry's page taken from it (a fresh allocator always has one), the
     * entry's address programmed into the init segment, and no pages given
     * to the device yet.
     */
    constructor (bar0: array<byte>, firmware: (nat, seq<byte>) -> Completion)
      requires bar0.Length >= INIT_SEGMENT_LEN
      ensures Valid() && fresh(dma) && fresh(dma.memory) && fresh(dma.used)
      ensures this.bar0 == bar0 && this.firmware == firmware
      ensures managedPages == map[] && step == 0 && log == []
      ensures dma.live == {cqeRegion}
      ensures bar0[..] == Overwrite(old(bar0[..]), CMDQ_PHY_ADDR_HI, BE64(cqeRegion.Address()))
      ensures FromBE32(bar0[CMDQ_PHY_ADDR_HI..CMDQ_PHY_ADDR_HI + 4]) * 0x1_0000_0000
              + FromBE32(bar0[CMDQ_PHY_ADDR_LO..CMDQ_PHY_ADDR_LO + 4]) == cqeRegion.Address()
      modifies bar0
    {
      var memory := new byte[0x800_0000];
      var allocator := new DmaAllocator.Allocator(memory, 0x1000_0000, 0x1000);
      assert DmaAllocator.FreeRun(allocator.used[..], 0, 1);
      var page := allocator.Alloc(1);
      var entry := new Cqe.Entry(memory, page.value.offset);
      this.dma := allocator;
      this.cqeRegion := page.value;
      this.cqe := entry;
      this.bar0 := bar0;
      this.firmware := firmware;
      managedPages := map[];
      step := 0;
      log := [];
      new;
      SetupCmdqPhyAddr(cqeRegion.Address());
    }

    ghost predicate Valid()
      reads this`managedPages, dma, dma.used, dma.live
    {
      && dma.Valid()
      && dma.memory.Length == DMA_LEN && dma.granularity == PAGE_SIZE && dma.base == DMA_BASE
      && cqeRegion in dma.live && cqeRegion.length == PAGE_SIZE
      && cqe.mem == dma.memory && cqe.offset == cqeRegion.offset && cqe.Valid()
      && bar0.Length >= INIT_SEGMENT_LEN && bar0 != dma.memory
      && (forall a :: a in managedPages ==>
            && managedPages[a] in dma.live && managedPages[a] != cqeRegion
            && managedPages[a].Address() == a && managedPages[a].length == PAGE_SIZE)
    }

    /**
     * `setup_cmdq_phy_addr`: the entry's address, high word at 0x10 and low
     * word at 0x14 of the init segment, each big-endian; the two words
     * reassemble the address.
     */
    method SetupCmdqPhyAddr(ptr: u64)
      requires bar0.Length >= INIT_SEGMENT_LEN
      modifies bar0
      ensures bar0[..] == Overwrite(old(bar0[..]), CMDQ_PHY_ADDR_HI, BE64(ptr))
      ensures FromBE32(bar0[CMDQ_PHY_ADDR_HI..CMDQ_PHY_ADDR_HI + 4]) * 0x1_0000_0000
              + FromBE32(bar0[CMDQ_PHY_ADDR_LO..CMDQ_PHY_ADDR_LO + 4]) == ptr
    {
      OverwriteAdjacent(bar0[..], CMDQ_PHY_ADDR_HI, BE32(Hi32(ptr)), BE32(Lo32(ptr)));
      Memory.Write(bar0, CMDQ_PHY_ADDR_HI, BE32(Hi32(ptr)));
      Memory.Write(bar0, CMDQ_PHY_ADDR_LO, BE32(Lo32(ptr)));
      Cqe.PointerReassembles(old(bar0[..]), CMDQ_PHY_ADDR_HI, ptr);
    }

    /**
     * The device completes the command: it writes the reply into the
     * entry's output bytes and into the output blocks `outs` (slots from
     * memory index `s1` on), then the status byte.
     */
    method DeviceStep(c: Completion, outs: seq<Mailboxes.Mailbox>, ghost s1: nat, ghost a1: nat)
      requires cqe.Valid() && Mailboxes.Placed(outs, cqe.mem, s1, a1)
      requires s1 + 0x400 * |outs| <= cqe.mem.Length
      requires cqe.offset + Cqe.CQE_LEN <= s1 || s1 + 0x400 * |outs| <= cqe.offset
      modifies cqe.mem
      ensures cqe.mem[..] == DeviceMemory(old(cqe.mem[..]), cqe.offset, s1, |outs|, Reply(c, |outs|), 2 * c.code)
    {
      ghost var m0 := cqe.mem[..];
      var reply := Resize(c.data, 0x10 + 0x200 * |outs|);
      Memory.Write(cqe.mem, cqe.offset + Cqe.CMD_OUTPUT_INLINE, reply[..0x10]);
      ghost var m1 := cqe.mem[..];
      var i := 0;
      while i < |outs|
        invariant 0 <= i <= |outs|
        invariant cqe.mem[..] == AfterBlocks(m1, s1, reply, i)
      {
        var at := outs[i].offset;
        assert at == s1 + 0x400 * i;
        Memory.Write(cqe.mem, at, Piece(reply, i));
        i := i + 1;
      }
      Memory.Write(cqe.mem, cqe.offset + Cqe.STATUS, [2 * c.code]);
    }

    /**
     * The reply as `exec_command` gathers it: the 16 output bytes of the
     * entry, then 0x200 bytes of each output block in chain order, resized
     * to `outlen`.
     */
    method ReadOutput(outs: seq<Mailboxes.Mailbox>, ghost s1: nat, ghost a1: nat, outlen: nat) returns (output: seq<byte>)
      requires cqe.Valid() && Mailboxes.Placed(outs, cqe.mem, s1, a1)
      requires s1 + 0x400 * |outs| <= cqe.mem.Length
      ensures output == Resize(cqe.mem[cqe.offset + 0x20..cqe.offset + 0x30] + Gathered(cqe.mem[..], s1, |outs|), outlen)
    {
      var inline := ReadInline();
      var blocks := ReadBlocks(outs, s1, a1);
      output := Resize(inline + blocks, outlen);
    }

    /** The 16 output bytes of the entry, read one `read_u8` at a time. */
    method ReadInline() returns (inline: seq<byte>)
      requires cqe.Valid()
      ensures inline == cqe.mem[cqe.offset + 0x20..cqe.offset + 0x30]
    {
      inline := [];
      var i := 0;
      while i < 0x10
        invariant 0 <= i <= 0x10
        invariant inline == cqe.Image()[Cqe.CMD_OUTPUT_INLINE..Cqe.CMD_OUTPUT_INLINE + i]
      {
        var b := cqe.ReadU8(Cqe.CMD_OUTPUT_INLINE + i);
        inline := inline + [b];
        i := i + 1;
      }
      EntrySlice(cqe.mem[..], cqe.offset, 0x20, 0x10);
    }

    /** 0x200 bytes of each output block, in chain order. */
    method ReadBlocks(outs: seq<Mailboxes.Mailbox>, ghost s1: nat, ghost a1: nat) returns (blocks: seq<byte>)
      requires cqe.Valid() && Mailboxes.Placed(outs, cqe.mem, s1, a1)
      requires s1 + 0x400 * |outs| <= cqe.mem.Length
      ensures blocks == Gathered(cqe.mem[..], s1, |outs|)
    {
      blocks := [];
      var k := 0;
      while k < |outs|
        invariant 0 <= k <= |outs|
        invariant blocks == Gathered(cqe.mem[..], s1, k)
      {
        var at := outs[k].offset;
        assert at == s1 + 0x400 * k;
        var chunk := Memory.Read(cqe.mem, at, 0x200);
        blocks := blocks + chunk;
        k := k + 1;
      }
    }

    /** `Valid` depends on the allocator's state and the page map only. */
    twostate lemma StillValid()
      requires old(Valid())
      requires unchanged(this`managedPages, dma, dma.used) && forall g :: g in dma.live ==> unchanged(g)
      ensures Valid()
    {
      assert dma.live == old(dma.live);
    }

    /** Nor does `Valid` notice a bitmap written and restored, or a guard added and dropped again. */
    twostate lemma ValidRestored()
      requires old(Valid())
      requires unchanged(this`managedPages) && dma.used[..] == old(dma.used[..]) && dma.live == old(dma.live)
      requires forall g :: g in dma.live ==> unchanged(g)
      ensures Valid()
    {
      forall g | g in dma.live
        ensures dma.GuardHeld(g)
      {
        assert old(dma.GuardHeld(g));
        forall i | g.region.value.start <= i < g.region.value.start + g.region.value.count
          ensures dma.used[i]
        {
          assert old(dma.used[..])[i] == dma.used[..][i];
        }
      }
    }

    /** The scratch region of a command and the entry's page are different live runs, so apart. */
    lemma ScratchApart(region: DmaAllocator.AllocationGuard)
      requires Valid() && region in dma.live && region != cqeRegion
      ensures cqe.offset + PAGE_SIZE <= region.offset || region.offset + region.length <= cqe.offset
    {
      assert dma.GuardHeld(region) && dma.GuardHeld(cqeRegion);
      assert DmaAllocator.Disjoint(region.region.value, cqeRegion.region.value);
    }

    /** `write_u8` of each of `bytes` in turn, from entry byte `at` on. */
    method WriteInline(at: nat, bytes: seq<byte>)
      requires cqe.Valid() && at + |bytes| <= Cqe.CQE_LEN
      modifies cqe.mem
      ensures cqe.mem[..] == Overwrite(old(cqe.mem[..]), cqe.offset + at, bytes)
      ensures cqe.Image() == Overwrite(old(cqe.Image()), at, bytes)
    {
      ghost var m0 := cqe.mem[..];
      ghost var e0 := cqe.Image();
      var i := 0;
      while i < |bytes|
        invariant 0 <= i <= |bytes|
        invariant cqe.mem[..] == Overwrite(m0, cqe.offset + at, bytes[..i])
        invariant cqe.Image() == Overwrite(e0, at, bytes[..i])
      {
        OverwriteAdjacent(m0, cqe.offset + at, bytes[..i], [bytes[i]]);
        OverwriteAdjacent(e0, at, bytes[..i], [bytes[i]]);
        assert bytes[..i] + [bytes[i]] == bytes[..i + 1];
        cqe.WriteU8(at + i, bytes[i]);
        i := i + 1;
      }
      assert bytes[..i] == bytes;
    }


    /** The entry's first four writes in `exec_command`. */
    method WriteHead(inLen: u32)
      requires cqe.Valid()
      modifies cqe.mem
      ensures cqe.Image() == HeadImage(old(cqe.Image()), inLen)
      ensures cqe.mem[..] == Overwrite(old(cqe.mem[..]), cqe.offset, cqe.Image())
    {
      ghost var m0 := cqe.mem[..];
      ghost var e0 := cqe.Image();
      cqe.WriteU8(Cqe.CMD_TYPE, 7);
      ghost var e1 := cqe.Image();
      cqe.SetInputMb(0);
      ghost var e2 := cqe.Image();
      cqe.SetOutputMb(0);
      ghost var e3 := cqe.Image();
      cqe.WriteU32(Cqe.INPUT_LENGTH, inLen);
      HeadWrites(e0, inLen, e1, e2, e3, cqe.Image());
      EntryOnly(m0, cqe.mem[..]);
    }

    /**
     * Memory `m` differs from `m0` only inside the entry: `m0` with the
     * entry's new image written over it.
     */
    lemma EntryOnly(m0: seq<byte>, m: seq<byte>)
      requires cqe.Valid() && |m0| == |m| == cqe.mem.Length
      requires forall j :: 0 <= j < |m| && !(cqe.offset <= j < cqe.offset + Cqe.CQE_LEN) ==> m[j] == m0[j]
      ensures m == Overwrite(m0, cqe.offset, m[cqe.offset..cqe.offset + Cqe.CQE_LEN])
    {
      OverwriteAt(m0, cqe.offset, m[cqe.offset..cqe.offset + Cqe.CQE_LEN]);
    }


    /**
     * `build_mailbox` with token 0 over the scratch region: the chain's
     * blocks, in slots from the allocator's next one on, and nothing
     * written outside them.
     */
    method BuildChain(mba: Mailboxes.MailboxAllocator, data: seq<byte>) returns (r: Result<seq<Mailboxes.Mailbox>>)
      requires cqe.Valid() && mba.Valid() && mba.mem == cqe.mem && mba.len == SCRATCH_LEN && mba.allocationOffset <= SCRATCH_LEN
      requires cqe.offset + Cqe.CQE_LEN <= mba.start || mba.start + SCRATCH_LEN <= cqe.offset
      modifies cqe.mem, mba
      ensures r.Ok? <==> data == [] || old(mba.allocationOffset) + 0x400 * Mailboxes.NumChunks(|data|) <= SCRATCH_LEN
      ensures r.Err? ==> r.error == Panic
      ensures r.Ok? ==>
                && |r.value| == Mailboxes.NumChunks(|data|)
                && mba.allocationOffset == old(mba.allocationOffset) + 0x400 * |r.value| <= SCRATCH_LEN
                && Mailboxes.Placed(r.value, cqe.mem, old(mba.NextSlot()), old(mba.NextAddress()))
                && cqe.Image() == old(cqe.Image())
                && Keeps(old(cqe.mem[..]), cqe.mem[..], cqe.offset, old(mba.NextSlot()), old(mba.NextSlot()) + 0x400 * |r.value|)
      ensures r.Ok? ==>
                && cqe.mem[..] == Mailboxes.Built(old(cqe.mem[..]), old(mba.NextSlot()), old(mba.NextAddress()), 0, Mailboxes.Chunks(data))
                && Mailboxes.Holds(cqe.mem[..], old(cqe.mem[..]), old(mba.NextSlot()), old(mba.NextAddress()), 0, Mailboxes.Chunks(data))
    {
      ghost var m := cqe.mem[..];
      ghost var s0 := mba.NextSlot();
      ghost var a0 := mba.NextAddress();
      r := mba.BuildMailbox(0, data);
      if r.Ok? {
        ghost var chunks := Mailboxes.Chunks(data);
        Mailboxes.NoChunks(data);
        BuiltKeeps(m, m, s0, a0, 0, chunks, cqe.offset, s0, s0 + 0x400 * |chunks|);
        BuiltKeepsEntry(m, s0, a0, 0, chunks, cqe.offset);
        Mailboxes.BuiltHolds(m, s0, a0, 0, chunks);
      }
    }

    /**
     * The input half of `exec_command`: the head, the first 16 input bytes
     * inline, the input chain for the rest from the start of the scratch
     * region and, when that chain is not empty, its pointer.  An input
     * shorter than 16 bytes panics when sliced; a chain past the region
     * panics in the mailbox allocator.
     */
    method PrepareInput(mba: Mailboxes.MailboxAllocator, input: seq<byte>) returns (r: Result<()>)
      requires cqe.Valid() && mba.Valid() && mba.mem == cqe.mem && mba.allocationOffset == 0 && mba.len == SCRATCH_LEN
      requires cqe.offset + Cqe.CQE_LEN <= mba.start || mba.start + SCRATCH_LEN <= cqe.offset
      modifies cqe.mem, mba
      ensures r.Ok? <==> |input| >= 0x10 && 0x400 * Mailboxes.NumChunks(|input| - 0x10) <= SCRATCH_LEN
      ensures r.Err? ==> r.error == Panic
      ensures r.Ok? ==>
                && mba.allocationOffset == 0x400 * Mailboxes.NumChunks(|input| - 0x10)
                && cqe.Image() == InputHalf(old(cqe.Image()), input[..0x10], |input| % 0x1_0000_0000, InPointer(|input|, mba.address))
                && Keeps(old(cqe.mem[..]), cqe.mem[..], cqe.offset, mba.start, mba.start + mba.allocationOffset)
                && Mailboxes.Holds(cqe.mem[..], old(cqe.mem[..]), mba.start, mba.address, 0, Mailboxes.Chunks(input[0x10..]))
    {
      ghost var m0 := cqe.mem[..];
      ghost var e0 := cqe.Image();
      ghost var e := cqe.offset;
      var inLen: u32 := |input| % 0x1_0000_0000;
      WriteHead(inLen);
      if |input| < 0x10 {
        return Err(Panic);
      }
      WriteInline(Cqe.CMD_INPUT_INLINE, input[..0x10]);
      ghost var e5 := cqe.Image();
      ghost var m := cqe.mem[..];
      EntryOnly(m0, m);
      EntryKeeps(m0, m0, m, e, mba.start, mba.start);
      r := InputChain(mba, input[0x10..]);
      if r.Err? {
        return;
      }
      ghost var hi := mba.start + mba.allocationOffset;
      KeepsWiden(m0, m, e, mba.start, hi, mba.start, mba.start);
      KeepsTrans(m0, m, cqe.mem[..], e, mba.start, hi, mba.start, hi);
      WriteBeforeChain(cqe.mem[..], m0, e, m[e..e + Cqe.CQE_LEN], mba.start, mba.address, Mailboxes.Chunks(input[0x10..]));
      InputWrites(e0, input[..0x10], inLen, InPointer(|input|, mba.address), e5, cqe.Image());
    }

    /**
     * The input chain for the bytes past the inline 16, from the start of
     * the scratch region, and its pointer in the entry when it is not
     * empty.
     */
    method InputChain(mba: Mailboxes.MailboxAllocator, rest: seq<byte>) returns (r: Result<()>)
      requires cqe.Valid() && mba.Valid() && mba.mem == cqe.mem && mba.allocationOffset == 0 && mba.len == SCRATCH_LEN
      requires cqe.offset + Cqe.CQE_LEN <= mba.start || mba.start + SCRATCH_LEN <= cqe.offset
      modifies cqe.mem, mba
      ensures r.Ok? <==> 0x400 * Mailboxes.NumChunks(|rest|) <= SCRATCH_LEN
      ensures r.Err? ==> r.error == Panic
      ensures r.Ok? ==>
                && mba.allocationOffset == 0x400 * Mailboxes.NumChunks(|rest|)
                && (|| cqe.Image() == Overwrite(old(cqe.Image()), Cqe.INPUT_MB_PTR_HI, BE64(InPointer(|rest| + 0x10, mba.address)))
                    || (InPointer(|rest| + 0x10, mba.address) == 0 && cqe.Image() == old(cqe.Image())))
                && Keeps(old(cqe.mem[..]), cqe.mem[..], cqe.offset, mba.start, mba.start + mba.allocationOffset)
                && Mailboxes.Holds(cqe.mem[..], old(cqe.mem[..]), mba.start, mba.address, 0, Mailboxes.Chunks(rest))
    {
      ghost var m0 := cqe.mem[..];
      assert mba.NextSlot() == mba.start && mba.NextAddress() == mba.address;
      var inMbs := BuildChain(mba, rest);
      if inMbs.Err? {
        return Err(inMbs.error);
      }
      ghost var m := cqe.mem[..];
      assert Mailboxes.Holds(m, m0, mba.start, mba.address, 0, Mailboxes.Chunks(rest));
      ghost var hi := mba.start + mba.allocationOffset;
      if |inMbs.value| > 0 {
        LinkInput(inMbs.value[0].address, m0, mba.start, hi, Mailboxes.Chunks(rest));
      }
      r := Ok(());
    }

    /**
     * `set_input_mb` with the address `ptr` of the first block of a chain
     * held from slot index `s0`: the chain and everything outside the entry
     * and `s0 .. hi` stay as they were.
     */
    method LinkInput(ptr: u64, ghost m0: seq<byte>, ghost s0: nat, ghost hi: nat, ghost chunks: seq<seq<byte>>)
      requires cqe.Valid() && Keeps(m0, cqe.mem[..], cqe.offset, s0, hi)
      requires Mailboxes.Holds(cqe.mem[..], m0, s0, ptr, 0, chunks) && 0x400 * |chunks| <= SCRATCH_LEN
      requires cqe.offset + Cqe.CQE_LEN <= s0 || s0 + SCRATCH_LEN <= cqe.offset
      modifies cqe.mem
      ensures cqe.Image() == Overwrite(old(cqe.Image()), Cqe.INPUT_MB_PTR_HI, BE64(ptr))
      ensures Keeps(m0, cqe.mem[..], cqe.offset, s0, hi)
      ensures Mailboxes.Holds(cqe.mem[..], m0, s0, ptr, 0, chunks)
    {
      ghost var m := cqe.mem[..];
      cqe.SetInputMb(ptr);
      KeepsWrite(m0, m, cqe.mem[..], cqe.offset + Cqe.INPUT_MB_PTR_HI, BE64(ptr), cqe.offset, s0, hi);
      PointerKeepsChain(m, cqe.mem[..], m0, cqe.offset, ptr, s0, ptr, chunks);
    }

    /**
     * The output half: the output length, 16 zero bytes inline, a chain of
     * `outlen` zero bytes from the allocator's next slot, its pointer when
     * the chain is not empty, token 0 and status 1.
     */
    method PrepareOutput(mba: Mailboxes.MailboxAllocator, outlen: u32) returns (r: Result<seq<Mailboxes.Mailbox>>)
      requires cqe.Valid() && mba.Valid() && mba.mem == cqe.mem && mba.len == SCRATCH_LEN && mba.allocationOffset <= SCRATCH_LEN
      requires cqe.offset + Cqe.CQE_LEN <= mba.start || mba.start + SCRATCH_LEN <= cqe.offset
      requires cqe.Image()[0x30..0x38] == Zeros(8)
      modifies cqe.mem, mba
      ensures r.Ok? <==> outlen == 0 || old(mba.allocationOffset) + 0x400 * Mailboxes.NumChunks(outlen) <= SCRATCH_LEN
      ensures r.Err? ==> r.error == Panic
      ensures r.Ok? ==>
                && |r.value| == Mailboxes.NumChunks(outlen)
                && Mailboxes.Placed(r.value, cqe.mem, old(mba.NextSlot()), old(mba.NextAddress()))
                && cqe.Image() == OutputHalf(old(cqe.Image()), if outlen == 0 then 0 else old(mba.NextAddress()), outlen)
                && Keeps(old(cqe.mem[..]), cqe.mem[..], cqe.offset, old(mba.NextSlot()), old(mba.NextSlot()) + 0x400 * |r.value|)
                && Mailboxes.Holds(cqe.mem[..], old(cqe.mem[..]), old(mba.NextSlot()), old(mba.NextAddress()), 0, Mailboxes.Chunks(Zeros(outlen)))
    {
      ghost var m0 := cqe.mem[..];
      ghost var e6 := cqe.Image();
      ghost var e := cqe.offset;
      ghost var s1 := mba.NextSlot();
      ghost var a1 := mba.NextAddress();
      ghost var e7 := Overwrite(e6, Cqe.OUTPUT_LENGTH, BE32(outlen));
      WriteOutputHead(outlen);
      ghost var e8 := cqe.Image();
      ghost var m := cqe.mem[..];
      EntryKeeps(m0, m0, m, e, s1, s1);
      var outMbs := BuildChain(mba, Zeros(outlen));
      if outMbs.Err? {
        return Err(outMbs.error);
      }
      ghost var hi := s1 + 0x400 * |outMbs.value|;
      KeepsTrans(m0, m, cqe.mem[..], e, s1, hi, s1, hi);
      WriteBeforeChain(cqe.mem[..], m0, e, m[e..e + Cqe.CQE_LEN], s1, a1, Mailboxes.Chunks(Zeros(outlen)));
      ghost var mb := cqe.mem[..];
      m := cqe.mem[..];
      var outPtr: u64 := 0;
      if |outMbs.value| > 0 {
        outPtr := outMbs.value[0].address;
      }
      ghost var e9 := WriteTail(|outMbs.value| > 0, outPtr);
      EntryKeeps(m0, m, cqe.mem[..], e, s1, hi);
      WriteKeepsChain(mb, cqe.mem[..], m0, e, cqe.Image(), s1, a1, Mailboxes.Chunks(Zeros(outlen)));
      OutputWrites(e6, outPtr, outlen, e7, e8, e9, Overwrite(e9, Cqe.TOKEN, [0]), cqe.Image());
      r := Ok(outMbs.value);
    }

    /** The output length, then 16 zero bytes of inline output. */
    method WriteOutputHead(outlen: u32)
      requires cqe.Valid()
      modifies cqe.mem
      ensures cqe.Image() == Overwrite(Overwrite(old(cqe.Image()), Cqe.OUTPUT_LENGTH, BE32(outlen)), Cqe.CMD_OUTPUT_INLINE, Zeros(16))
      ensures cqe.mem[..] == Overwrite(old(cqe.mem[..]), cqe.offset, cqe.Image())
    {
      ghost var m0 := cqe.mem[..];
      cqe.WriteU32(Cqe.OUTPUT_LENGTH, outlen);
      WriteInline(Cqe.CMD_OUTPUT_INLINE, Zeros(16));
      EntryOnly(m0, cqe.mem[..]);
    }

    /**
     * The output pointer when `setPointer`, then token 0 and status 1;
     * `e9` is the entry after the pointer.
     */
    method WriteTail(setPointer: bool, outPtr: u64) returns (ghost e9: seq<byte>)
      requires cqe.Valid()
      modifies cqe.mem
      ensures e9 == if setPointer then Overwrite(old(cqe.Image()), Cqe.OUTPUT_MB_PTR_HI, BE64(outPtr)) else old(cqe.Image())
      ensures cqe.Image() == Overwrite(Overwrite(e9, Cqe.TOKEN, [0]), Cqe.STATUS, [1])
      ensures cqe.mem[..] == Overwrite(old(cqe.mem[..]), cqe.offset, cqe.Image())
    {
      ghost var m0 := cqe.mem[..];
      if setPointer {
        cqe.SetOutputMb(outPtr);
      }
      e9 := cqe.Image();
      cqe.WriteU8(Cqe.TOKEN, 0);
      cqe.WriteU8(Cqe.STATUS, 1);
      EntryOnly(m0, cqe.mem[..]);
    }

    /**
     * The input half, then the output half after the input chain: the
     * unsigned request and both chains.
     */
    method PrepareHalves(mba: Mailboxes.MailboxAllocator, input: seq<byte>, outlen: u32) returns (r: Result<seq<Mailboxes.Mailbox>>)
      requires cqe.Valid() && mba.Valid() && mba.mem == cqe.mem && mba.allocationOffset == 0 && mba.len == SCRATCH_LEN
      requires cqe.offset + Cqe.CQE_LEN <= mba.start || mba.start + SCRATCH_LEN <= cqe.offset
      modifies cqe.mem, mba
      ensures r.Ok? <==> |input| >= 0x10 && ChainsFit(|input|, outlen)
      ensures r.Err? ==> r.error == Panic
      ensures r.Ok? ==>
                && |r.value| == Mailboxes.NumChunks(outlen)
                && Mailboxes.Placed(r.value, cqe.mem, mba.start + 0x400 * Mailboxes.NumChunks(|input| - 0x10),
                                    mba.address + 0x400 * Mailboxes.NumChunks(|input| - 0x10))
                && cqe.Image() == Request(old(cqe.Image()), input[..0x10], |input| % 0x1_0000_0000,
                                          InPointer(|input|, mba.address),
                                          OutPointer(|input|, outlen, mba.address), outlen)
                && Keeps(old(cqe.mem[..]), cqe.mem[..], cqe.offset, mba.start,
                         mba.start + 0x400 * (Mailboxes.NumChunks(|input| - 0x10) + Mailboxes.NumChunks(outlen)))
                && Staged(cqe.mem[..], old(cqe.mem[..]), mba.start, mba.address, input, outlen)
    {
      ghost var m0 := cqe.mem[..];
      ghost var e0 := cqe.Image();
      var inHalf := PrepareInput(mba, input);
      if inHalf.Err? {
        return Err(inHalf.error);
      }
      r := StageOutput(mba, input, outlen, m0, e0);
    }

    /**
     * The output half written after the input half, which turned entry
     * `e0` and memory `m0` into the current ones: the request and both
     * chains.
     */
    method StageOutput(mba: Mailboxes.MailboxAllocator, input: seq<byte>, outlen: u32, ghost m0: seq<byte>, ghost e0: seq<byte>)
      returns (r: Result<seq<Mailboxes.Mailbox>>)
      requires cqe.Valid() && mba.Valid() && mba.mem == cqe.mem && mba.len == SCRATCH_LEN
      requires cqe.offset + Cqe.CQE_LEN <= mba.start || mba.start + SCRATCH_LEN <= cqe.offset
      requires |input| >= 0x10 && mba.allocationOffset == 0x400 * Mailboxes.NumChunks(|input| - 0x10) <= SCRATCH_LEN
      requires |e0| == Cqe.CQE_LEN
      requires cqe.Image() == InputHalf(e0, input[..0x10], |input| % 0x1_0000_0000, InPointer(|input|, mba.address))
      requires Keeps(m0, cqe.mem[..], cqe.offset, mba.start, mba.start + mba.allocationOffset)
      requires Mailboxes.Holds(cqe.mem[..], m0, mba.start, mba.address, 0, Mailboxes.Chunks(input[0x10..]))
      modifies cqe.mem, mba
      ensures r.Ok? <==> ChainsFit(|input|, outlen)
      ensures r.Err? ==> r.error == Panic
      ensures r.Ok? ==>
                && |r.value| == Mailboxes.NumChunks(outlen)
                && Mailboxes.Placed(r.value, cqe.mem, mba.start + 0x400 * Mailboxes.NumChunks(|input| - 0x10),
                                    mba.address + 0x400 * Mailboxes.NumChunks(|input| - 0x10))
                && cqe.Image() == Request(e0, input[..0x10], |input| % 0x1_0000_0000,
                                          InPointer(|input|, mba.address),
                                          OutPointer(|input|, outlen, mba.address), outlen)
                && Keeps(m0, cqe.mem[..], cqe.offset, mba.start,
                         mba.start + 0x400 * (Mailboxes.NumChunks(|input| - 0x10) + Mailboxes.NumChunks(outlen)))
                && Staged(cqe.mem[..], m0, mba.start, mba.address, input, outlen)
    {
      ghost var kin := Mailboxes.NumChunks(|input| - 0x10);
      ghost var m1 := cqe.mem[..];
      ghost var e6 := cqe.Image();
      ghost var a1 := mba.NextAddress();
      ghost var s1 := mba.NextSlot();
      assert a1 == mba.address + 0x400 * kin && s1 == mba.start + 0x400 * kin;
      r := PrepareOutput(mba, outlen);
      if r.Err? {
        return;
      }
      assert Mailboxes.Holds(cqe.mem[..], m1, s1, a1, 0, Mailboxes.Chunks(Zeros(outlen)));
      ghost var inLen: u32 := |input| % 0x1_0000_0000;
      ghost var inPtr := InPointer(|input|, mba.address);
      ghost var outPtr := OutPointer(|input|, outlen, mba.address);
      assert (if outlen == 0 then 0 else a1) == outPtr;
      assert cqe.Image() == OutputHalf(e6, outPtr, outlen);
      HalvesRequest(e0, input[..0x10], inLen, inPtr, outPtr, outlen);
      StagedChains(m0, m1, cqe.mem[..], mba.start, mba.address, s1, a1, |r.value|, input, outlen);
    }

    /**
     * The part of `exec_command` before the doorbell: both halves, then
     * the entry's signature.
     */
    method PrepareEntry(mba: Mailboxes.MailboxAllocator, input: seq<byte>, outlen: u32) returns (r: Result<seq<Mailboxes.Mailbox>>)
      requires cqe.Valid() && mba.Valid() && mba.mem == cqe.mem && mba.allocationOffset == 0 && mba.len == SCRATCH_LEN
      requires cqe.offset + Cqe.CQE_LEN <= mba.start || mba.start + SCRATCH_LEN <= cqe.offset
      modifies cqe.mem, mba
      ensures r.Ok? <==> |input| >= 0x10 && ChainsFit(|input|, outlen)
      ensures r.Err? ==> r.error == Panic
      ensures r.Ok? ==>
                && |r.value| == Mailboxes.NumChunks(outlen)
                && Mailboxes.Placed(r.value, cqe.mem, mba.start + 0x400 * Mailboxes.NumChunks(|input| - 0x10),
                                    mba.address + 0x400 * Mailboxes.NumChunks(|input| - 0x10))
                && cqe.Image() == Cqe.SignEntry(Request(old(cqe.Image()), input[..0x10], |input| % 0x1_0000_0000,
                                                        InPointer(|input|, mba.address),
                                                        OutPointer(|input|, outlen, mba.address), outlen))
                && Keeps(old(cqe.mem[..]), cqe.mem[..], cqe.offset, mba.start, mba.start + SCRATCH_LEN)
                && Staged(cqe.mem[..], old(cqe.mem[..]), mba.start, mba.address, input, outlen)
    {
      ghost var m0 := cqe.mem[..];
      r := PrepareHalves(mba, input, outlen);
      if r.Err? {
        return;
      }
      ghost var m2 := cqe.mem[..];
      ghost var hi := mba.start + 0x400 * (Mailboxes.NumChunks(|input| - 0x10) + Mailboxes.NumChunks(outlen));
      SignRequest(m0, mba.start, hi, mba.start + SCRATCH_LEN);
      StagedEntryWrite(m2, cqe.mem[..], m0, mba.start, mba.address, input, outlen, cqe.offset, cqe.Image());
    }

    /**
     * The input chain built over `m0` up to slot index `s1`, and the
     * output chain of `kout` blocks built from `s1` over `m1`, are both
     * staged, and nothing outside the entry and those slots changed.
     */
    lemma StagedChains(m0: seq<byte>, m1: seq<byte>, m2: seq<byte>, s0: nat, a0: nat, s1: nat, a1: nat, kout: nat,
                       input: seq<byte>, outlen: nat)
      requires cqe.Valid() && |m0| == cqe.mem.Length && ChainsFit(|input|, outlen)
      requires cqe.offset + Cqe.CQE_LEN <= s0 || s0 + SCRATCH_LEN <= cqe.offset
      requires s1 == s0 + 0x400 * Mailboxes.NumChunks(|input| - 0x10) && a1 == a0 + 0x400 * Mailboxes.NumChunks(|input| - 0x10)
      requires kout == Mailboxes.NumChunks(outlen)
      requires Mailboxes.Holds(m1, m0, s0, a0, 0, Mailboxes.Chunks(input[0x10..]))
      requires Keeps(m0, m1, cqe.offset, s0, s1)
      requires Mailboxes.Holds(m2, m1, s1, a1, 0, Mailboxes.Chunks(Zeros(outlen)))
      requires Keeps(m1, m2, cqe.offset, s1, s1 + 0x400 * kout)
      ensures Staged(m2, m0, s0, a0, input, outlen)
      ensures Keeps(m0, m2, cqe.offset, s0, s0 + 0x400 * (Mailboxes.NumChunks(|input| - 0x10) + kout))
    {
      var kin := Mailboxes.NumChunks(|input| - 0x10);
      assert |Mailboxes.Chunks(input[0x10..])| == kin;
      KeepsSlots(m1, m2, cqe.offset, s1, s1 + 0x400 * kout, s0, kin);
      Mailboxes.HoldsMoved(m1, m2, m0, s0, a0, 0, Mailboxes.Chunks(input[0x10..]));
      OutputRestaled(m0, m1, m2, cqe.offset, s0, a0, kin, s1, a1, kout, outlen);
      BothStaged(m2, m0, s0, a0, kin, input, outlen);
      KeepsWiden(m0, m1, cqe.offset, s0, s1 + 0x400 * kout, s0, s1);
      KeepsTrans(m0, m1, m2, cqe.offset, s0, s1 + 0x400 * kout, s1, s1 + 0x400 * kout);
    }

    /** The entry's signature, the last write before the doorbell; it keeps to the entry. */
    method SignRequest(ghost m0: seq<byte>, ghost lo: nat, ghost hi: nat, ghost hi2: nat)
      requires cqe.Valid() && Keeps(m0, cqe.mem[..], cqe.offset, lo, hi) && hi <= hi2
      modifies cqe.mem
      ensures cqe.Image() == Cqe.SignEntry(old(cqe.Image()))
      ensures cqe.mem[..] == Overwrite(old(cqe.mem[..]), cqe.offset, cqe.Image())
      ensures Keeps(m0, cqe.mem[..], cqe.offset, lo, hi2)
    {
      ghost var m := cqe.mem[..];
      cqe.UpdateSignature();
      EntryKeeps(m0, m, cqe.mem[..], cqe.offset, lo, hi);
      KeepsWiden(m0, cqe.mem[..], cqe.offset, lo, hi2, lo, hi);
    }

    /**
     * After the doorbell: the device completes the command, then the
     * driver reads the status byte and, for error code 0, the reply from
     * the entry and the output chain.
     */
    method Complete(outs: seq<Mailboxes.Mailbox>, ghost s1: nat, ghost a1: nat, input: seq<byte>, outlen: u32) returns (r: Result<seq<byte>>)
      requires cqe.Valid() && Mailboxes.Placed(outs, cqe.mem, s1, a1) && |outs| == Mailboxes.NumChunks(outlen)
      requires s1 + 0x400 * |outs| <= cqe.mem.Length
      requires cqe.offset + Cqe.CQE_LEN <= s1 || s1 + 0x400 * |outs| <= cqe.offset
      modifies this`step, cqe.mem
      ensures step == old(step) + 1
      ensures r == Completed(firmware(old(step), input), outlen)
      ensures Keeps(old(cqe.mem[..]), cqe.mem[..], cqe.offset, s1, s1 + 0x400 * |outs|)
    {
      var c := firmware(step, input);
      ghost var m := cqe.mem[..];
      ghost var reply := Reply(c, |outs|);
      DeviceStep(c, outs, s1, a1);
      step := step + 1;
      DeviceMemoryDelivers(m, cqe.offset, s1, |outs|, reply, 2 * c.code);
      var status := cqe.ReadU8(Cqe.STATUS);
      var err := status / 2;
      if err != 0 {
        return Err(CmdIf(err));
      }
      var output := ReadOutput(outs, s1, a1, outlen);
      GatheredReply(cqe.mem[..], s1, reply, |outs|);
      assert reply[..0x10] + reply[0x10..] == reply;
      ChainCovers(outlen);
      ResizeTwice(c.data, 0x10 + 0x200 * |outs|, outlen);
      r := Ok(output);
    }

    /**
     * `exec_command` up to the doorbell, with the scratch region `region`
     * already taken: the entry and both chains prepared from the region's
     * start, then 1 written to the doorbell register.
     */
    method Ring(region: DmaAllocator.AllocationGuard, input: seq<byte>, outlen: u32) returns (r: Result<seq<Mailboxes.Mailbox>>)
      requires Valid() && region in dma.live && region != cqeRegion && region.length == SCRATCH_LEN
      modifies dma.memory, bar0
      ensures r.Ok? <==> ChainsFit(|input|, outlen)
      ensures r.Err? ==> r.error == Panic && bar0[..] == old(bar0[..])
      ensures r.Ok? ==>
                && |r.value| == Mailboxes.NumChunks(outlen)
                && Mailboxes.Placed(r.value, cqe.mem, region.offset + 0x400 * Mailboxes.NumChunks(|input| - 0x10),
                                    region.Address() + 0x400 * Mailboxes.NumChunks(|input| - 0x10))
                && region.offset + SCRATCH_LEN <= cqe.mem.Length
                && (cqe.offset + PAGE_SIZE <= region.offset || region.offset + SCRATCH_LEN <= cqe.offset)
                && cqe.Image() == Cqe.SignEntry(Request(old(cqe.Image()), input[..0x10], |input| % 0x1_0000_0000,
                                                        InPointer(|input|, region.Address()),
                                                        OutPointer(|input|, outlen, region.Address()), outlen))
                && bar0[..] == Overwrite(old(bar0[..]), CMDQ_DOORBELL, BE32(1))
                && Keeps(old(dma.memory[..]), dma.memory[..], cqe.offset, region.offset, region.offset + SCRATCH_LEN)
                && Staged(dma.memory[..], old(dma.memory[..]), region.offset, region.Address(), input, outlen)
    {
      ScratchApart(region);
      assert dma.GuardHeld(region);
      var mba := new Mailboxes.MailboxAllocator(dma.memory, region.offset, region.length, region.Address());
      r := PrepareEntry(mba, input, outlen);
      if r.Ok? {
        Memory.Write(bar0, CMDQ_DOORBELL, BE32(1));
      }
    }

    /**
     * `exec_command` with the scratch region `region` already taken: rung
     * in, completed by the device, the reply read.  `submitted` is the
     * entry as the device finds it.
     */
    method Submit(region: DmaAllocator.AllocationGuard, input: seq<byte>, outlen: u32)
      returns (r: Result<seq<byte>>, ghost submitted: seq<byte>, ghost atDoorbell: seq<byte>)
      requires Valid() && region in dma.live && region != cqeRegion && region.length == SCRATCH_LEN
      modifies this`step, dma.memory, bar0
      ensures Valid()
      ensures step == old(step) + (if ChainsFit(|input|, outlen) then 1 else 0)
      ensures r == Outcome(old(step), input, outlen)
      ensures ChainsFit(|input|, outlen) ==>
                && bar0[..] == Overwrite(old(bar0[..]), CMDQ_DOORBELL, BE32(1))
                && Keeps(old(dma.memory[..]), dma.memory[..], cqe.offset, region.offset, region.offset + SCRATCH_LEN)
                && Rung(old(dma.memory[..]), cqe.offset, region.offset, region.Address(), input, outlen,
                        submitted, atDoorbell)
      ensures !ChainsFit(|input|, outlen) ==> bar0[..] == old(bar0[..])
    {
      ghost var m0 := cqe.mem[..];
      ghost var e0 := cqe.Image();
      var outs := Ring(region, input, outlen);
      if outs.Err? {
        StillValid();
        return Err(outs.error), [], [];
      }
      submitted := cqe.Image();
      atDoorbell := cqe.mem[..];
      EntryCarriesInput(e0, atDoorbell, m0, region.offset, region.Address(), input,
                        InPointer(|input|, region.Address()), OutPointer(|input|, outlen, region.Address()), outlen);
      ghost var kin := Mailboxes.NumChunks(|input| - 0x10);
      ghost var s1 := region.offset + 0x400 * kin;
      ghost var m1 := cqe.mem[..];
      r := Complete(outs.value, s1, region.Address() + 0x400 * kin, input, outlen);
      KeepsTrans(m0, m1, cqe.mem[..], cqe.offset, region.offset, region.offset + SCRATCH_LEN, s1, s1 + 0x400 * |outs.value|);
      StillValid();
    }

    /** What `exec_command` returns for the command rung in as the n-th. */
    function Outcome(n: nat, input: seq<byte>, outlen: u32): (r: Result<seq<byte>>)
      ensures r.Ok? ==> |r.value| == outlen
      ensures !ChainsFit(|input|, outlen) ==> r == Err(Panic)
    {
      if ChainsFit(|input|, outlen) then Completed(firmware(n, input), outlen) else Err(Panic)
    }

    /**
     * `exec_command`: a 256-page scratch region taken from the allocator
     * (none free is the `unwrap` panic), the command submitted through it,
     * and the region given back on every return.  `scratch` is the first
     * unit of the region taken.
     */
    method ExecCommand(input: seq<byte>, outlen: u32)
      returns (r: Result<seq<byte>>, ghost submitted: seq<byte>, ghost scratch: nat, ghost atDoorbell: seq<byte>)
      requires Valid()
      modifies this`step, dma, dma.used, dma.memory, bar0
      ensures Valid()
      ensures dma.used[..] == old(dma.used[..]) && dma.live == old(dma.live)
      ensures r == Exec(old(dma.used[..]), old(step), input, outlen)
      ensures step == old(step) + (if Rings(old(dma.used[..]), input, outlen) then 1 else 0)
      ensures Rings(old(dma.used[..]), input, outlen) ==>
                && DmaAllocator.FreeRun(old(dma.used[..]), scratch, SCRATCH_PAGES)
                && bar0[..] == Overwrite(old(bar0[..]), CMDQ_DOORBELL, BE32(1))
                && Keeps(old(dma.memory[..]), dma.memory[..], cqe.offset, PAGE_SIZE * scratch, PAGE_SIZE * scratch + SCRATCH_LEN)
                && Executed(old(dma.memory[..]), cqe.offset, scratch, input, outlen, submitted, atDoorbell)
      ensures !Rings(old(dma.used[..]), input, outlen) ==> bar0[..] == old(bar0[..])
    {
      ghost var bits := dma.used[..];
      ghost var m0 := dma.memory[..];
      var taken := TakeScratch();
      if taken.None? {
        ValidRestored();
        return Err(Panic), [], 0, [];
      }
      var region := taken.value;
      scratch := region.region.value.start;
      assert Rings(bits, input, outlen) == ChainsFit(|input|, outlen);
      assert Exec(bits, step, input, outlen) == Outcome(step, input, outlen);
      r, submitted, atDoorbell := SubmitScratch(region, bits, scratch, m0, input, outlen);
      ValidRestored();
    }

    /**
     * The rest of `exec_command` once the scratch region `region` is taken
     * from bitmap `bits`: the command submitted through it, and the region
     * handed back when the guard is dropped.
     */
    method SubmitScratch(region: DmaAllocator.AllocationGuard, ghost bits: seq<bool>, ghost scratch: nat, ghost m0: seq<byte>,
                         input: seq<byte>, outlen: u32)
      returns (r: Result<seq<byte>>, ghost submitted: seq<byte>, ghost atDoorbell: seq<byte>)
      requires Valid() && region in dma.live && region != cqeRegion && region.allocator == dma
      requires dma.memory[..] == m0
      requires region.region.Some? && region.region.value.count == SCRATCH_PAGES && region.length == SCRATCH_LEN
      requires region.region.value.start == scratch && region.offset == PAGE_SIZE * scratch
      requires region.Address() == DMA_BASE + PAGE_SIZE * scratch
      requires DmaAllocator.FreeRun(bits, scratch, SCRATCH_PAGES)
      requires dma.used[..] == DmaAllocator.Mark(bits, scratch, SCRATCH_PAGES, true)
      modifies this`step, region, dma, dma.used, dma.memory, bar0
      ensures dma.Valid() && dma.used[..] == bits && dma.live == old(dma.live) - {region}
      ensures step == old(step) + (if ChainsFit(|input|, outlen) then 1 else 0)
      ensures r == Outcome(old(step), input, outlen)
      ensures ChainsFit(|input|, outlen) ==>
                && bar0[..] == Overwrite(old(bar0[..]), CMDQ_DOORBELL, BE32(1))
                && Keeps(m0, dma.memory[..], cqe.offset, PAGE_SIZE * scratch, PAGE_SIZE * scratch + SCRATCH_LEN)
                && Executed(m0, cqe.offset, scratch, input, outlen, submitted, atDoorbell)
      ensures !ChainsFit(|input|, outlen) ==> bar0[..] == old(bar0[..])
    {
      r, submitted, atDoorbell := Submit(region, input, outlen);
      GiveBack(region, bits);
    }

    /** `alloc(256).unwrap()` on the DMA allocator, short of the panic. */
    method TakeScratch() returns (taken: Option<DmaAllocator.AllocationGuard>)
      requires Valid()
      modifies dma, dma.used
      ensures Valid()
      ensures taken.None? <==> !exists s :: DmaAllocator.FreeRun(old(dma.used[..]), s, SCRATCH_PAGES)
      ensures taken.None? ==> dma.used[..] == old(dma.used[..]) && dma.live == old(dma.live)
      ensures dma.memory[..] == old(dma.memory[..])
      ensures taken.Some? ==>
                var g := taken.value;
                && fresh(g) && g in dma.live && g != cqeRegion && g.allocator == dma
                && g.region.Some? && g.region.value.count == SCRATCH_PAGES
                && DmaAllocator.FreeRun(old(dma.used[..]), g.region.value.start, SCRATCH_PAGES)
                && dma.used[..] == DmaAllocator.Mark(old(dma.used[..]), g.region.value.start, SCRATCH_PAGES, true)
                && dma.live == old(dma.live) + {g}
                && g.length == SCRATCH_LEN && g.offset == PAGE_SIZE * g.region.value.start
                && g.Address() == DMA_BASE + PAGE_SIZE * g.region.value.start
    {
      taken := dma.Alloc(SCRATCH_PAGES);
    }

    /** Dropping the scratch region's guard hands its units back. */
    method GiveBack(g: DmaAllocator.AllocationGuard, ghost bits: seq<bool>)
      requires dma.Valid() && g in dma.live && g.allocator == dma && g.region.Some? && g.region.value.count == SCRATCH_PAGES
      requires DmaAllocator.FreeRun(bits, g.region.value.start, SCRATCH_PAGES)
      requires dma.used[..] == DmaAllocator.Mark(bits, g.region.value.start, SCRATCH_PAGES, true)
      modifies g, dma, dma.used
      ensures dma.Valid() && dma.used[..] == bits && dma.live == old(dma.live) - {g}
    {
      ghost var start := g.region.value.start;
      g.Drop();
      DmaAllocator.MarkThenClear(bits, start, SCRATCH_PAGES);
    }

    /** A command reaches the doorbell: a scratch region is free and both chains fit it. */
    ghost predicate Rings(bits: seq<bool>, input: seq<byte>, outlen: u32) {
      (exists s :: DmaAllocator.FreeRun(bits, s, SCRATCH_PAGES)) && ChainsFit(|input|, outlen)
    }

    /** What `exec_command` returns for bitmap `bits` when `n` commands were rung in before. */
    ghost function Exec(bits: seq<bool>, n: nat, input: seq<byte>, outlen: u32): (r: Result<seq<byte>>)
      ensures r.Ok? ==> Rings(bits, input, outlen) && |r.value| == outlen
      ensures !Rings(bits, input, outlen) ==> r == Err(Panic)
    {
      if exists s :: DmaAllocator.FreeRun(bits, s, SCRATCH_PAGES) then Outcome(n, input, outlen) else Err(Panic)
    }

    /**
     * `do_command`: the command's bytes sent with its `outlen` cut to 32
     * bits, and the reply judged by its header.  The call is logged.
     */
    method DoCommand(c: CmdIf.Command) returns (r: Result<CmdIf.Output>)
      requires Valid()
      modifies this`step, this`log, dma, dma.used, dma.memory, bar0
      ensures Valid()
      ensures dma.used[..] == old(dma.used[..]) && dma.live == old(dma.live)
      ensures r == CmdIf.DoCommand(c, Exec(old(dma.used[..]), old(step), CmdIf.ToBytes(c), CmdIf.OutlenU32(c)))
      ensures step == old(step) + (if Rings(old(dma.used[..]), CmdIf.ToBytes(c), CmdIf.OutlenU32(c)) then 1 else 0)
      ensures log == old(log) + [Event(c, r)]
    {
      var reply;
      ghost var submitted, scratch, atDoorbell;
      reply, submitted, scratch, atDoorbell := ExecCommand(CmdIf.ToBytes(c), CmdIf.OutlenU32(c));
      r := CmdIf.DoCommand(c, reply);
      log := log + [Event(c, r)];
    }

    /** `alloc(1)` on the DMA allocator: a page whose address the map does not hold yet. */
    method TakePage() returns (page: Option<DmaAllocator.AllocationGuard>)
      requires Valid()
      modifies dma, dma.used
      ensures Valid()
      ensures page.None? <==> !exists s :: DmaAllocator.FreeRun(old(dma.used[..]), s, 1)
      ensures page.None? ==> dma.live == old(dma.live) && dma.used[..] == old(dma.used[..])
      ensures page.Some? ==>
                var g := page.value;
                && fresh(g) && g in dma.live && dma.live == old(dma.live) + {g}
                && g.region.Some? && g.region.value.count == 1
                && DmaAllocator.FreeRun(old(dma.used[..]), g.region.value.start, 1)
                && dma.used[..] == DmaAllocator.Mark(old(dma.used[..]), g.region.value.start, 1, true)
                && g.Address() == PageAddress(g.region.value.start)
                && g.length == PAGE_SIZE && g.Address() < 0x1_0000_0000_0000_0000
                && g.Address() !in managedPages
    {
      page := dma.Alloc(1);
      if page.Some? {
        var g := page.value;
        forall a | a in managedPages
          ensures a != g.Address()
        {
          var h := managedPages[a];
          assert h in old(dma.live) && h != g;
          assert DmaAllocator.Disjoint(g.region.value, h.region.value);
          assert g.region.value.start != h.region.value.start;
        }
      }
    }

    /**
     * The allocation loop of `handle_page_request`: `n` pages, each put
     * into the map under its address as it is taken.  `ok` is false when
     * the allocator ran out (the `unwrap` panic), with the pages taken so
     * far left in the map.
     */
    method AllocatePages(n: nat) returns (ok: bool, pages: seq<u64>)
      requires Valid()
      modifies this`managedPages, dma, dma.used
      ensures Valid()
      ensures PagesTaken(old(dma.live), dma.live, old(dma.used[..]), dma.used[..], old(managedPages), managedPages, pages)
      ensures forall a :: a in managedPages && a !in old(managedPages) ==> fresh(managedPages[a])
      ensures ok ==> |pages| == n
      ensures !ok ==> |pages| < n && !exists s :: DmaAllocator.FreeRun(dma.used[..], s, 1)
    {
      ghost var m0, live0, bits0 := managedPages, dma.live, dma.used[..];
      pages := [];
      ok := true;
      while ok && |pages| < n
        invariant Valid() && |pages| <= n
        invariant PagesTaken(live0, dma.live, bits0, dma.used[..], m0, managedPages, pages)
        invariant forall a :: a in managedPages && a !in m0 ==> fresh(managedPages[a])
        invariant !ok ==> |pages| < n && !exists s :: DmaAllocator.FreeRun(dma.used[..], s, 1)
        decreases n - |pages|, ok
      {
        ghost var m, live, bits := managedPages, dma.live, dma.used[..];
        var ptr := AddPage();
        if ptr.None? {
          ok := false;
        } else {
          GrantedAdd(live0, live, dma.live, bits0, bits, dma.used[..], m0, m, managedPages, pages, ptr.value);
          forall a | a in managedPages && a !in m0
            ensures fresh(managedPages[a])
          {
            if a != ptr.value {
              assert managedPages[a] == m[a];
            }
          }
          pages := pages + [ptr.value];
        }
      }
    }

    /** One turn of the allocation loop: `alloc(1).unwrap()`, then the page put into the map. */
    method AddPage() returns (ptr: Option<u64>)
      requires Valid()
      modifies this`managedPages, dma, dma.used
      ensures Valid()
      ensures ptr.None? ==> managedPages == old(managedPages) && !exists s :: DmaAllocator.FreeRun(dma.used[..], s, 1)
      ensures ptr.None? ==> dma.live == old(dma.live) && dma.used[..] == old(dma.used[..])
      ensures ptr.Some? ==>
                && ptr.value !in old(managedPages) && ptr.value in managedPages
                && managedPages == old(managedPages)[ptr.value := managedPages[ptr.value]]
                && fresh(managedPages[ptr.value])
      ensures ptr.Some? ==>
                var g := managedPages[ptr.value];
                && g.region.Some? && ptr.value == PageAddress(g.region.value.start)
                && DmaAllocator.FreeRun(old(dma.used[..]), g.region.value.start, 1)
                && dma.live == old(dma.live) + {g}
      ensures AllocatorFollows(old(dma.live), dma.live, old(dma.used[..]), dma.used[..], old(managedPages), managedPages)
    {
      var page := TakePage();
      if page.None? {
        return None;
      }
      var g := page.value;
      var a: u64 := g.Address();
      FollowsAdd(old(dma.live), old(dma.live), old(dma.used[..]), old(dma.used[..]), managedPages, managedPages, a, g, g.region.value.start);
      managedPages := managedPages[a := g];
      ptr := Some(a);
    }

    /** The removal loop of `handle_page_request`: each address's guard taken out of the map and dropped. */
    method ReturnPages(items: seq<u64>)
      requires Valid()
      modifies this`managedPages, dma, dma.used, managedPages.Values
      ensures Valid()
      ensures managedPages == old(managedPages) - (set a | a in items)
      ensures AllocatorFollows(old(dma.live), dma.live, old(dma.used[..]), dma.used[..], old(managedPages), managedPages)
    {
      ghost var m0, live0, bits0 := managedPages, dma.live, dma.used[..];
      var i := 0;
      while i < |items|
        invariant 0 <= i <= |items| && Valid()
        invariant managedPages == m0 - (set a | a in items[..i]) && SubMap(managedPages, m0)
        invariant AllocatorFollows(live0, dma.live, bits0, dma.used[..], m0, managedPages)
      {
        ghost var m, live, bits := managedPages, dma.live, dma.used[..];
        RemovePage(items[i]);
        ReturnedOne(live0, live, dma.live, bits0, bits, dma.used[..], m0, m, managedPages, items, i);
        i := i + 1;
      }
      assert items[..i] == items;
    }

    /**
     * The branch of `handle_page_request` on the page count `n` the
     * device answered: pages taken and granted with MANAGE_PAGES, pages
     * asked back with MANAGE_PAGES and removed, or nothing.
     */
    method HandleCount(n: i32) returns (r: Result<()>, ghost pages: seq<u64>)
      requires Valid()
      modifies this`step, this`log, this`managedPages, dma, dma.used, dma.memory, bar0, managedPages.Values
      ensures Valid()
      ensures old(log) <= log
      ensures CountHandled(n, log[|old(log)|..], r)
      ensures CountMoved(n, log[|old(log)|..], old(managedPages), managedPages, pages)
      ensures AllocatorFollows(old(dma.live), dma.live, old(dma.used[..]), dma.used[..], old(managedPages), managedPages)
      ensures forall a :: a in managedPages ==> managedPages[a] in old(managedPages).Values || fresh(managedPages[a])
    {
      pages := [];
      if n > 0 {
        var granted;
        r, granted := GrantPages(n);
        pages := granted;
      } else if n < 0 {
        if n == I32_MIN {
          FollowsNone(dma.live, dma.used[..], managedPages);
          return Err(Panic), pages;
        }
        r := ReclaimPages(-n);
      } else {
        FollowsNone(dma.live, dma.used[..], managedPages);
        r := Ok(());
      }
    }

    /**
     * A positive page count: the pages taken and then granted with
     * MANAGE_PAGES; a panic, and no call, when the allocator runs out.
     */
    method GrantPages(n: nat) returns (r: Result<()>, pages: seq<u64>)
      requires Valid() && 0 < n < 0x8000_0000
      modifies this`step, this`log, this`managedPages, dma, dma.used, dma.memory, bar0
      ensures Valid()
      ensures Granted(old(managedPages), managedPages, pages) && |pages| <= n
      ensures AllocatorFollows(old(dma.live), dma.live, old(dma.used[..]), dma.used[..], old(managedPages), managedPages)
      ensures forall a :: a in managedPages && a !in old(managedPages) ==> fresh(managedPages[a])
      ensures old(log) <= log
      ensures || (log == old(log) && r == Err(Panic))
              || (&& |pages| == n && |log| == |old(log)| + 1
                  && log[|old(log)|].command == CmdIf.ManagePagesCmd(ManagePagesCodec.ManagePages(ManagePagesCodec.AllocationSuccess, n, pages))
                  && r == Unit(log[|old(log)|].answer))
    {
      var ok;
      ok, pages := AllocatePages(n);
      if !ok {
        return Err(Panic), pages;
      }
      var a := DoCommand(CmdIf.ManagePagesCmd(ManagePagesCodec.ManagePages(ManagePagesCodec.AllocationSuccess, n as u32, pages)));
      r := Unit(a);
    }

    /**
     * A negative page count `-n`: MANAGE_PAGES asks for `n` pages back,
     * and the addresses the device returns leave the map.
     */
    method ReclaimPages(n: nat) returns (r: Result<()>)
      requires Valid() && 0 < n < 0x8000_0000
      modifies this`step, this`log, this`managedPages, dma, dma.used, dma.memory, bar0, managedPages.Values
      ensures Valid()
      ensures |log| == |old(log)| + 1 && old(log) <= log
      ensures log[|old(log)|].command == CmdIf.ManagePagesCmd(ManagePagesCodec.ManagePages(ManagePagesCodec.HCAReturnPages, n, []))
      ensures r == Unit(log[|old(log)|].answer)
      ensures var a := log[|old(log)|].answer;
              if a.Ok? then a.value.ManagePagesOut? && managedPages == old(managedPages) - (set x | x in a.value.mo.items)
              else managedPages == old(managedPages)
      ensures AllocatorFollows(old(dma.live), dma.live, old(dma.used[..]), dma.used[..], old(managedPages), managedPages)
    {
      var a := DoCommand(CmdIf.ManagePagesCmd(ManagePagesCodec.ManagePages(ManagePagesCodec.HCAReturnPages, n as u32, [])));
      r := Unit(a);
      if a.Ok? {
        assert a.value.ManagePagesOut?;
        ReturnPages(a.value.mo.items);
      } else {
        FollowsNone(dma.live, dma.used[..], managedPages);
      }
    }

    /** `managed_pages.remove(&ptr)`: the guard under `ptr`, if any, leaves the map and is dropped. */
    method RemovePage(ptr: u64)
      requires Valid()
      modifies this`managedPages, dma, dma.used, managedPages.Values
      ensures Valid()
      ensures managedPages == old(managedPages) - {ptr}
      ensures ptr in old(managedPages) ==>
                && dma.live == old(dma.live) - {old(managedPages[ptr])}
                && dma.used[..] == old(dma.used[..])[old(managedPages[ptr].region.value.start) := false]
      ensures ptr !in old(managedPages) ==> dma.live == old(dma.live) && dma.used[..] == old(dma.used[..])
      ensures AllocatorFollows(old(dma.live), dma.live, old(dma.used[..]), dma.used[..], old(managedPages), managedPages)
    {
      if ptr in managedPages {
        var g := managedPages[ptr];
        assert dma.GuardHeld(g);
        assert forall b :: b in managedPages && b != ptr ==> managedPages[b] != g;
        FollowsRemove(dma.live, dma.live, dma.used[..], dma.used[..], managedPages, managedPages, ptr, g.region.value.start);
        DmaAllocator.MarkOne(dma.used[..], g.region.value.start, false);
        managedPages := managedPages - {ptr};
        g.Drop();
      }
    }

    /**
     * `handle_page_request`: the device asks for pages of one kind and is
     * given them, or gives some back.  `pages` are the addresses granted.
     */
    method HandlePageRequest(opMod: QueryPagesCodec.QueryPagesOpMod) returns (r: Result<()>, ghost pages: seq<u64>)
      requires Valid()
      modifies this`step, this`log, this`managedPages, dma, dma.used, dma.memory, bar0, managedPages.Values
      ensures Valid()
      ensures old(log) <= log && PageRequestRan(opMod, log[|old(log)|..], r)
      ensures PagesMoved(log[|old(log)|..], old(managedPages), managedPages, pages)
      ensures AllocatorFollows(old(dma.live), dma.live, old(dma.used[..]), dma.used[..], old(managedPages), managedPages)
      ensures forall a :: a in managedPages ==> managedPages[a] in old(managedPages).Values || fresh(managedPages[a])
    {
      ghost var l0 := log;
      pages := [];
      var c := CmdIf.QueryPagesCmd(QueryPagesCodec.QueryPages(opMod));
      var q := DoCommand(c);
      if q.Err? {
        FollowsNone(dma.live, dma.used[..], managedPages);
        assert log[|l0|..] == [Event(c, q)];
        return Err(q.error), pages;
      }
      assert q.value.QueryPagesOut?;
      ghost var l1 := log;
      r, pages := HandleCount(q.value.qo.numPages);
      assert log[|l0|..][0] == Event(c, q);
      assert log[|l0|..][1..] == log[|l1|..];
    }

    /**
     * Step `k` of `initialize` and its `?`: the command sent, or the page
     * request made, extending the steps run so far (`cuts`, over the calls
     * since `l0`).
     */
    method RunStep(k: nat, ghost l0: seq<Event>, ghost cuts: seq<nat>) returns (r: Result<()>, ghost cuts': seq<nat>)
      requires Valid() && k < |INIT_STEPS| && l0 <= log && StepsRan(log[|l0|..], cuts, k)
      modifies this`step, this`log, this`managedPages, dma, dma.used, dma.memory, bar0, managedPages.Values
      ensures Valid() && l0 <= log
      ensures r.Ok? ==> StepsRan(log[|l0|..], cuts', k + 1)
      ensures r.Err? ==> InitRan(log[|l0|..], cuts', r)
      ensures forall a :: a in managedPages ==> managedPages[a] in old(managedPages).Values || fresh(managedPages[a])
    {
      ghost var seg := log[|l0|..];
      ghost var l1 := log;
      match INIT_STEPS[k] {
        case Send(c) =>
          var a := DoCommand(c);
          r := Unit(a);
        case Pages(op) =>
          ghost var pages;
          r, pages := HandlePageRequest(op);
      }
      ghost var more := log[|l1|..];
      assert StepRan(INIT_STEPS[k], more, r);
      assert log[|l0|..] == seg + more;
      if r.Err? {
        StepsStop(seg, cuts, k, more, r);
        cuts' := cuts;
      } else {
        StepsExtend(seg, cuts, k, more);
        cuts' := cuts + [|seg + more|];
      }
    }

    /**
     * Steps `k` onwards of `initialize`, each only after the one before
     * succeeded; `cuts` are the steps run so far over the calls since `l0`.
     */
    method RunSteps(k: nat, ghost l0: seq<Event>, ghost cuts: seq<nat>) returns (r: Result<()>, ghost cuts': seq<nat>)
      requires Valid() && k <= |INIT_STEPS| && l0 <= log && StepsRan(log[|l0|..], cuts, k)
      modifies this`step, this`log, this`managedPages, dma, dma.used, dma.memory, bar0, managedPages.Values
      ensures Valid() && l0 <= log && InitRan(log[|l0|..], cuts', r)
      ensures forall a :: a in managedPages ==> managedPages[a] in old(managedPages).Values || fresh(managedPages[a])
      decreases |INIT_STEPS| - k
    {
      if k == |INIT_STEPS| {
        StepsDone(log[|l0|..], cuts);
        return Ok(()), cuts;
      }
      r, cuts' := RunStep(k, l0, cuts);
      if r.Ok? {
        r, cuts' := RunSteps(k + 1, l0, cuts');
      }
    }

    /**
     * `initialize`: ENABLE_HCA, QUERY_ISSI, SET_ISSI 1, the boot page
     * request, QUERY_HCA_CAP 1, the init page request and INIT_HCA, each
     * only after the one before succeeded.
     */
    method Initialize() returns (r: Result<()>, ghost cuts: seq<nat>)
      requires Valid()
      modifies this`step, this`log, this`managedPages, dma, dma.used, dma.memory, bar0, managedPages.Values
      ensures Valid()
      ensures old(log) <= log && InitRan(log[|old(log)|..], cuts, r)
    {
      assert log[|log|..] == [];
      r, cuts := RunSteps(0, log, [0]);
    }
  }
}
