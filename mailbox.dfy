/**
 * Command mailboxes (src/mailbox.rs).
 *
 * A command's input beyond its first 16 bytes, and its output, travel in a
 * chain of mailbox blocks: 0x240-byte records placed in 0x400-byte slots of
 * a scratch DMA region.  Each block carries up to 0x200 data bytes, the
 * device address of the next block, its number in the chain, a token and
 * two XOR signatures.
 */
module Mailboxes {
  import opened Bytes
  import opened Errors
  import Memory

  const MAILBOX_LEN: nat := 0x240
  const SLOT_LEN: nat := 0x400
  const CHUNK_LEN: nat := 0x200
  const NEXT_HI: nat := 0x230
  const NEXT_LO: nat := 0x234
  const BLOCK_NUMBER: nat := 0x238
  const TOKEN: nat := 0x23d
  const CTRL_SIGNATURE: nat := 0x23e
  const SIGNATURE: nat := 0x23f
  /** The bytes covered by the control signature. */
  const CTRL_FROM: nat := 0x1c0
  const CTRL_TO: nat := 0x200

  // ---------------------------------------------------------------------
  // Splitting the payload

  function Min(a: int, b: int): int {
    if a <= b then a else b
  }

  /** Number of blocks of a payload of `n` bytes: the ceiling of n / 0x200. */
  function NumChunks(n: nat): nat {
    (n + 0x1ff) / 0x200
  }

  /** `data.chunks(0x200)`: consecutive pieces of 0x200 bytes, the last one shorter. */
  function Chunks(data: seq<byte>): (r: seq<seq<byte>>)
    ensures |r| == NumChunks(|data|)
    ensures forall i :: 0 <= i < |r| ==> 0 < |r[i]| <= CHUNK_LEN
    decreases |data|
  {
    if data == [] then []
    else if |data| <= CHUNK_LEN then [data]
    else [data[..CHUNK_LEN]] + Chunks(data[CHUNK_LEN..])
  }

  function Concat(ss: seq<seq<byte>>): seq<byte>
    decreases |ss|
  {
    if ss == [] then [] else ss[0] + Concat(ss[1..])
  }

  /** Piece `i` is `data[0x200 * i ..]` cut at 0x200 bytes or at the end. */
  lemma {:induction false} ChunkAt(data: seq<byte>, i: nat)
    requires i < NumChunks(|data|)
    ensures 0x200 * i < |data|
    ensures Chunks(data)[i] == data[0x200 * i..Min(0x200 * (i + 1), |data|)]
    decreases |data|
  {
    if |data| > CHUNK_LEN && i > 0 {
      ChunkAt(data[CHUNK_LEN..], i - 1);
      assert Chunks(data)[i] == Chunks(data[CHUNK_LEN..])[i - 1];
    }
  }

  /** The pieces put back together are the payload. */
  lemma {:induction false} ChunksConcat(data: seq<byte>)
    ensures Concat(Chunks(data)) == data
    decreases |data|
  {
    if data != [] && |data| > CHUNK_LEN {
      var r := Chunks(data);
      assert r[1..] == Chunks(data[CHUNK_LEN..]);
      ChunksConcat(data[CHUNK_LEN..]);
      assert data == data[..CHUNK_LEN] + data[CHUNK_LEN..];
    } else if data != [] {
      assert Chunks(data)[1..] == [];
    }
  }

  lemma NoChunks(data: seq<byte>)
    ensures Chunks(data) == [] <==> data == []
  {
  }

  // ---------------------------------------------------------------------
  // One block

  /**
   * The block as the chain builder leaves it before signing: the data
   * piece from byte 0, the next pointer (high word then low word) at
   * 0x230, the block number at 0x238, the token at 0x23d.  Every other
   * byte keeps the value `stale` had.
   */
  function Assemble(stale: seq<byte>, chunk: seq<byte>, token: byte, number: u32, next: u64): (r: seq<byte>)
    requires |stale| == MAILBOX_LEN && |chunk| <= CHUNK_LEN
    ensures |r| == MAILBOX_LEN
  {
    seq(MAILBOX_LEN, j requires 0 <= j < MAILBOX_LEN => AssembledByte(stale, chunk, token, number, next, j))
  }

  function AssembledByte(stale: seq<byte>, chunk: seq<byte>, token: byte, number: u32, next: u64, j: nat): byte
    requires |stale| == MAILBOX_LEN && |chunk| <= CHUNK_LEN && j < MAILBOX_LEN
  {
    if j < |chunk| then chunk[j]
    else if NEXT_HI <= j < BLOCK_NUMBER then BE64(next)[j - NEXT_HI]
    else if BLOCK_NUMBER <= j < BLOCK_NUMBER + 4 then BE32(number)[j - BLOCK_NUMBER]
    else if j == TOKEN then token
    else stale[j]
  }

  /** Where each field of an assembled block is found. */
  lemma {:induction false} AssembleFields(stale: seq<byte>, chunk: seq<byte>, token: byte, number: u32, next: u64)
    requires |stale| == MAILBOX_LEN && |chunk| <= CHUNK_LEN
    ensures var b := Assemble(stale, chunk, token, number, next);
      && b[..|chunk|] == chunk
      && b[NEXT_HI..NEXT_LO] == BE32(Hi32(next))
      && b[NEXT_LO..BLOCK_NUMBER] == BE32(Lo32(next))
      && FromBE32(b[NEXT_HI..NEXT_LO]) * 0x1_0000_0000 + FromBE32(b[NEXT_LO..BLOCK_NUMBER]) == next
      && b[BLOCK_NUMBER..BLOCK_NUMBER + 4] == BE32(number)
      && b[TOKEN] == token
      && (forall j :: |chunk| <= j < NEXT_HI ==> b[j] == stale[j])
      && b[BLOCK_NUMBER + 4] == stale[BLOCK_NUMBER + 4]
  {
    var b := Assemble(stale, chunk, token, number, next);
    assert b[NEXT_HI..BLOCK_NUMBER] == BE64(next);
    assert b[NEXT_HI..NEXT_LO] == BE64(next)[..4];
    assert b[NEXT_LO..BLOCK_NUMBER] == BE64(next)[4..];
    BE32Inverse(Hi32(next));
    BE32Inverse(Lo32(next));
  }

  /** A block whose two signatures check out. */
  predicate Signed(b: seq<byte>) {
    && |b| == MAILBOX_LEN
    && b[CTRL_SIGNATURE] == XorFold(0xff, b[CTRL_FROM..CTRL_TO])
    && XorFold(0xff, b) == 0
  }

  /**
   * `update_signature` on the block's bytes: both signature bytes zeroed,
   * the control signature folded over bytes 0x1c0..0x200 and stored, then
   * the signature folded over the whole block and stored.
   */
  function SignBlock(b: seq<byte>): (r: seq<byte>)
    requires |b| == MAILBOX_LEN
    ensures |r| == MAILBOX_LEN
  {
    var z := b[SIGNATURE := 0][CTRL_SIGNATURE := 0];
    var c := z[CTRL_SIGNATURE := XorFold(0xff, z[CTRL_FROM..CTRL_TO])];
    c[SIGNATURE := XorFold(0xff, c)]
  }

  /** Signing makes a block self-consistent and changes only its two signature bytes. */
  lemma {:induction false} SignBlockSigned(b: seq<byte>)
    requires |b| == MAILBOX_LEN
    ensures Signed(SignBlock(b))
    ensures forall j :: 0 <= j < MAILBOX_LEN && j != CTRL_SIGNATURE && j != SIGNATURE ==>
              SignBlock(b)[j] == b[j]
  {
    var z := b[SIGNATURE := 0][CTRL_SIGNATURE := 0];
    var c := z[CTRL_SIGNATURE := XorFold(0xff, z[CTRL_FROM..CTRL_TO])];
    var r := c[SIGNATURE := XorFold(0xff, c)];
    assert r[CTRL_FROM..CTRL_TO] == z[CTRL_FROM..CTRL_TO];
    SignatureSelfConsistent(c, SIGNATURE);
  }

  /** Signing looks at the block's bytes only, and a signed block stays signed when signed again. */
  lemma {:induction false} SignBlockIdempotent(b: seq<byte>)
    requires |b| == MAILBOX_LEN
    ensures SignBlock(SignBlock(b)) == SignBlock(b)
  {
    var r := SignBlock(b);
    assert r[SIGNATURE := 0][CTRL_SIGNATURE := 0] == b[SIGNATURE := 0][CTRL_SIGNATURE := 0];
  }

  /** The writes `build_mailbox` makes to one block, in its order, give the assembled block. */
  lemma {:induction false} FillLocal(stale: seq<byte>, chunk: seq<byte>, token: byte, number: u32)
    requires |stale| == MAILBOX_LEN && |chunk| <= CHUNK_LEN
    ensures Overwrite(Overwrite(Overwrite(Overwrite(stale, NEXT_HI, BE64(0)), 0, chunk), TOKEN, [token]),
                      BLOCK_NUMBER, BE32(number))
         == Assemble(stale, chunk, token, number, 0)
  {
    var m1 := Overwrite(stale, NEXT_HI, BE64(0));
    var m2 := Overwrite(m1, 0, chunk);
    var m3 := Overwrite(m2, TOKEN, [token]);
    OverwriteAt(stale, NEXT_HI, BE64(0));
    OverwriteAt(m1, 0, chunk);
    OverwriteAt(m2, TOKEN, [token]);
    OverwriteAt(m3, BLOCK_NUMBER, BE32(number));
  }

  /** Linking a block to its successor replaces only the next pointer. */
  lemma {:induction false} Relink(stale: seq<byte>, chunk: seq<byte>, token: byte, number: u32, next: u64, ptr: u64)
    requires |stale| == MAILBOX_LEN && |chunk| <= CHUNK_LEN
    ensures Overwrite(Assemble(stale, chunk, token, number, next), NEXT_HI, BE64(ptr))
         == Assemble(stale, chunk, token, number, ptr)
  {
    OverwriteAt(Assemble(stale, chunk, token, number, next), NEXT_HI, BE64(ptr));
  }

  // ---------------------------------------------------------------------
  // A chain of blocks in memory

  /** Memory index of block `i` of a chain whose first slot is at index `s0`. */
  function Slot(s0: nat, i: nat): nat {
    s0 + 0x400 * i
  }

  /** The memory and the address range can hold `n` whole slots from `s0` / `a0` on. */
  predicate ChainFits(len: nat, s0: nat, a0: nat, n: nat) {
    s0 + 0x400 * n <= len && a0 + 0x400 * n <= 0x1_0000_0000_0000_0000
  }

  predicate ShortChunks(chunks: seq<seq<byte>>) {
    forall i :: 0 <= i < |chunks| ==> |chunks[i]| <= CHUNK_LEN
  }

  /** No block among the first `k` covers memory index `j`. */
  predicate OutsideBlocks(s0: nat, k: nat, j: nat) {
    j < s0 || Slot(s0, k) <= j || (j - s0) % 0x400 >= MAILBOX_LEN
  }

  function Window(m: seq<byte>, s0: nat, i: nat): seq<byte>
    requires Slot(s0, i) + MAILBOX_LEN <= |m|
  {
    m[Slot(s0, i)..Slot(s0, i) + MAILBOX_LEN]
  }

  /**
   * The writes `build_mailbox` makes to the block at memory index `s`, in
   * its order: next pointer cleared, data piece, token, block number.
   */
  function BlockWrites(m: seq<byte>, s: nat, chunk: seq<byte>, token: byte, number: u32): (r: seq<byte>)
    requires s + MAILBOX_LEN <= |m| && |chunk| <= CHUNK_LEN
    ensures |r| == |m|
  {
    var m2 := Overwrite(m, s + NEXT_HI, BE64(0));
    var m3 := Overwrite(m2, s, chunk);
    var m4 := Overwrite(m3, s + TOKEN, [token]);
    Overwrite(m4, s + BLOCK_NUMBER, BE32(number))
  }

  /**
   * Iteration `i` of the first loop of `build_mailbox`: link the previous
   * block to this one, then write this block's fields.
   */
  function FillStep(m: seq<byte>, s0: nat, a0: nat, token: byte, chunk: seq<byte>, i: nat): (r: seq<byte>)
    requires ChainFits(|m|, s0, a0, i + 1) && |chunk| <= CHUNK_LEN
    ensures |r| == |m|
  {
    var m1 := if i > 0 then Overwrite(m, Slot(s0, i - 1) + NEXT_HI, BE64(a0 + 0x400 * i)) else m;
    BlockWrites(m1, Slot(s0, i), chunk, token, i % 0x1_0000_0000)
  }

  /** Memory after the first `k` iterations of the first loop. */
  function Fill(m: seq<byte>, s0: nat, a0: nat, token: byte, chunks: seq<seq<byte>>, k: nat): (r: seq<byte>)
    requires k <= |chunks| && ShortChunks(chunks) && (k == 0 || ChainFits(|m|, s0, a0, k))
    ensures |r| == |m|
  {
    if k == 0 then m
    else FillStep(Fill(m, s0, a0, token, chunks, k - 1), s0, a0, token, chunks[k - 1], k - 1)
  }

  /** Memory after signing the first `k` blocks, one after the other. */
  function SignChain(m: seq<byte>, s0: nat, k: nat): (r: seq<byte>)
    requires k == 0 || s0 + 0x400 * k <= |m|
    ensures |r| == |m|
  {
    if k == 0 then m
    else
      var p := SignChain(m, s0, k - 1);
      Overwrite(p, Slot(s0, k - 1), SignBlock(Window(p, s0, k - 1)))
  }

  /** The memory image `build_mailbox` leaves behind for the payload pieces `chunks`. */
  function Built(m: seq<byte>, s0: nat, a0: nat, token: byte, chunks: seq<seq<byte>>): (r: seq<byte>)
    requires ShortChunks(chunks) && (|chunks| == 0 || ChainFits(|m|, s0, a0, |chunks|))
    ensures |r| == |m|
  {
    SignChain(Fill(m, s0, a0, token, chunks, |chunks|), s0, |chunks|)
  }

  /** The device address stored in block `i` of a chain of `k` blocks. */
  function NextAddr(a0: nat, i: nat, k: nat): u64
    requires k == 0 || a0 + 0x400 * k <= 0x1_0000_0000_0000_0000
  {
    if i + 1 < k then a0 + 0x400 * (i + 1) else 0
  }

  /** Two different blocks' windows do not overlap. */
  lemma WindowsApart(s0: nat, i: nat, k: nat)
    requires i < k
    ensures Slot(s0, i) + MAILBOX_LEN <= Slot(s0, k)
  {
  }

  /** Every index of block `k`'s window lies outside the first `k` blocks. */
  lemma FreshWindow(s0: nat, k: nat, j: nat)
    requires Slot(s0, k) <= j
    ensures OutsideBlocks(s0, k, j)
  {
  }

  /** An index outside the first `k + 1` blocks is outside the first `k` and not in block `k`. */
  lemma OutsideShrinks(s0: nat, k: nat, j: nat)
    requires OutsideBlocks(s0, k + 1, j)
    ensures OutsideBlocks(s0, k, j)
    ensures j < Slot(s0, k) || Slot(s0, k) + MAILBOX_LEN <= j
    ensures k > 0 ==> j < Slot(s0, k - 1) || Slot(s0, k - 1) + MAILBOX_LEN <= j
  {
    if s0 <= j && j < Slot(s0, k + 1) {
      var q := (j - s0) / 0x400;
      assert j - s0 == 0x400 * q + (j - s0) % 0x400;
      assert q <= k;
    }
  }

  /**
   * After `k` iterations, block `i` holds piece `i`, number `i`, the token
   * and the address of block `i + 1` (0 for the last one), and memory
   * outside the blocks is untouched.
   */
  lemma {:induction false} FillShape(m: seq<byte>, s0: nat, a0: nat, token: byte, chunks: seq<seq<byte>>, k: nat)
    requires k <= |chunks| && ShortChunks(chunks) && (k == 0 || ChainFits(|m|, s0, a0, k))
    ensures forall i :: 0 <= i < k ==>
              Window(Fill(m, s0, a0, token, chunks, k), s0, i)
                == Assemble(Window(m, s0, i), chunks[i], token, i % 0x1_0000_0000, NextAddr(a0, i, k))
    ensures forall j :: 0 <= j < |m| && OutsideBlocks(s0, k, j) ==>
              Fill(m, s0, a0, token, chunks, k)[j] == m[j]
    decreases k
  {
    if k > 0 {
      var n := k - 1;
      var p := Fill(m, s0, a0, token, chunks, n);
      var q := Fill(m, s0, a0, token, chunks, k);
      FillShape(m, s0, a0, token, chunks, n);
      assert q == FillStep(p, s0, a0, token, chunks[n], n);
      FillStepShape(m, p, s0, a0, token, chunks, n);
    }
  }

  lemma {:induction false} FillStepShape(m: seq<byte>, p: seq<byte>, s0: nat, a0: nat, token: byte, chunks: seq<seq<byte>>, n: nat)
    requires n < |chunks| && ShortChunks(chunks) && ChainFits(|m|, s0, a0, n + 1) && |p| == |m|
    requires forall i :: 0 <= i < n ==>
              Window(p, s0, i) == Assemble(Window(m, s0, i), chunks[i], token, i % 0x1_0000_0000, NextAddr(a0, i, n))
    requires forall j :: 0 <= j < |m| && OutsideBlocks(s0, n, j) ==> p[j] == m[j]
    ensures var q := FillStep(p, s0, a0, token, chunks[n], n);
      && (forall i :: 0 <= i < n + 1 ==>
            Window(q, s0, i) == Assemble(Window(m, s0, i), chunks[i], token, i % 0x1_0000_0000, NextAddr(a0, i, n + 1)))
      && (forall j :: 0 <= j < |m| && OutsideBlocks(s0, n + 1, j) ==> q[j] == m[j])
  {
    var q := FillStep(p, s0, a0, token, chunks[n], n);
    forall i | 0 <= i < n + 1
      ensures Window(q, s0, i) == Assemble(Window(m, s0, i), chunks[i], token, i % 0x1_0000_0000, NextAddr(a0, i, n + 1))
    {
      if i == n {
        NewBlockStale(m, p, s0, n);
        FillStepNew(p, s0, a0, token, chunks[n], n);
      } else {
        EarlierBlock(m, p, s0, a0, token, chunks, n, i);
      }
    }
    forall j | 0 <= j < |m| && OutsideBlocks(s0, n + 1, j)
      ensures q[j] == m[j]
    {
      OutsideShrinks(s0, n, j);
      FillStepOutside(p, s0, a0, token, chunks[n], n, j);
    }
  }

  /** Block `n`'s window is still as it was before the chain was built. */
  lemma NewBlockStale(m: seq<byte>, p: seq<byte>, s0: nat, n: nat)
    requires |p| == |m| && Slot(s0, n) + MAILBOX_LEN <= |m|
    requires forall j :: 0 <= j < |m| && OutsideBlocks(s0, n, j) ==> p[j] == m[j]
    ensures Window(p, s0, n) == Window(m, s0, n)
  {
    forall j | Slot(s0, n) <= j < Slot(s0, n) + MAILBOX_LEN
      ensures p[j] == m[j]
    {
      FreshWindow(s0, n, j);
    }
  }

  lemma {:induction false} EarlierBlock(m: seq<byte>, p: seq<byte>, s0: nat, a0: nat, token: byte, chunks: seq<seq<byte>>, n: nat, i: nat)
    requires n < |chunks| && ShortChunks(chunks) && ChainFits(|m|, s0, a0, n + 1) && |p| == |m| && i < n
    requires Window(p, s0, i) == Assemble(Window(m, s0, i), chunks[i], token, i % 0x1_0000_0000, NextAddr(a0, i, n))
    ensures Window(FillStep(p, s0, a0, token, chunks[n], n), s0, i)
         == Assemble(Window(m, s0, i), chunks[i], token, i % 0x1_0000_0000, NextAddr(a0, i, n + 1))
  {
    FillStepEarlier(p, s0, a0, token, chunks[n], n, i);
    if i == n - 1 {
      Relink(Window(m, s0, i), chunks[i], token, i % 0x1_0000_0000, 0, a0 + 0x400 * n);
    }
  }

  /** Inside its own window the block writes give the assembled block with next pointer 0. */
  lemma BlockWritesInside(m: seq<byte>, s: nat, chunk: seq<byte>, token: byte, number: u32)
    requires s + MAILBOX_LEN <= |m| && |chunk| <= CHUNK_LEN
    ensures BlockWrites(m, s, chunk, token, number)[s..s + MAILBOX_LEN]
         == Assemble(m[s..s + MAILBOX_LEN], chunk, token, number, 0)
  {
    var m2 := Overwrite(m, s + NEXT_HI, BE64(0));
    var m3 := Overwrite(m2, s, chunk);
    var m4 := Overwrite(m3, s + TOKEN, [token]);
    OverwriteSliceInside(m, s, MAILBOX_LEN, s + NEXT_HI, BE64(0));
    OverwriteSliceInside(m2, s, MAILBOX_LEN, s, chunk);
    OverwriteSliceInside(m3, s, MAILBOX_LEN, s + TOKEN, [token]);
    OverwriteSliceInside(m4, s, MAILBOX_LEN, s + BLOCK_NUMBER, BE32(number));
    FillLocal(m[s..s + MAILBOX_LEN], chunk, token, number);
  }

  /** The block writes leave a window that does not overlap the block alone. */
  lemma BlockWritesMiss(m: seq<byte>, s: nat, chunk: seq<byte>, token: byte, number: u32, w: nat)
    requires s + MAILBOX_LEN <= |m| && |chunk| <= CHUNK_LEN
    requires w + MAILBOX_LEN <= s || (s + MAILBOX_LEN <= w && w + MAILBOX_LEN <= |m|)
    ensures BlockWrites(m, s, chunk, token, number)[w..w + MAILBOX_LEN] == m[w..w + MAILBOX_LEN]
  {
    var m2 := Overwrite(m, s + NEXT_HI, BE64(0));
    var m3 := Overwrite(m2, s, chunk);
    var m4 := Overwrite(m3, s + TOKEN, [token]);
    OverwriteSliceOutside(m, w, MAILBOX_LEN, s + NEXT_HI, BE64(0));
    OverwriteSliceOutside(m2, w, MAILBOX_LEN, s, chunk);
    OverwriteSliceOutside(m3, w, MAILBOX_LEN, s + TOKEN, [token]);
    OverwriteSliceOutside(m4, w, MAILBOX_LEN, s + BLOCK_NUMBER, BE32(number));
  }

  /** The block writes leave every byte outside the block alone. */
  lemma BlockWritesOutside(m: seq<byte>, s: nat, chunk: seq<byte>, token: byte, number: u32, j: nat)
    requires s + MAILBOX_LEN <= |m| && |chunk| <= CHUNK_LEN && j < |m|
    requires j < s || s + MAILBOX_LEN <= j
    ensures BlockWrites(m, s, chunk, token, number)[j] == m[j]
  {
    var m2 := Overwrite(m, s + NEXT_HI, BE64(0));
    var m3 := Overwrite(m2, s, chunk);
    var m4 := Overwrite(m3, s + TOKEN, [token]);
    OverwriteAt(m, s + NEXT_HI, BE64(0));
    OverwriteAt(m2, s, chunk);
    OverwriteAt(m3, s + TOKEN, [token]);
    OverwriteAt(m4, s + BLOCK_NUMBER, BE32(number));
  }

  /** Iteration `n` turns block `n`'s window into the assembled block with next pointer 0. */
  lemma {:induction false} FillStepNew(p: seq<byte>, s0: nat, a0: nat, token: byte, chunk: seq<byte>, n: nat)
    requires ChainFits(|p|, s0, a0, n + 1) && |chunk| <= CHUNK_LEN
    ensures Window(FillStep(p, s0, a0, token, chunk, n), s0, n)
         == Assemble(Window(p, s0, n), chunk, token, n % 0x1_0000_0000, 0)
  {
    var s := Slot(s0, n);
    var m1 := if n > 0 then Overwrite(p, Slot(s0, n - 1) + NEXT_HI, BE64(a0 + 0x400 * n)) else p;
    if n > 0 {
      OverwriteSliceOutside(p, s, MAILBOX_LEN, Slot(s0, n - 1) + NEXT_HI, BE64(a0 + 0x400 * n));
    }
    assert m1[s..s + MAILBOX_LEN] == Window(p, s0, n);
    BlockWritesInside(m1, s, chunk, token, n % 0x1_0000_0000);
  }

  /** Iteration `n` changes an earlier block only in block `n - 1`'s next pointer. */
  lemma {:induction false} FillStepEarlier(p: seq<byte>, s0: nat, a0: nat, token: byte, chunk: seq<byte>, n: nat, i: nat)
    requires ChainFits(|p|, s0, a0, n + 1) && |chunk| <= CHUNK_LEN && i < n
    ensures Window(FillStep(p, s0, a0, token, chunk, n), s0, i)
         == if i == n - 1 then Overwrite(Window(p, s0, i), NEXT_HI, BE64(a0 + 0x400 * n))
            else Window(p, s0, i)
  {
    var w := Slot(s0, i);
    var link := Slot(s0, n - 1) + NEXT_HI;
    var m1 := Overwrite(p, link, BE64(a0 + 0x400 * n));
    WindowsApart(s0, i, n);
    BlockWritesMiss(m1, Slot(s0, n), chunk, token, n % 0x1_0000_0000, w);
    if i == n - 1 {
      OverwriteSliceInside(p, w, MAILBOX_LEN, link, BE64(a0 + 0x400 * n));
    } else {
      WindowsApart(s0, i, n - 1);
      OverwriteSliceOutside(p, w, MAILBOX_LEN, link, BE64(a0 + 0x400 * n));
    }
  }

  /** Iteration `n` leaves bytes outside blocks `n - 1` and `n` alone. */
  lemma {:induction false} FillStepOutside(p: seq<byte>, s0: nat, a0: nat, token: byte, chunk: seq<byte>, n: nat, j: nat)
    requires ChainFits(|p|, s0, a0, n + 1) && |chunk| <= CHUNK_LEN && j < |p|
    requires j < Slot(s0, n) || Slot(s0, n) + MAILBOX_LEN <= j
    requires n > 0 ==> j < Slot(s0, n - 1) || Slot(s0, n - 1) + MAILBOX_LEN <= j
    ensures FillStep(p, s0, a0, token, chunk, n)[j] == p[j]
  {
    var m1 := if n > 0 then Overwrite(p, Slot(s0, n - 1) + NEXT_HI, BE64(a0 + 0x400 * n)) else p;
    if n > 0 {
      OverwriteAt(p, Slot(s0, n - 1) + NEXT_HI, BE64(a0 + 0x400 * n));
    }
    BlockWritesOutside(m1, Slot(s0, n), chunk, token, n % 0x1_0000_0000, j);
  }

  /**
   * After signing `k` blocks the first `k` windows are the signed versions
   * of what they held, and memory outside them is untouched.
   */
  lemma {:induction false} SignChainShape(m: seq<byte>, s0: nat, k: nat)
    requires k == 0 || s0 + 0x400 * k <= |m|
    ensures forall i :: 0 <= i < k ==> Window(SignChain(m, s0, k), s0, i) == SignBlock(Window(m, s0, i))
    ensures forall j :: 0 <= j < |m| && OutsideBlocks(s0, k, j) ==> SignChain(m, s0, k)[j] == m[j]
    decreases k
  {
    if k > 0 {
      var n := k - 1;
      var p := SignChain(m, s0, n);
      SignChainShape(m, s0, n);
      var s := Slot(s0, n);
      assert Window(p, s0, n) == Window(m, s0, n) by {
        forall j | s <= j < s + MAILBOX_LEN
          ensures p[j] == m[j]
        {
          FreshWindow(s0, n, j);
        }
      }
      var q := Overwrite(p, s, SignBlock(Window(p, s0, n)));
      assert q == SignChain(m, s0, k);
      OverwriteSliceInside(p, s, MAILBOX_LEN, s, SignBlock(Window(p, s0, n)));
      forall i | 0 <= i < n
        ensures Window(q, s0, i) == SignBlock(Window(m, s0, i))
      {
        WindowsApart(s0, i, n);
        OverwriteSliceOutside(p, Slot(s0, i), MAILBOX_LEN, s, SignBlock(Window(p, s0, n)));
      }
      OverwriteAt(p, s, SignBlock(Window(p, s0, n)));
      forall j | 0 <= j < |m| && OutsideBlocks(s0, k, j)
        ensures q[j] == m[j]
      {
        OutsideShrinks(s0, n, j);
      }
    }
  }

  /**
   * What `build_mailbox` leaves in memory: block `i` is piece `i` of the
   * payload numbered `i`, carrying the token and linked to block `i + 1`
   * (the last to 0), then signed; no byte outside the blocks changes.
   */
  lemma {:induction false} BuiltShape(m: seq<byte>, s0: nat, a0: nat, token: byte, chunks: seq<seq<byte>>)
    requires ShortChunks(chunks) && (|chunks| == 0 || ChainFits(|m|, s0, a0, |chunks|))
    ensures forall i :: 0 <= i < |chunks| ==>
              Window(Built(m, s0, a0, token, chunks), s0, i)
                == SignBlock(Assemble(Window(m, s0, i), chunks[i], token, i % 0x1_0000_0000, NextAddr(a0, i, |chunks|)))
    ensures forall j :: 0 <= j < |m| && OutsideBlocks(s0, |chunks|, j) ==>
              Built(m, s0, a0, token, chunks)[j] == m[j]
  {
    var k := |chunks|;
    FillShape(m, s0, a0, token, chunks, k);
    var f := Fill(m, s0, a0, token, chunks, k);
    SignChainShape(f, s0, k);
  }

  // ---------------------------------------------------------------------
  // A built chain, wherever memory is looked at afterwards

  /**
   * Memory `m` holds the chain of `chunks` in the slots from index `s0`
   * (device address `a0`) on: block `i` is piece `i` numbered `i`, with
   * the token, linked to block `i + 1` (the last to 0) and signed; its
   * other bytes are as they were in `stale`, the memory before the build.
   */
  ghost predicate Holds(m: seq<byte>, stale: seq<byte>, s0: nat, a0: nat, token: byte, chunks: seq<seq<byte>>) {
    && |m| == |stale| && ShortChunks(chunks)
    && (|chunks| == 0 || ChainFits(|m|, s0, a0, |chunks|))
    && forall i {:trigger Window(m, s0, i)} :: 0 <= i < |chunks| ==>
         Window(m, s0, i)
           == SignBlock(Assemble(Window(stale, s0, i), chunks[i], token, i % 0x1_0000_0000, NextAddr(a0, i, |chunks|)))
  }

  /** `a` and `b` agree on the `k` slots from memory index `s0` on. */
  ghost predicate SameSlots(a: seq<byte>, b: seq<byte>, s0: nat, k: nat) {
    |a| == |b| && forall j :: s0 <= j < s0 + 0x400 * k && j < |a| ==> a[j] == b[j]
  }

  /** The memory `build_mailbox` leaves holds the chain it was asked for. */
  lemma BuiltHolds(m: seq<byte>, s0: nat, a0: nat, token: byte, chunks: seq<seq<byte>>)
    requires ShortChunks(chunks) && (|chunks| == 0 || ChainFits(|m|, s0, a0, |chunks|))
    ensures Holds(Built(m, s0, a0, token, chunks), m, s0, a0, token, chunks)
  {
    BuiltShape(m, s0, a0, token, chunks);
  }

  /** Two memories that agree on the chain's slots hold the same chain. */
  lemma HoldsMoved(a: seq<byte>, b: seq<byte>, stale: seq<byte>, s0: nat, a0: nat, token: byte, chunks: seq<seq<byte>>)
    requires Holds(a, stale, s0, a0, token, chunks) && SameSlots(a, b, s0, |chunks|)
    ensures Holds(b, stale, s0, a0, token, chunks)
  {
    forall i | 0 <= i < |chunks|
      ensures Window(b, s0, i) == Window(a, s0, i)
    {
      SlotsWindow(a, b, s0, |chunks|, i);
    }
  }

  /** Only the slots' bytes of the memory before the build show in the chain. */
  lemma HoldsRestaled(m: seq<byte>, stale: seq<byte>, stale2: seq<byte>, s0: nat, a0: nat, token: byte, chunks: seq<seq<byte>>)
    requires Holds(m, stale2, s0, a0, token, chunks) && SameSlots(stale, stale2, s0, |chunks|)
    ensures Holds(m, stale, s0, a0, token, chunks)
  {
    forall i | 0 <= i < |chunks|
      ensures Window(stale, s0, i) == Window(stale2, s0, i)
    {
      SlotsWindow(stale, stale2, s0, |chunks|, i);
    }
  }

  lemma SlotsWindow(a: seq<byte>, b: seq<byte>, s0: nat, k: nat, i: nat)
    requires SameSlots(a, b, s0, k) && i < k && s0 + 0x400 * k <= |a|
    ensures Window(a, s0, i) == Window(b, s0, i)
  {
    forall t | 0 <= t < MAILBOX_LEN
      ensures Window(a, s0, i)[t] == Window(b, s0, i)[t]
    {
      assert Window(a, s0, i)[t] == a[Slot(s0, i) + t];
      assert Window(b, s0, i)[t] == b[Slot(s0, i) + t];
    }
  }

  /** Block `i` of a held chain starts with piece `i`. */
  lemma HoldsData(m: seq<byte>, stale: seq<byte>, s0: nat, a0: nat, token: byte, chunks: seq<seq<byte>>, i: nat)
    requires Holds(m, stale, s0, a0, token, chunks) && i < |chunks|
    ensures Slot(s0, i) + |chunks[i]| <= |m|
    ensures m[Slot(s0, i)..Slot(s0, i) + |chunks[i]|] == chunks[i]
  {
    var b := Assemble(Window(stale, s0, i), chunks[i], token, i % 0x1_0000_0000, NextAddr(a0, i, |chunks|));
    AssembleFields(Window(stale, s0, i), chunks[i], token, i % 0x1_0000_0000, NextAddr(a0, i, |chunks|));
    SignBlockSigned(b);
    var n := |chunks[i]|;
    forall t | 0 <= t < n
      ensures m[Slot(s0, i) + t] == chunks[i][t]
    {
      assert m[Slot(s0, i) + t] == Window(m, s0, i)[t];
      assert b[..n][t] == b[t];
    }
  }

  // ---------------------------------------------------------------------
  // The structures

  /** One block, a view of 0x240 bytes at `offset` in the DMA memory. */
  class Mailbox {
    const mem: array<byte>
    const offset: nat
    /** Device address of the block (`as_ptr`). */
    const address: nat

    constructor (mem: array<byte>, offset: nat, address: nat)
      ensures this.mem == mem && this.offset == offset && this.address == address
    {
      this.mem := mem;
      this.offset := offset;
      this.address := address;
    }

    predicate Valid() {
      offset + MAILBOX_LEN <= mem.Length
    }

    function Image(): (r: seq<byte>)
      requires Valid()
      reads mem
      ensures |r| == MAILBOX_LEN
    {
      mem[offset..offset + MAILBOX_LEN]
    }

    /**
     * Writes `data[i]` at block byte `i`.  A byte past the 0x240-byte
     * block is rejected; the bytes before it have been written by then.
     */
    method SetData(data: seq<byte>) returns (r: Result<()>)
      requires Valid()
      modifies mem
      ensures r.Ok? <==> |data| <= MAILBOX_LEN
      ensures mem[..] == Overwrite(old(mem[..]), offset, data[..Min(|data|, MAILBOX_LEN)])
    {
      OverwriteAt(old(mem[..]), offset, data[..Min(|data|, MAILBOX_LEN)]);
      var i := 0;
      while i < |data|
        invariant 0 <= i <= |data| && i <= MAILBOX_LEN
        invariant forall j :: 0 <= j < mem.Length ==>
            mem[j] == if offset <= j < offset + i then data[j - offset] else old(mem[j])
      {
        if i >= MAILBOX_LEN {
          return Err(IoError);
        }
        mem[offset + i] := data[i];
        i := i + 1;
      }
      return Ok(());
    }

    /** Stores `ptr >> 32` at 0x230 and `ptr & 0xffffffff` at 0x234, big-endian. */
    method SetNext(ptr: u64)
      requires Valid()
      modifies mem
      ensures mem[..] == Overwrite(old(mem[..]), offset + NEXT_HI, BE64(ptr))
    {
      var hi, lo := BE32(Hi32(ptr)), BE32(Lo32(ptr));
      OverwriteAdjacent(mem[..], offset + NEXT_HI, hi, lo);
      Memory.Write(mem, offset + NEXT_HI, hi);
      Memory.Write(mem, offset + NEXT_LO, lo);
    }

    method WriteToken(token: byte)
      requires Valid()
      modifies mem
      ensures mem[..] == Overwrite(old(mem[..]), offset + TOKEN, [token])
    {
      Memory.Write(mem, offset + TOKEN, [token]);
    }

    method WriteBlockNumber(number: u32)
      requires Valid()
      modifies mem
      ensures mem[..] == Overwrite(old(mem[..]), offset + BLOCK_NUMBER, BE32(number))
    {
      Memory.Write(mem, offset + BLOCK_NUMBER, BE32(number));
    }

    /**
     * Zeroes both signature bytes, stores the control signature over bytes
     * 0x1c0..0x200, then the signature over the whole block.  Afterwards
     * the block is `Signed`; only bytes 0x23e and 0x23f change.
     */
    method UpdateSignature()
      requires Valid()
      modifies mem
      ensures mem[..] == Overwrite(old(mem[..]), offset, SignBlock(old(Image())))
      ensures Signed(Image())
    {
      ghost var b := Image();
      mem[offset + SIGNATURE] := 0;
      mem[offset + CTRL_SIGNATURE] := 0;
      var data := Memory.Read(mem, offset, MAILBOX_LEN);
      assert data == b[SIGNATURE := 0][CTRL_SIGNATURE := 0];
      var ctrl := Memory.XorLoop(0xff, data[CTRL_FROM..CTRL_TO]);
      mem[offset + CTRL_SIGNATURE] := ctrl;
      data := Memory.Read(mem, offset, MAILBOX_LEN);
      var signature := Memory.XorLoop(0xff, data);
      mem[offset + SIGNATURE] := signature;
      assert Image() == SignBlock(b);
      assert mem[..] == Overwrite(old(mem[..]), offset, SignBlock(b)) by {
        OverwriteAt(old(mem[..]), offset, SignBlock(b));
        forall j | 0 <= j < mem.Length
          ensures mem[j] == Overwrite(old(mem[..]), offset, SignBlock(b))[j]
        {
          if offset <= j < offset + MAILBOX_LEN {
            assert mem[j] == Image()[j - offset];
          }
        }
      }
      SignBlockSigned(b);
    }
  }

  /** Block `i` of `mbs` is the view of slot `i` of a chain starting at index `s0`, device address `a0`. */
  predicate Placed(mbs: seq<Mailbox>, mem: array<byte>, s0: nat, a0: nat) {
    forall i :: 0 <= i < |mbs| ==>
      && mbs[i].mem == mem
      && mbs[i].offset == Slot(s0, i)
      && mbs[i].address == a0 + 0x400 * i
  }

  lemma PlacedSnoc(mbs: seq<Mailbox>, mb: Mailbox, mem: array<byte>, s0: nat, a0: nat)
    requires Placed(mbs, mem, s0, a0)
    requires mb.mem == mem && mb.offset == Slot(s0, |mbs|) && mb.address == a0 + 0x400 * |mbs|
    ensures Placed(mbs + [mb], mem, s0, a0)
  {
  }

  /**
   * One iteration of the first loop of `build_mailbox`: link the previous
   * block `prev` (if any) to `mb`, clear `mb`'s next pointer, then write
   * its data piece, token and block number.
   */
  method WriteBlock(prev: Option<Mailbox>, mb: Mailbox, ghost s0: nat, ghost a0: nat, token: byte, chunk: seq<byte>, k: nat)
    requires ChainFits(mb.mem.Length, s0, a0, k + 1) && |chunk| <= CHUNK_LEN
    requires mb.offset == Slot(s0, k) && mb.address == a0 + 0x400 * k
    requires prev.Some? <==> k > 0
    requires prev.Some? ==> prev.value.mem == mb.mem && prev.value.offset == Slot(s0, k - 1)
    modifies mb.mem
    ensures mb.mem[..] == FillStep(old(mb.mem[..]), s0, a0, token, chunk, k)
  {
    ghost var m0 := mb.mem[..];
    if prev.Some? {
      prev.value.SetNext(mb.address);
    }
    ghost var m1 := mb.mem[..];
    assert m1 == if k > 0 then Overwrite(m0, Slot(s0, k - 1) + NEXT_HI, BE64(a0 + 0x400 * k)) else m0;
    mb.SetNext(0);
    ghost var m2 := mb.mem[..];
    var ok := mb.SetData(chunk);
    assert chunk[..Min(|chunk|, MAILBOX_LEN)] == chunk;
    ghost var m3 := mb.mem[..];
    mb.WriteToken(token);
    ghost var m4 := mb.mem[..];
    mb.WriteBlockNumber(k % 0x1_0000_0000);
    assert m2 == Overwrite(m1, Slot(s0, k) + NEXT_HI, BE64(0));
    assert m3 == Overwrite(m2, Slot(s0, k), chunk);
    assert m4 == Overwrite(m3, Slot(s0, k) + TOKEN, [token]);
    assert mb.mem[..] == Overwrite(m4, Slot(s0, k) + BLOCK_NUMBER, BE32(k % 0x1_0000_0000));
  }

  /** Signing block `k` in place extends the signed prefix by one block. */
  method SignNext(mb: Mailbox, ghost m0: seq<byte>, ghost s0: nat, ghost k: nat, ghost n: nat)
    requires k < n && s0 + 0x400 * n <= |m0| && |m0| == mb.mem.Length
    requires mb.offset == Slot(s0, k) && mb.mem[..] == SignChain(m0, s0, k)
    modifies mb.mem
    ensures mb.mem[..] == SignChain(m0, s0, k + 1)
  {
    ghost var p := mb.mem[..];
    ghost var w := mb.Image();
    assert w == Window(p, s0, k);
    mb.UpdateSignature();
    assert mb.mem[..] == Overwrite(p, Slot(s0, k), SignBlock(w));
  }

  /** The second loop of `build_mailbox`: sign every block of the chain, first to last. */
  method SignAll(mbs: seq<Mailbox>, mem: array<byte>, ghost s0: nat)
    requires forall i :: 0 <= i < |mbs| ==> mbs[i].mem == mem && mbs[i].offset == Slot(s0, i)
    requires |mbs| == 0 || s0 + 0x400 * |mbs| <= mem.Length
    modifies mem
    ensures mem[..] == SignChain(old(mem[..]), s0, |mbs|)
  {
    ghost var m0 := mem[..];
    var k := 0;
    while k < |mbs|
      invariant 0 <= k <= |mbs|
      invariant mem[..] == SignChain(m0, s0, k)
    {
      SignNext(mbs[k], m0, s0, k, |mbs|);
      k := k + 1;
    }
  }

  /** Hands out consecutive 0x400-byte slots of a region, never reusing one. */
  class MailboxAllocator {
    const mem: array<byte>
    /** The region: `len` bytes from index `start` of the DMA memory, at device address `address`. */
    const start: nat
    const len: nat
    const address: nat
    var allocationOffset: nat

    predicate Valid() {
      start + len <= mem.Length && address + len <= 0x1_0000_0000_0000_0000
    }

    constructor (mem: array<byte>, start: nat, len: nat, address: nat)
      ensures this.mem == mem && this.start == start && this.len == len && this.address == address
      ensures allocationOffset == 0
    {
      this.mem := mem;
      this.start := start;
      this.len := len;
      this.address := address;
      allocationOffset := 0;
    }

    /** Memory index and device address of the slot the next block goes to. */
    function NextSlot(): nat
      reads this
    {
      start + allocationOffset
    }

    function NextAddress(): nat
      reads this
    {
      address + allocationOffset
    }

    /**
     * Returns the current offset and a block there, and moves the offset
     * on by 0x400.  A slot that does not fit in the region is a panic of
     * the sub-region view.
     */
    method AllocateMailbox() returns (r: Result<(nat, Mailbox)>)
      requires Valid()
      modifies this
      ensures allocationOffset == old(allocationOffset) + SLOT_LEN
      ensures r.Ok? <==> old(allocationOffset) + SLOT_LEN <= len
      ensures r.Err? ==> r.error == Panic
      ensures r.Ok? ==>
                && r.value.0 == old(allocationOffset)
                && fresh(r.value.1)
                && r.value.1.mem == mem
                && r.value.1.offset == start + old(allocationOffset)
                && r.value.1.address == address + old(allocationOffset)
                && r.value.1.Valid()
    {
      var mailboxOffset := allocationOffset;
      allocationOffset := allocationOffset + SLOT_LEN;
      if mailboxOffset + SLOT_LEN > len {
        return Err(Panic);
      }
      var mb := new Mailbox(mem, start + mailboxOffset, address + mailboxOffset);
      return Ok((mailboxOffset, mb));
    }

    /**
     * Builds the chain for `data`: one block per 0x200-byte piece in
     * consecutive slots, each linked to the next, numbered, tokened and,
     * once all are in place, signed.  Fails (a panic) exactly when the
     * region has no room for all of them.
     */
    method BuildMailbox(token: byte, data: seq<byte>) returns (r: Result<seq<Mailbox>>)
      requires Valid()
      modifies this, mem
      ensures r.Ok? <==> data == [] || old(allocationOffset) + 0x400 * NumChunks(|data|) <= len
      ensures r.Err? ==> r.error == Panic
      ensures r.Ok? ==>
                && |r.value| == NumChunks(|data|)
                && allocationOffset == old(allocationOffset) + 0x400 * |r.value|
                && (data == [] || ChainFits(mem.Length, old(NextSlot()), old(NextAddress()), |r.value|))
                && Placed(r.value, mem, old(NextSlot()), old(NextAddress()))
      ensures r.Ok? ==>
                mem[..] == Built(old(mem[..]), old(NextSlot()),
                                 old(NextAddress()), token, Chunks(data))
    {
      var chunks := Chunks(data);
      ghost var m0 := old(mem[..]);
      ghost var s0 := old(NextSlot());
      ghost var a0 := old(NextAddress());
      ghost var o0 := old(allocationOffset);
      var mbs: seq<Mailbox> := [];
      var k := 0;
      while k < |chunks|
        invariant 0 <= k <= |chunks| && |mbs| == k
        invariant allocationOffset == o0 + 0x400 * k
        invariant k > 0 ==> o0 + 0x400 * k <= len
        invariant k > 0 ==> ChainFits(mem.Length, s0, a0, k)
        invariant Placed(mbs, mem, s0, a0)
        invariant mem[..] == Fill(m0, s0, a0, token, chunks, k)
      {
        var res := AllocateMailbox();
        if res.Err? {
          return Err(res.error);
        }
        var mb := res.value.1;
        WriteBlock(if k > 0 then Some(mbs[k - 1]) else None, mb, s0, a0, token, chunks[k], k);
        PlacedSnoc(mbs, mb, mem, s0, a0);
        mbs := mbs + [mb];
        k := k + 1;
      }
      SignAll(mbs, mem, s0);
      assert mem[..] == Built(m0, s0, a0, token, chunks);
      r := Ok(mbs);
    }
  }
}
