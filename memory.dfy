/**
 * Byte access to device-visible memory.  All DMA memory of the driver is
 * one byte array; the command queue entry and the mailbox blocks are views
 * at offsets into it.  Register writes are big-endian byte images written
 * with `Write`.
 */
module Memory {
  import opened Bytes

  /** Writes `w` at `mem[at ..]`, byte by byte. */
  method Write(mem: array<byte>, at: nat, w: seq<byte>)
    requires at + |w| <= mem.Length
    modifies mem
    ensures mem[..] == Overwrite(old(mem[..]), at, w)
  {
    var i := 0;
    while i < |w|
      invariant 0 <= i <= |w|
      invariant forall j :: 0 <= j < mem.Length ==>
          mem[j] == if at <= j < at + i then w[j - at] else old(mem[j])
    {
      mem[at + i] := w[i];
      i := i + 1;
    }
    OverwriteAt(old(mem[..]), at, w);
  }

  /** Reads `n` bytes from `mem[at ..]`. */
  method Read(mem: array<byte>, at: nat, n: nat) returns (r: seq<byte>)
    requires at + n <= mem.Length
    ensures r == mem[at..at + n]
  {
    r := [];
    var i := 0;
    while i < n
      invariant 0 <= i <= n
      invariant r == mem[at..at + i]
    {
      r := r + [mem[at + i]];
      i := i + 1;
    }
  }

  /** The accumulator loop `acc ^= x` over `s`. */
  method XorLoop(init: byte, s: seq<byte>) returns (acc: byte)
    ensures acc == XorFold(init, s)
  {
    acc := init;
    var i := 0;
    while i < |s|
      invariant 0 <= i <= |s|
      invariant acc == XorFold(init, s[..i])
    {
      assert s[..i + 1] == s[..i] + [s[i]];
      XorFoldSnoc(init, s[..i], s[i]);
      acc := XorByte(acc, s[i]);
      i := i + 1;
    }
    assert s[..i] == s;
  }
}
