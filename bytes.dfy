/**
 * Fixed-width integers and their big-endian byte images.
 *
 * Every device-visible multi-byte field of the command interface is stored
 * big-endian, whatever the host byte order.  The wire codecs, the command
 * queue entry and the mailbox blocks are all written in terms of the
 * functions of this module.
 */
module Bytes {

  type byte = x: int | 0 <= x < 0x100
  type u16 = x: int | 0 <= x < 0x1_0000
  type u24 = x: int | 0 <= x < 0x100_0000
  type u32 = x: int | 0 <= x < 0x1_0000_0000
  type u64 = x: int | 0 <= x < 0x1_0000_0000_0000_0000
  type i32 = x: int | -0x8000_0000 <= x < 0x8000_0000

  const TWO_32: int := 0x1_0000_0000

  /** `n` zero bytes. */
  function Zeros(n: nat): (r: seq<byte>)
    ensures |r| == n
    ensures forall i :: 0 <= i < n ==> r[i] == 0
  {
    seq(n, _ => 0)
  }

  lemma ZerosAppend(m: nat, n: nat)
    ensures Zeros(m) + Zeros(n) == Zeros(m + n)
  {
  }

  predicate AllZero(s: seq<byte>) {
    forall i :: 0 <= i < |s| ==> s[i] == 0
  }

  /** `hi * 0x100 + lo` splits back into `hi` and `lo`. */
  lemma Split8(hi: nat, lo: byte)
    ensures (hi * 0x100 + lo) / 0x100 == hi
    ensures (hi * 0x100 + lo) % 0x100 == lo
  {
  }

  function BE16(x: u16): (r: seq<byte>)
    ensures |r| == 2
  {
    [x / 0x100, x % 0x100]
  }

  function FromBE16(b: seq<byte>): (x: u16)
    requires |b| == 2
    ensures BE16(x) == b
  {
    Split8(b[0], b[1]);
    (b[0] as int) * 0x100 + b[1]
  }

  /** The upper bytes are the image of `x / 0x100`, the last one `x % 0x100`. */
  function BE24(x: u24): (r: seq<byte>)
    ensures |r| == 3
  {
    BE16(x / 0x100) + [x % 0x100]
  }

  function FromBE24(b: seq<byte>): (x: u24)
    requires |b| == 3
    ensures BE24(x) == b
  {
    var hi := FromBE16(b[..2]);
    Split8(hi, b[2]);
    assert b == b[..2] + [b[2]];
    hi * 0x100 + b[2]
  }

  function BE32(x: u32): (r: seq<byte>)
    ensures |r| == 4
  {
    BE24(x / 0x100) + [x % 0x100]
  }

  function FromBE32(b: seq<byte>): (x: u32)
    requires |b| == 4
    ensures BE32(x) == b
  {
    var hi := FromBE24(b[..3]);
    Split8(hi, b[3]);
    assert b == b[..3] + [b[3]];
    hi * 0x100 + b[3]
  }

  /** Upper and lower 32-bit halves of a 64-bit value (`x >> 32`, `x & 0xffffffff`). */
  function Hi32(x: u64): u32 {
    x / 0x1_0000_0000
  }

  function Lo32(x: u64): u32 {
    x % 0x1_0000_0000
  }

  /** The two halves put back together. */
  lemma Halves(x: u64)
    ensures Hi32(x) * 0x1_0000_0000 + Lo32(x) == x
  {
  }

  /** `hi * 2^32 + lo` is a 64-bit value whose halves are `hi` and `lo`. */
  lemma Split32(hi: u32, lo: u32)
    ensures 0 <= hi * 0x1_0000_0000 + lo < 0x1_0000_0000_0000_0000
    ensures Hi32(hi * 0x1_0000_0000 + lo) == hi && Lo32(hi * 0x1_0000_0000 + lo) == lo
  {
  }

  function BE64(x: u64): (r: seq<byte>)
    ensures |r| == 8
  {
    BE32(Hi32(x)) + BE32(Lo32(x))
  }

  function FromBE64(b: seq<byte>): (x: u64)
    requires |b| == 8
    ensures BE64(x) == b
  {
    var hi := FromBE32(b[..4]);
    var lo := FromBE32(b[4..]);
    Split32(hi, lo);
    assert b == b[..4] + b[4..];
    hi * 0x1_0000_0000 + lo
  }

  /** Two's-complement reading of a big-endian 32-bit word, as Rust's `i32`. */
  function FromBE32Signed(b: seq<byte>): (x: i32)
    requires |b| == 4
    ensures x % TWO_32 == FromBE32(b)
  {
    var u := FromBE32(b);
    if u < 0x8000_0000 then u else u - TWO_32
  }

  function BE32Signed(x: i32): (r: seq<byte>)
    ensures |r| == 4
    ensures FromBE32Signed(r) == x
  {
    var r := BE32(x % TWO_32);
    assert FromBE32(r) == x % TWO_32;
    r
  }

  lemma BE16Inverse(x: u16)
    ensures FromBE16(BE16(x)) == x
  {
  }

  lemma BE24Inverse(x: u24)
    ensures FromBE24(BE24(x)) == x
  {
    var b := BE24(x);
    assert b[..2] == BE16(x / 0x100);
    BE16Inverse(x / 0x100);
  }

  lemma BE32Inverse(x: u32)
    ensures FromBE32(BE32(x)) == x
  {
    var b := BE32(x);
    assert b[..3] == BE24(x / 0x100);
    BE24Inverse(x / 0x100);
  }

  lemma BE64Inverse(x: u64)
    ensures FromBE64(BE64(x)) == x
  {
    var b := BE64(x);
    assert b[..4] == BE32(Hi32(x));
    assert b[4..] == BE32(Lo32(x));
    BE32Inverse(Hi32(x));
    BE32Inverse(Lo32(x));
  }

  /** Big-endian image of a sequence of 64-bit words, one after another. */
  function BE64s(xs: seq<u64>): (r: seq<byte>)
    ensures |r| == 8 * |xs|
  {
    if |xs| == 0 then [] else BE64(xs[0]) + BE64s(xs[1..])
  }

  /** The first `n` big-endian 64-bit words of `b`. */
  function FromBE64s(b: seq<byte>, n: nat): (xs: seq<u64>)
    requires 8 * n <= |b|
    ensures |xs| == n
  {
    if n == 0 then [] else [FromBE64(b[..8])] + FromBE64s(b[8..], n - 1)
  }

  /** Decoding the image of `xs`, whatever follows it, gives `xs` back. */
  lemma {:induction false} BE64sInverse(xs: seq<u64>, rest: seq<byte>)
    ensures FromBE64s(BE64s(xs) + rest, |xs|) == xs
  {
    if |xs| > 0 {
      var b := BE64s(xs) + rest;
      assert b[..8] == BE64(xs[0]);
      assert b[8..] == BE64s(xs[1..]) + rest;
      BE64Inverse(xs[0]);
      BE64sInverse(xs[1..], rest);
    }
  }

  /** Two words lie one after the other. */
  lemma BE64sTwo(a: u64, b: u64)
    ensures BE64s([a, b]) == BE64(a) + BE64(b)
  {
    assert [b][1..] == [];
    assert BE64s([b]) == BE64(b) + [];
    assert [a, b][1..] == [b];
  }

  /** Three words lie one after the other. */
  lemma BE64sThree(a: u64, b: u64, c: u64)
    ensures BE64s([a, b, c]) == BE64(a) + BE64(b) + BE64(c)
  {
    BE64sTwo(b, c);
    assert [a, b, c][1..] == [b, c];
  }

  lemma BE64sInjective(xs: seq<u64>, ys: seq<u64>)
    requires |xs| == |ys|
    requires BE64s(xs) == BE64s(ys)
    ensures xs == ys
  {
    BE64sInverse(xs, []);
    BE64sInverse(ys, []);
    assert BE64s(xs) + [] == BE64s(ys) + [];
  }

  /** Big-endian image of a sequence of 32-bit words. */
  function BE32s(xs: seq<u32>): (r: seq<byte>)
    ensures |r| == 4 * |xs|
  {
    if |xs| == 0 then [] else BE32(xs[0]) + BE32s(xs[1..])
  }

  /**
   * Reads all of `b` as big-endian 32-bit words; fails when a partial word
   * is left over.
   */
  function FromBE32s(b: seq<byte>): (r: Option<seq<u32>>)
    ensures r.Some? <==> |b| % 4 == 0
    ensures r.Some? ==> 4 * |r.value| == |b|
  {
    if |b| == 0 then Some([])
    else if |b| < 4 then None
    else
      match FromBE32s(b[4..])
      case None => None
      case Some(rest) => Some([FromBE32(b[..4])] + rest)
  }

  lemma {:induction false} BE32sInverse(xs: seq<u32>)
    ensures FromBE32s(BE32s(xs)) == Some(xs)
  {
    if |xs| > 0 {
      var b := BE32s(xs);
      assert b[..4] == BE32(xs[0]);
      assert b[4..] == BE32s(xs[1..]);
      BE32Inverse(xs[0]);
      BE32sInverse(xs[1..]);
      assert [xs[0]] + xs[1..] == xs;
    }
  }

  /** Whatever decodes as words is the encoding of those words. */
  lemma {:induction false} BE32sReencode(b: seq<byte>)
    requires FromBE32s(b).Some?
    ensures BE32s(FromBE32s(b).value) == b
  {
    if |b| > 0 {
      var ws := FromBE32s(b).value;
      var rest := FromBE32s(b[4..]).value;
      assert ws == [FromBE32(b[..4])] + rest;
      assert ws[0] == FromBE32(b[..4]) && ws[1..] == rest;
      BE32sReencode(b[4..]);
      assert BE32s(ws) == b[..4] + b[4..];
      assert b == b[..4] + b[4..];
    }
  }

  lemma BE32sInjective(xs: seq<u32>, ys: seq<u32>)
    requires BE32s(xs) == BE32s(ys)
    ensures xs == ys
  {
    BE32sInverse(xs);
    BE32sInverse(ys);
  }

  /** Rust's `Vec::resize(n, 0)`: truncate, or pad with zero bytes. */
  function Resize(s: seq<byte>, n: nat): (r: seq<byte>)
    ensures |r| == n
    ensures forall i :: 0 <= i < n ==> r[i] == if i < |s| then s[i] else 0
  {
    if n <= |s| then s[..n] else s + Zeros(n - |s|)
  }

  datatype Option<+T> = None | Some(value: T)

  /** `s` with `w` written over it from index `at` on. */
  function Overwrite(s: seq<byte>, at: nat, w: seq<byte>): (r: seq<byte>)
    requires at + |w| <= |s|
    ensures |r| == |s|
  {
    seq(|s|, i requires 0 <= i < |s| => OverwrittenByte(s, at, w, i))
  }

  function OverwrittenByte(s: seq<byte>, at: nat, w: seq<byte>, i: nat): byte
    requires at + |w| <= |s| && i < |s|
  {
    if at <= i < at + |w| then w[i - at] else s[i]
  }

  /** Byte `i` after the write: from `w` inside the written range, from `s` outside it. */
  lemma {:induction false} OverwriteAt(s: seq<byte>, at: nat, w: seq<byte>)
    requires at + |w| <= |s|
    ensures forall i :: 0 <= i < |s| ==>
              Overwrite(s, at, w)[i] == if at <= i < at + |w| then w[i - at] else s[i]
  {
  }

  /** Two writes side by side are one write of both. */
  lemma OverwriteAdjacent(s: seq<byte>, at: nat, x: seq<byte>, y: seq<byte>)
    requires at + |x| + |y| <= |s|
    ensures Overwrite(Overwrite(s, at, x), at + |x|, y) == Overwrite(s, at, x + y)
  {
    OverwriteAt(s, at, x);
    OverwriteAt(Overwrite(s, at, x), at + |x|, y);
    OverwriteAt(s, at, x + y);
  }

  /** The written bytes read back. */
  lemma OverwriteReadBack(m: seq<byte>, at: nat, w: seq<byte>)
    requires at + |w| <= |m|
    ensures Overwrite(m, at, w)[at..at + |w|] == w
  {
    OverwriteAt(m, at, w);
  }

  /** Looking at a window of memory that contains a write. */
  lemma OverwriteSliceInside(m: seq<byte>, s: nat, len: nat, at: nat, w: seq<byte>)
    requires s <= at && at + |w| <= s + len && s + len <= |m|
    ensures Overwrite(m, at, w)[s..s + len] == Overwrite(m[s..s + len], at - s, w)
  {
    OverwriteAt(m, at, w);
    OverwriteAt(m[s..s + len], at - s, w);
  }

  /** Looking at a window of memory that a write does not reach. */
  lemma OverwriteSliceOutside(m: seq<byte>, s: nat, len: nat, at: nat, w: seq<byte>)
    requires at + |w| <= |m| && s + len <= |m|
    requires at + |w| <= s || s + len <= at
    ensures Overwrite(m, at, w)[s..s + len] == m[s..s + len]
  {
    OverwriteAt(m, at, w);
  }

  /** Bitwise exclusive or, bit by bit from the least significant end. */
  function Xor(a: nat, b: nat): nat
    decreases a + b
  {
    if a == 0 then b
    else if b == 0 then a
    else 2 * Xor(a / 2, b / 2) + (if a % 2 == b % 2 then 0 else 1)
  }

  /** The bits above the lowest are the exclusive or of the halves; the lowest is set when the lowest bits differ. */
  lemma {:induction false} XorHalves(a: nat, b: nat)
    ensures Xor(a, b) / 2 == Xor(a / 2, b / 2)
    ensures Xor(a, b) % 2 == if a % 2 == b % 2 then 0 else 1
  {
  }

  lemma {:induction false} XorComm(a: nat, b: nat)
    ensures Xor(a, b) == Xor(b, a)
    decreases a + b
  {
    if a != 0 && b != 0 {
      XorComm(a / 2, b / 2);
    }
  }

  lemma {:induction false} XorSelf(a: nat)
    ensures Xor(a, a) == 0
    decreases a
  {
    if a != 0 {
      XorSelf(a / 2);
    }
  }

  lemma {:induction false} XorAssoc(a: nat, b: nat, c: nat)
    ensures Xor(Xor(a, b), c) == Xor(a, Xor(b, c))
    decreases a + b + c
  {
    if a != 0 && b != 0 && c != 0 {
      XorAssoc(a / 2, b / 2, c / 2);
      XorAssocHigh(a, b, c);
      XorAssocLow(a, b, c);
      HalvesEqual(Xor(Xor(a, b), c), Xor(a, Xor(b, c)));
    }
  }

  /** The bits above the lowest agree once they agree for the halves. */
  lemma XorAssocHigh(a: nat, b: nat, c: nat)
    requires Xor(Xor(a / 2, b / 2), c / 2) == Xor(a / 2, Xor(b / 2, c / 2))
    ensures Xor(Xor(a, b), c) / 2 == Xor(a, Xor(b, c)) / 2
  {
    XorHalves(a, b);
    XorHalves(b, c);
    XorHalves(Xor(a, b), c);
    XorHalves(a, Xor(b, c));
  }

  /** The lowest bits agree. */
  lemma XorAssocLow(a: nat, b: nat, c: nat)
    ensures Xor(Xor(a, b), c) % 2 == Xor(a, Xor(b, c)) % 2
  {
    XorHalves(a, b);
    XorHalves(Xor(a, b), c);
    XorHalves(b, c);
    XorHalves(a, Xor(b, c));
  }

  lemma HalvesEqual(x: nat, y: nat)
    requires x / 2 == y / 2 && x % 2 == y % 2
    ensures x == y
  {
  }

  lemma {:induction false} XorBound(a: nat, b: nat, n: nat)
    requires a < Pow2(n) && b < Pow2(n)
    ensures Xor(a, b) < Pow2(n)
    decreases n
  {
    if a != 0 && b != 0 {
      XorBound(a / 2, b / 2, n - 1);
    }
  }

  function Pow2(n: nat): (p: nat)
    ensures p >= 1
  {
    if n == 0 then 1 else 2 * Pow2(n - 1)
  }

  /** A one-bit flag at the bit of value `weight`. */
  function Bit(b: bool, weight: nat): nat {
    if b then weight else 0
  }

  /** A bit field read most significant bit first: `bits` as a binary number. */
  function BitsValue(bits: seq<bool>): nat
    decreases |bits|
  {
    if |bits| == 0 then 0
    else BitsValue(bits[..|bits| - 1]) * 2 + (if bits[|bits| - 1] then 1 else 0)
  }

  /** One more bit at the low end doubles the value and adds that bit. */
  lemma BitsValueSnoc(bits: seq<bool>, b: bool)
    ensures BitsValue(bits + [b]) == BitsValue(bits) * 2 + (if b then 1 else 0)
  {
    assert (bits + [b])[..|bits|] == bits;
  }

  /** The low `n` bits of `x`, most significant first. */
  function ReadBits(x: nat, n: nat): (r: seq<bool>)
    ensures |r| == n
  {
    if n == 0 then [] else ReadBits(x / 2, n - 1) + [x % 2 == 1]
  }

  /** Reading back as many bits as were packed gives the same bits. */
  lemma {:induction false} ReadBitsValue(bits: seq<bool>)
    ensures ReadBits(BitsValue(bits), |bits|) == bits
    decreases |bits|
  {
    if |bits| > 0 {
      var p := bits[..|bits| - 1];
      ReadBitsValue(p);
      assert bits == p + [bits[|bits| - 1]];
    }
  }

  /** `n` packed bits stay below 2^n. */
  lemma {:induction false} BitsBound(bits: seq<bool>)
    ensures BitsValue(bits) < Pow2(|bits|)
    decreases |bits|
  {
    if |bits| > 0 {
      BitsBound(bits[..|bits| - 1]);
    }
  }

  /** Exclusive or of two bytes is a byte. */
  function XorByte(a: byte, b: byte): (r: byte)
    ensures r == Xor(a, b)
  {
    assert Pow2(8) == 0x100;
    XorBound(a, b, 8);
    Xor(a, b)
  }

  /** The running `acc ^= x` over `s`, starting from `acc`. */
  function XorFold(acc: byte, s: seq<byte>): byte
    decreases |s|
  {
    if s == [] then acc else XorFold(XorByte(acc, s[0]), s[1..])
  }

  lemma {:induction false} XorFoldAppend(acc: byte, s: seq<byte>, t: seq<byte>)
    ensures XorFold(acc, s + t) == XorFold(XorFold(acc, s), t)
    decreases |s|
  {
    if s == [] {
      assert s + t == t;
    } else {
      assert (s + t)[1..] == s[1..] + t;
      XorFoldAppend(XorByte(acc, s[0]), s[1..], t);
    }
  }

  /** Folding one more byte onto the end of `s`. */
  lemma XorFoldSnoc(acc: byte, s: seq<byte>, x: byte)
    ensures XorFold(acc, s + [x]) == XorByte(XorFold(acc, s), x)
  {
    XorFoldAppend(acc, s, [x]);
    assert [x][1..] == [];
  }

  /** The accumulator can be pulled out of the fold. */
  lemma {:induction false} XorFoldAcc(acc: byte, s: seq<byte>)
    ensures XorFold(acc, s) == Xor(acc, XorFold(0, s))
    decreases |s|
  {
    if s != [] {
      XorFoldAcc(XorByte(acc, s[0]), s[1..]);
      XorFoldAcc(XorByte(0, s[0]), s[1..]);
      XorAssoc(acc, s[0], XorFold(0, s[1..]));
    }
  }

  /** `((a ^ k) ^ r) ^ k == a ^ r`, the step that cancels a replaced byte. */
  lemma XorCancel(a: nat, k: nat, r: nat)
    ensures Xor(Xor(Xor(a, k), r), k) == Xor(a, r)
  {
    XorAssoc(a, k, r);
    XorComm(k, r);
    XorAssoc(a, r, k);
    XorAssoc(Xor(a, r), k, k);
    XorSelf(k);
  }

  /** Replacing byte `k` of `s` by `v` changes the fold by `s[k] ^ v`. */
  lemma XorFoldUpdate(acc: byte, s: seq<byte>, k: nat, v: byte)
    requires k < |s|
    ensures XorFold(acc, s[k := v]) == Xor(Xor(XorFold(acc, s), s[k]), v)
  {
    var t := s[k := v];
    assert s == (s[..k] + [s[k]]) + s[k + 1..];
    assert t == (s[..k] + [v]) + s[k + 1..];
    var a := XorFold(acc, s[..k]);
    XorFoldAppend(acc, s[..k] + [s[k]], s[k + 1..]);
    XorFoldAppend(acc, s[..k], [s[k]]);
    XorFoldAppend(acc, s[..k] + [v], s[k + 1..]);
    XorFoldAppend(acc, s[..k], [v]);
    var rest := XorFold(0, s[k + 1..]);
    XorFoldAcc(XorByte(a, s[k]), s[k + 1..]);
    XorFoldAcc(XorByte(a, v), s[k + 1..]);
    assert XorFold(acc, s) == Xor(Xor(a, s[k]), rest);
    assert XorFold(acc, t) == Xor(Xor(a, v), rest);
    XorCancel(a, s[k], rest);
    XorAssoc(a, v, rest);
    XorComm(v, rest);
    XorAssoc(a, rest, v);
  }

  /**
   * The integrity check shared by the command queue entry and the mailbox
   * blocks: byte `k` of `s` was zero when the fold of `s` from 0xff was
   * taken, and that fold was then stored at `k`.  Afterwards the fold of
   * the whole sequence from 0xff is zero.
   */
  lemma SignatureSelfConsistent(s: seq<byte>, k: nat)
    requires k < |s| && s[k] == 0
    ensures XorFold(0xff, s[k := XorFold(0xff, s)]) == 0
  {
    var f := XorFold(0xff, s);
    XorFoldUpdate(0xff, s, k, f);
    XorSelf(f);
  }
}
