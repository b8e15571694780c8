/**
 * Python's integers and their bitwise operators.
 *
 * Python integers are unbounded and behave under `&`, `|`, `^` and `~`
 * as if written in two's complement with infinitely many sign bits;
 * `x >> k` is floor division by 2^k and `x << k` multiplication by 2^k.
 * The operators here are defined digit by digit on `int`, the way such
 * an integer is read off from its lowest bit: a non-negative number ends
 * in 0s, a negative one in 1s.
 */
module PyInt {

  function Pow2(k: nat): (r: nat)
    ensures r >= 1
  {
    if k == 0 then 1 else 2 * Pow2(k - 1)
  }

  /** `x << k`. */
  function Shl(x: int, k: nat): int {
    x * Pow2(k)
  }

  /** `x >> k`: Dafny's `/` by a positive divisor rounds down, as Python's does. */
  function Shr(x: int, k: nat): int {
    x / Pow2(k)
  }

  /** `~x`. */
  function Not(x: int): int {
    -x - 1
  }

  /** The distance from the two fixed points 0 and -1 of halving. */
  function Size(x: int): nat {
    if x >= 0 then x else -x - 1
  }

  lemma HalfSmaller(x: int)
    requires x != 0 && x != -1
    ensures Size(x / 2) < Size(x)
  {
  }

  /** `a & b`. */
  function And(a: int, b: int): int
    decreases Size(a) + Size(b)
  {
    if a == 0 || b == 0 then 0
    else if a == -1 then b
    else if b == -1 then a
    else
      HalfSmaller(a); HalfSmaller(b);
      2 * And(a / 2, b / 2) + (a % 2) * (b % 2)
  }

  /** `a | b`. */
  function Or(a: int, b: int): int
    decreases Size(a) + Size(b)
  {
    if a == 0 then b
    else if b == 0 then a
    else if a == -1 || b == -1 then -1
    else
      HalfSmaller(a); HalfSmaller(b);
      2 * Or(a / 2, b / 2) + (if a % 2 == 1 || b % 2 == 1 then 1 else 0)
  }

  /** `a ^ b`. */
  function Xor(a: int, b: int): int
    decreases Size(a) + Size(b)
  {
    if a == 0 then b
    else if b == 0 then a
    else if a == -1 then Not(b)
    else if b == -1 then Not(a)
    else
      HalfSmaller(a); HalfSmaller(b);
      2 * Xor(a / 2, b / 2) + (a % 2 + b % 2) % 2
  }

  /** Bit `i` of `x` in two's complement: `(x >> i) & 1 == 1`. */
  predicate Bit(x: int, i: nat)
    decreases i
  {
    if i == 0 then x % 2 == 1 else Bit(x / 2, i - 1)
  }

  // ---------------------------------------------------------------------
  // Bits of the operators

  lemma {:induction false} BitZero(i: nat)
    ensures !Bit(0, i)
  {
    if i > 0 {
      BitZero(i - 1);
    }
  }

  lemma {:induction false} BitMinusOne(i: nat)
    ensures Bit(-1, i)
  {
    if i > 0 {
      BitMinusOne(i - 1);
    }
  }

  /** Doubling and adding a digit puts the digit at bit 0 and shifts the rest up. */
  lemma Digit(y: int, d: int, i: nat)
    requires d == 0 || d == 1
    ensures Bit(2 * y + d, i) == if i == 0 then d == 1 else Bit(y, i - 1)
  {
    assert (2 * y + d) / 2 == y;
  }

  lemma Halves(x: int)
    ensures x == 2 * (x / 2) + x % 2 && (x % 2 == 0 || x % 2 == 1)
  {
  }

  /** Bit `i` of `a & b` is set exactly when it is set in both. */
  lemma {:induction false} BitAnd(a: int, b: int, i: nat)
    ensures Bit(And(a, b), i) <==> Bit(a, i) && Bit(b, i)
    decreases i
  {
    if a == 0 || b == 0 {
      BitZero(i);
    } else if a == -1 {
      BitMinusOne(i);
    } else if b == -1 {
      BitMinusOne(i);
    } else {
      Digit(And(a / 2, b / 2), (a % 2) * (b % 2), i);
      if i > 0 {
        BitAnd(a / 2, b / 2, i - 1);
      }
    }
  }

  /** Bit `i` of `a | b` is set exactly when it is set in either. */
  lemma {:induction false} BitOr(a: int, b: int, i: nat)
    ensures Bit(Or(a, b), i) <==> Bit(a, i) || Bit(b, i)
    decreases i
  {
    if a == 0 || b == 0 {
      BitZero(i);
    } else if a == -1 || b == -1 {
      BitMinusOne(i);
    } else {
      Digit(Or(a / 2, b / 2), if a % 2 == 1 || b % 2 == 1 then 1 else 0, i);
      if i > 0 {
        BitOr(a / 2, b / 2, i - 1);
      }
    }
  }

  /** Bit `i` of `~x` is the opposite of bit `i` of `x`. */
  lemma {:induction false} BitNot(x: int, i: nat)
    ensures Bit(Not(x), i) <==> !Bit(x, i)
    decreases i
  {
    assert Not(x) / 2 == Not(x / 2);
    if i > 0 {
      BitNot(x / 2, i - 1);
    }
  }

  /** Bit `i` of `a ^ b` is set exactly when the two bits differ. */
  lemma {:induction false} BitXor(a: int, b: int, i: nat)
    ensures Bit(Xor(a, b), i) <==> Bit(a, i) != Bit(b, i)
    decreases i
  {
    if a == 0 || b == 0 {
      BitZero(i);
    } else if a == -1 {
      BitMinusOne(i);
      BitNot(b, i);
    } else if b == -1 {
      BitMinusOne(i);
      BitNot(a, i);
    } else {
      Digit(Xor(a / 2, b / 2), (a % 2 + b % 2) % 2, i);
      if i > 0 {
        BitXor(a / 2, b / 2, i - 1);
      }
    }
  }

  // ---------------------------------------------------------------------
  // Masks and shifts as arithmetic

  lemma {:induction false} MulAtLeast(d: int, k: int)
    requires d > 0 && k >= 1
    ensures d * k >= d
    decreases k
  {
    if k > 1 {
      MulAtLeast(d, k - 1);
      assert d * k == d * (k - 1) + d;
    }
  }

  /** Division with remainder determines quotient and remainder. */
  lemma DivModUnique(x: int, d: int, q: int, m: int)
    requires d > 0 && 0 <= m < d && x == d * q + m
    ensures x / d == q && x % d == m
  {
    var k := x / d - q;
    assert d * (x / d) + x % d == d * q + m;
    assert d * k == m - x % d by {
      assert d * (x / d) == d * q + d * k;
    }
    if k >= 1 {
      MulAtLeast(d, k);
    } else if k <= -1 {
      assert d * (-k) == x % d - m;
      MulAtLeast(d, -k);
    }
  }

  lemma Pow2Add(a: nat, b: nat)
    ensures Pow2(a + b) == Pow2(a) * Pow2(b)
    decreases a
  {
    if a > 0 {
      Pow2Add(a - 1, b);
    }
  }

  lemma MulBelow(p: int, t: int, r: int)
    requires p > 0 && 0 <= t < r
    ensures 0 <= p * t <= p * r - p
  {
    assert p * (r - t) == p * r - p * t;
    MulAtLeast(p, r - t);
    if t > 0 {
      MulAtLeast(p, t);
    }
  }

  lemma DivDiv(x: int, p: int, r: int)
    requires p > 0 && r > 0
    ensures (x / p) / r == x / (p * r)
  {
    var q := x / p;
    var s := q / r;
    var m := p * (q % r) + x % p;
    assert x == (p * r) * s + m by {
      assert x == p * q + x % p;
      assert q == r * s + q % r;
      assert p * q == (p * r) * s + p * (q % r);
    }
    MulBelow(p, q % r, r);
    DivModUnique(x, p * r, s, m);
  }

  /** `(x >> a) >> b == x >> (a + b)`. */
  lemma ShrShr(x: int, a: nat, b: nat)
    ensures Shr(Shr(x, a), b) == Shr(x, a + b)
  {
    Pow2Add(a, b);
    DivDiv(x, Pow2(a), Pow2(b));
  }

  lemma ModDouble(x: int, p: int)
    requires p >= 1
    ensures x % (2 * p) == 2 * ((x / 2) % p) + x % 2
  {
    var q := x / 2;
    assert x == 2 * q + x % 2;
    assert q == p * (q / p) + q % p;
    assert x == (2 * p) * (q / p) + (2 * (q % p) + x % 2);
    DivModUnique(x, 2 * p, q / p, 2 * (q % p) + x % 2);
  }

  /** `x & ((1 << k) - 1)` keeps the low `k` bits: it is `x` modulo 2^k, never negative. */
  lemma {:induction false} AndLowMask(x: int, k: nat)
    ensures And(x, Pow2(k) - 1) == x % Pow2(k)
    decreases k
  {
    if k == 0 {
    } else if x == 0 {
    } else if x == -1 {
      DivModUnique(-1, Pow2(k), -1, Pow2(k) - 1);
    } else {
      var m := Pow2(k) - 1;
      assert m / 2 == Pow2(k - 1) - 1 && m % 2 == 1;
      if k > 1 {
        assert m != -1 && m != 0;
      }
      AndLowMask(x / 2, k - 1);
      ModDouble(x, Pow2(k - 1));
    }
  }

  /** `x & (1 << k)` is 2^k when bit `k` of `x` is set and 0 otherwise. */
  lemma {:induction false} AndPow2(x: int, k: nat)
    ensures And(x, Pow2(k)) == if Bit(x, k) then Pow2(k) else 0
    decreases k
  {
    if x == 0 {
      BitZero(k);
    } else if x == -1 {
      BitMinusOne(k);
    } else if k == 0 {
    } else {
      assert Pow2(k) / 2 == Pow2(k - 1) && Pow2(k) % 2 == 0;
      AndPow2(x / 2, k - 1);
    }
  }

  /** Bit `k` of a number in [0, 2^(k+1)) is set exactly when the number is at least 2^k. */
  lemma {:induction false} TopBit(x: int, k: nat)
    requires 0 <= x < 2 * Pow2(k)
    ensures Bit(x, k) <==> x >= Pow2(k)
    decreases k
  {
    if k > 0 {
      TopBit(x / 2, k - 1);
    }
  }

  /** When `b` fits in `k` bits, `(a << k) | b` is `a * 2^k + b`. */
  lemma {:induction false} OrDisjoint(a: int, b: int, k: nat)
    requires 0 <= b < Pow2(k)
    ensures Or(Shl(a, k), b) == Shl(a, k) + b
    decreases k
  {
    if k == 0 || a == 0 || b == 0 {
    } else {
      var y := Shl(a, k);
      assert y == 2 * Shl(a, k - 1);
      assert y / 2 == Shl(a, k - 1) && y % 2 == 0;
      if y == -1 {
        assert false;
      }
      OrDisjoint(a, b / 2, k - 1);
      assert Or(y, b) == 2 * Or(y / 2, b / 2) + b % 2;
    }
  }

  /** A non-negative number below 2^k has no bits at `k` or above. */
  lemma {:induction false} BitsAbove(x: int, k: nat, i: nat)
    requires 0 <= x < Pow2(k) && i >= k
    ensures !Bit(x, i)
    decreases k
  {
    if k == 0 {
      BitZero(i);
    } else if i > 0 {
      BitsAbove(x / 2, k - 1, i - 1);
    }
  }

  /** `(1 << k) - 1` has exactly the bits below `k` set. */
  lemma {:induction false} BitLowMask(k: nat, i: nat)
    ensures Bit(Pow2(k) - 1, i) <==> i < k
    decreases k
  {
    if k == 0 {
      BitZero(i);
    } else {
      assert Pow2(k) - 1 == 2 * (Pow2(k - 1) - 1) + 1;
      Digit(Pow2(k - 1) - 1, 1, i);
      if i > 0 {
        BitLowMask(k - 1, i - 1);
      }
    }
  }

  /** Bit `i` of `m << s` is bit `i - s` of `m`, and clear below `s`. */
  lemma {:induction false} BitShl(m: int, s: nat, i: nat)
    ensures Bit(Shl(m, s), i) <==> i >= s && Bit(m, i - s)
    decreases s
  {
    if s > 0 {
      assert Shl(m, s) == 2 * Shl(m, s - 1) + 0;
      Digit(Shl(m, s - 1), 0, i);
      if i > 0 {
        BitShl(m, s - 1, i - 1);
      }
    }
  }
}
