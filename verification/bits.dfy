/** Bit-level view of non-negative integers, as Python's integer operators
    `&`, `|`, `^`, `<<`, `>>` and `& 0xFF` see them. The CPU keeps every
    register and flag as a plain integer and works on it with these operators. */
module Bits {

  /** 2 to the power n. */
  function Pow2(n: nat): (r: nat)
    ensures r >= 1
  {
    if n == 0 then 1 else 2 * Pow2(n - 1)
  }

  /** A byte: an integer the 8-bit machine can hold. */
  predicate IsByte(x: int) {
    0 <= x < 256
  }

  /** Bit i of n, counting from the least significant bit. */
  predicate Bit(n: nat, i: nat)
    decreases i
  {
    if i == 0 then n % 2 == 1 else Bit(n / 2, i - 1)
  }

  /** Python's `x & 0xFF` on any integer, negative ones included (two's complement). */
  function Mask(x: int): (r: int)
    ensures IsByte(r)
    ensures IsByte(x) ==> r == x
    ensures (r - x) % 256 == 0
  {
    x % 256
  }

  /** Python's `n >> k` on a non-negative integer: k halvings, rounding down. */
  function Shr(n: nat, k: nat): (r: nat)
    ensures r <= n
    decreases k
  {
    if k == 0 then n else Shr(n / 2, k - 1)
  }

  /** Python's `n << k` on a non-negative integer: k doublings. */
  function Shl(n: nat, k: nat): (r: nat)
    decreases k
  {
    if k == 0 then n else Shl(2 * n, k - 1)
  }

  /** Python's `a & b` on non-negative integers, built bit by bit. */
  function And(a: nat, b: nat): (r: nat)
    ensures r <= a && r <= b
    decreases a
  {
    if a == 0 || b == 0 then 0
    else 2 * And(a / 2, b / 2) + (if a % 2 == 1 && b % 2 == 1 then 1 else 0)
  }

  /** Python's `a | b` on non-negative integers, built bit by bit. */
  function Or(a: nat, b: nat): (r: nat)
    ensures a <= r && b <= r && r <= a + b
    decreases a
  {
    if a == 0 then b
    else if b == 0 then a
    else 2 * Or(a / 2, b / 2) + (if a % 2 == 1 || b % 2 == 1 then 1 else 0)
  }

  /** Python's `a ^ b` on non-negative integers, built bit by bit. */
  function Xor(a: nat, b: nat): (r: nat)
    ensures r <= a + b
    decreases a
  {
    if a == 0 then b
    else if b == 0 then a
    else 2 * Xor(a / 2, b / 2) + (if a % 2 != b % 2 then 1 else 0)
  }

  lemma {:induction false} ZeroBit(i: nat)
    ensures !Bit(0, i)
  {
    if i > 0 {
      ZeroBit(i - 1);
    }
  }

  /** Two numbers below 2^w with the same low w bits are the same number. */
  lemma {:induction false} BitsDetermine(n: nat, m: nat, w: nat)
    requires n < Pow2(w) && m < Pow2(w)
    requires forall i :: 0 <= i < w ==> Bit(n, i) == Bit(m, i)
    ensures n == m
  {
    if w > 0 {
      assert Bit(n, 0) == Bit(m, 0);
      forall i | 0 <= i < w - 1
        ensures Bit(n / 2, i) == Bit(m / 2, i)
      {
        assert Bit(n, i + 1) == Bit(m, i + 1);
      }
      BitsDetermine(n / 2, m / 2, w - 1);
    }
  }

  /** A number below 2^w has no bit set at or above position w. */
  lemma {:induction false} HighBitsClear(n: nat, w: nat, i: nat)
    requires n < Pow2(w) && w <= i
    ensures !Bit(n, i)
  {
    if w == 0 {
      ZeroBit(i);
    } else {
      HighBitsClear(n / 2, w - 1, i - 1);
    }
  }

  /** 2^k has exactly one bit set, bit k. */
  lemma {:induction false} Pow2Bit(k: nat, i: nat)
    ensures Bit(Pow2(k), i) <==> i == k
  {
    if k == 0 {
      if i > 0 {
        ZeroBit(i - 1);
      }
    } else if i > 0 {
      Pow2Bit(k - 1, i - 1);
    }
  }

  /** The bits of 2x + c: c at position 0, the bits of x above it. */
  lemma HalfBit(x: nat, c: nat, i: nat)
    requires c < 2
    ensures Bit(2 * x + c, i) <==> if i == 0 then c == 1 else Bit(x, i - 1)
  {
    assert (2 * x + c) % 2 == c;
    assert (2 * x + c) / 2 == x;
  }

  lemma {:induction false} AndBit(a: nat, b: nat, i: nat)
    ensures Bit(And(a, b), i) <==> Bit(a, i) && Bit(b, i)
    decreases a
  {
    if a == 0 || b == 0 {
      ZeroBit(i);
    } else {
      var c := if a % 2 == 1 && b % 2 == 1 then 1 else 0;
      assert And(a, b) == 2 * And(a / 2, b / 2) + c;
      HalfBit(And(a / 2, b / 2), c, i);
      if i > 0 {
        AndBit(a / 2, b / 2, i - 1);
      }
    }
  }

  lemma {:induction false} OrBit(a: nat, b: nat, i: nat)
    ensures Bit(Or(a, b), i) <==> Bit(a, i) || Bit(b, i)
    decreases a
  {
    if a == 0 || b == 0 {
      ZeroBit(i);
    } else {
      var c := if a % 2 == 1 || b % 2 == 1 then 1 else 0;
      assert Or(a, b) == 2 * Or(a / 2, b / 2) + c;
      HalfBit(Or(a / 2, b / 2), c, i);
      if i > 0 {
        OrBit(a / 2, b / 2, i - 1);
      }
    }
  }

  lemma {:induction false} XorBit(a: nat, b: nat, i: nat)
    ensures Bit(Xor(a, b), i) <==> Bit(a, i) != Bit(b, i)
    decreases a
  {
    if a == 0 || b == 0 {
      ZeroBit(i);
    } else {
      var c := if a % 2 != b % 2 then 1 else 0;
      assert Xor(a, b) == 2 * Xor(a / 2, b / 2) + c;
      HalfBit(Xor(a / 2, b / 2), c, i);
      if i > 0 {
        XorBit(a / 2, b / 2, i - 1);
      }
    }
  }

  /** `|` and `^` of two w-bit numbers stay w-bit numbers (`&` does by its contract). */
  lemma {:induction false} OrXorBound(a: nat, b: nat, w: nat)
    requires a < Pow2(w) && b < Pow2(w)
    ensures Or(a, b) < Pow2(w) && Xor(a, b) < Pow2(w)
  {
    if w > 0 && a != 0 && b != 0 {
      OrXorBound(a / 2, b / 2, w - 1);
    }
  }

  /** XOR with all ones of width w is the w-bit complement. */
  lemma {:induction false} XorOnes(a: nat, w: nat)
    requires a < Pow2(w)
    ensures Xor(a, Pow2(w) - 1) == Pow2(w) - 1 - a
  {
    if w > 0 && a != 0 {
      var ones := Pow2(w) - 1;
      assert ones == 2 * (Pow2(w - 1) - 1) + 1;
      assert ones / 2 == Pow2(w - 1) - 1 && ones % 2 == 1;
      XorOnes(a / 2, w - 1);
      assert Xor(a, ones) == 2 * (Pow2(w - 1) - 1 - a / 2) + (if a % 2 == 1 then 0 else 1);
      assert a == 2 * (a / 2) + a % 2;
    }
  }

  lemma MulAtLeast(d: nat, k: nat)
    requires k >= 1
    ensures d * k >= d
  {
    assert d * k == d * (k - 1) + d;
  }

  /** Division is determined by quotient and remainder. */
  lemma DivUnique(x: int, d: int, q: int, r: int)
    requires d > 0 && 0 <= r < d && x == d * q + r
    ensures x / d == q && x % d == r
  {
    var q', r' := x / d, x % d;
    assert x == d * q' + r' && 0 <= r' < d;
    if q > q' {
      assert d * q - d * q' == d * (q - q');
      MulAtLeast(d, q - q');
    } else if q < q' {
      assert d * q' - d * q == d * (q' - q);
      MulAtLeast(d, q' - q);
    }
  }

  lemma {:induction false} DivDouble(n: nat, p: nat)
    requires p > 0
    ensures n / (2 * p) == (n / 2) / p
  {
    var q, r := n / (2 * p), n % (2 * p);
    assert n == (2 * p) * q + r;
    DivUnique(n, 2, p * q + r / 2, r % 2);
    DivUnique(n / 2, p, q, r / 2);
  }

  lemma {:induction false} ModDouble(n: nat, p: nat)
    requires p > 0
    ensures n % (2 * p) == 2 * ((n / 2) % p) + n % 2
  {
    DivDouble(n, p);
    var q := n / (2 * p);
    assert n == 2 * p * q + n % (2 * p);
    assert n / 2 == p * q + (n / 2) % p;
    assert n == 2 * (n / 2) + n % 2;
  }

  /** Python's `n >> k`: bit i of the result is bit i + k of n. */
  lemma {:induction false} ShiftRightBit(n: nat, k: nat, i: nat)
    ensures Bit(Shr(n, k), i) <==> Bit(n, i + k)
    decreases k
  {
    if k > 0 {
      ShiftRightBit(n / 2, k - 1, i);
    }
  }

  /** Shifting right by k divides by 2^k. */
  lemma {:induction false} ShrIsDivision(n: nat, k: nat)
    ensures Shr(n, k) == n / Pow2(k)
    decreases k
  {
    if k > 0 {
      ShrIsDivision(n / 2, k - 1);
      DivDouble(n, Pow2(k - 1));
    }
  }

  /** Python's `n << k`: bit i of the result is bit i - k of n, zero below k. */
  lemma {:induction false} ShiftLeftBit(n: nat, k: nat, i: nat)
    ensures Bit(Shl(n, k), i) <==> k <= i && Bit(n, i - k)
    decreases k
  {
    if k > 0 {
      ShiftLeftBit(2 * n, k - 1, i);
      if k - 1 <= i {
        if i - (k - 1) > 0 {
          assert (2 * n) / 2 == n;
        }
      }
    }
  }

  /** Masking to w bits keeps bits below w and clears the rest. */
  lemma {:induction false} MaskBit(n: nat, w: nat, i: nat)
    ensures Bit(n % Pow2(w), i) <==> i < w && Bit(n, i)
  {
    if w == 0 {
      ZeroBit(i);
    } else {
      ModDouble(n, Pow2(w - 1));
      var low := (n / 2) % Pow2(w - 1);
      assert n % Pow2(w) == 2 * low + n % 2;
      if i > 0 {
        assert (2 * low + n % 2) / 2 == low;
        MaskBit(n / 2, w - 1, i - 1);
      }
    }
  }
}
