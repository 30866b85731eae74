/**
 * Python integers seen as bit strings. The Python CRC class works on
 * unbounded non-negative ints: `x << k` is x * 2^k, `x >> k` is x / 2^k,
 * `x & (2^w - 1)` is x % 2^w, and `^` and `|` act bit by bit. This module
 * defines `^` and `|` on nat, bit k of a number, and the reversal of the
 * low n bits, with the facts the CRC proofs need about them.
 */
module NatBits {

  /** 2 to the power k (Python's 1 << k). */
  function Pow2(k: nat): (r: nat)
    ensures r >= 1
  {
    if k == 0 then 1 else 2 * Pow2(k - 1)
  }

  /** x << k on non-negative ints. */
  function Shl(x: nat, k: nat): nat {
    x * Pow2(k)
  }

  lemma MulTwice(x: int, p: int)
    ensures x * (2 * p) == 2 * (x * p)
  {
  }

  /** x << k is (x << (k - 1)) << 1. */
  lemma ShiftOnce(x: nat, k: nat)
    requires k > 0
    ensures Shl(x, k) == 2 * Shl(x, k - 1)
  {
    MulTwice(x, Pow2(k - 1));
  }

  lemma {:induction false} Pow2Add(a: nat, b: nat)
    ensures Pow2(a + b) == Pow2(a) * Pow2(b)
  {
    if b > 0 {
      Pow2Add(a, b - 1);
      ShiftOnce(Pow2(a), b);
      assert Pow2(a) * Pow2(b) == 2 * (Pow2(a) * Pow2(b - 1));
    }
  }

  lemma {:induction false} Pow2Above(n: nat)
    ensures n < Pow2(n)
  {
    if n > 0 {
      Pow2Above(n - 1);
    }
  }

  lemma {:induction false} MulAtLeast(k: int, d: int)
    requires k >= 1 && d > 0
    ensures k * d >= d
  {
    if k > 1 {
      MulAtLeast(k - 1, d);
      assert k * d == (k - 1) * d + d;
    }
  }

  /** Division with remainder is unique. */
  lemma DivModUnique(x: int, d: int, q: int, r: int)
    requires d > 0 && 0 <= r < d && x == q * d + r
    ensures x / d == q && x % d == r
  {
    var q0, r0 := x / d, x % d;
    assert x == q0 * d + r0;
    if q0 > q {
      MulAtLeast(q0 - q, d);
    } else if q0 < q {
      MulAtLeast(q - q0, d);
    }
  }

  lemma MulMonotone(a: nat, b: nat, d: nat)
    requires a <= b
    ensures a * d <= b * d
  {
    assert b * d == a * d + (b - a) * d;
  }

  /** x < k * d means x / d < k. */
  lemma DivLess(x: nat, d: nat, k: nat)
    requires d > 0 && x < k * d
    ensures x / d < k
  {
    var q := x / d;
    assert x == q * d + x % d;
    if q >= k {
      MulMonotone(k, q, d);
    }
  }

  /** A number below m is its own remainder. */
  lemma SmallMod(x: nat, m: nat)
    requires x < m
    ensures x % m == x && x / m == 0
  {
    DivModUnique(x, m, 0, x);
  }

  /** Reducing twice is reducing once. */
  lemma ModMod(x: nat, m: nat)
    requires m > 0
    ensures x % m % m == x % m
  {
    SmallMod(x % m, m);
  }

  /** Reducing modulo 2m splits into reducing x / 2 modulo m and keeping the low bit. */
  lemma ModDouble(x: nat, m: nat)
    requires m > 0
    ensures x % (2 * m) / 2 == (x / 2) % m && x % (2 * m) % 2 == x % 2
    ensures x / (2 * m) == (x / 2) / m
  {
    var q := (x / 2) / m;
    var t := (x / 2) % m;
    assert x == q * (2 * m) + (2 * t + x % 2);
    DivModUnique(x, 2 * m, q, 2 * t + x % 2);
  }

  /** x >> k. */
  function Shr(x: nat, k: nat): nat {
    if k == 0 then x else Shr(x / 2, k - 1)
  }

  /** x >> k is x divided by 2^k. */
  lemma {:induction false} ShrIsDiv(x: nat, k: nat)
    ensures Shr(x, k) == x / Pow2(k)
  {
    if k > 0 {
      ShrIsDiv(x / 2, k - 1);
      ModDouble(x, Pow2(k - 1));
    }
  }

  /** Bit k of x: (x >> k) & 1. */
  function Bit(x: nat, k: nat): (b: nat)
    ensures b < 2
  {
    if k == 0 then x % 2 else Bit(x / 2, k - 1)
  }

  /** A number below 2^k has no bit k. */
  lemma {:induction false} BitAbove(x: nat, k: nat)
    requires x < Pow2(k)
    ensures Bit(x, k) == 0
  {
    if k > 0 {
      BitAbove(x / 2, k - 1);
    }
  }

  /** Keeping the low w bits leaves every bit below w alone. */
  lemma {:induction false} BitMod(x: nat, w: nat, k: nat)
    requires k < w
    ensures Bit(x % Pow2(w), k) == Bit(x, k)
  {
    ModDouble(x, Pow2(w - 1));
    if k > 0 {
      BitMod(x / 2, w - 1, k - 1);
    }
  }

  /** Two numbers below 2^n with the same n low bits are equal. */
  lemma {:induction false} BitExtensionality(x: nat, y: nat, n: nat)
    requires x < Pow2(n) && y < Pow2(n)
    requires forall j :: 0 <= j < n ==> Bit(x, j) == Bit(y, j)
    ensures x == y
  {
    if n > 0 {
      forall j | 0 <= j < n - 1
        ensures Bit(x / 2, j) == Bit(y / 2, j)
      {
        assert Bit(x, j + 1) == Bit(y, j + 1);
      }
      BitExtensionality(x / 2, y / 2, n - 1);
      assert Bit(x, 0) == Bit(y, 0);
    }
  }

  /** Bitwise exclusive or (Python's a ^ b on non-negative ints). */
  function Xor(a: nat, b: nat): nat
    decreases a + b
  {
    if a == 0 && b == 0 then 0 else 2 * Xor(a / 2, b / 2) + (a % 2 + b % 2) % 2
  }

  /** The recursive case of Xor holds at zero too. */
  lemma XorUnfold(a: nat, b: nat)
    ensures Xor(a, b) == 2 * Xor(a / 2, b / 2) + (a % 2 + b % 2) % 2
    ensures Xor(a, b) / 2 == Xor(a / 2, b / 2) && Xor(a, b) % 2 == (a % 2 + b % 2) % 2
  {
  }

  lemma {:induction false} XorZero(a: nat)
    ensures Xor(a, 0) == a && Xor(0, a) == a
  {
    if a > 0 {
      XorZero(a / 2);
    }
  }

  lemma {:induction false} XorSelf(a: nat)
    ensures Xor(a, a) == 0
  {
    if a > 0 {
      XorSelf(a / 2);
    }
  }

  lemma {:induction false} XorComm(a: nat, b: nat)
    ensures Xor(a, b) == Xor(b, a)
    decreases a + b
  {
    if a + b > 0 {
      XorComm(a / 2, b / 2);
    }
  }

  lemma {:induction false} XorAssoc(a: nat, b: nat, c: nat)
    ensures Xor(Xor(a, b), c) == Xor(a, Xor(b, c))
  {
    var n := a + b + c;
    Pow2Above(n);
    XorBound(a, b, n);
    XorBound(b, c, n);
    XorBound(Xor(a, b), c, n);
    XorBound(a, Xor(b, c), n);
    forall j | 0 <= j < n
      ensures Bit(Xor(Xor(a, b), c), j) == Bit(Xor(a, Xor(b, c)), j)
    {
      XorAssocBit(a, b, c, j);
    }
    BitExtensionality(Xor(Xor(a, b), c), Xor(a, Xor(b, c)), n);
  }

  lemma XorAssocBit(a: nat, b: nat, c: nat, j: nat)
    ensures Bit(Xor(Xor(a, b), c), j) == Bit(Xor(a, Xor(b, c)), j)
  {
    var x, y, z := Bit(a, j), Bit(b, j), Bit(c, j);
    var ab, bc := Xor(a, b), Xor(b, c);
    XorBit(a, b, j);
    XorBit(b, c, j);
    XorBit(ab, c, j);
    XorBit(a, bc, j);
    ParityAssoc(x, y, z);
  }

  lemma ParityAssoc(x: nat, y: nat, z: nat)
    requires x < 2 && y < 2 && z < 2
    ensures ((x + y) % 2 + z) % 2 == (x + (y + z) % 2) % 2
  {
    if x == 0 {
      assert (x + y) % 2 == y;
    } else if y == 0 {
      assert (y + z) % 2 == z;
    } else {
      assert (x + y) % 2 == 0;
    }
  }

  /** Shifting both operands left by one shifts their exclusive or. */
  lemma XorDouble(a: nat, b: nat)
    ensures Xor(2 * a, 2 * b) == 2 * Xor(a, b)
  {
    XorUnfold(2 * a, 2 * b);
    Halve(a);
    Halve(b);
  }

  lemma Halve(a: nat)
    ensures (2 * a) / 2 == a && (2 * a) % 2 == 0
  {
  }

  /** Bit k of a ^ b is the sum of the operands' bits k modulo 2. */
  lemma {:induction false} XorBit(a: nat, b: nat, k: nat)
    ensures Bit(Xor(a, b), k) == (Bit(a, k) + Bit(b, k)) % 2
  {
    XorUnfold(a, b);
    if k > 0 {
      XorBit(a / 2, b / 2, k - 1);
      assert Bit(Xor(a, b), k) == Bit(Xor(a / 2, b / 2), k - 1);
    }
  }

  /** The exclusive or of two k-bit numbers has k bits. */
  lemma {:induction false} XorBound(a: nat, b: nat, k: nat)
    requires a < Pow2(k) && b < Pow2(k)
    ensures Xor(a, b) < Pow2(k)
  {
    XorUnfold(a, b);
    if k > 0 {
      XorBound(a / 2, b / 2, k - 1);
    }
  }

  /** The low k bits of a ^ b depend only on the low k bits of a and b. */
  lemma {:induction false} XorMod(a: nat, b: nat, k: nat)
    ensures Xor(a, b) % Pow2(k) == Xor(a % Pow2(k), b % Pow2(k))
  {
    if k == 0 {
      assert Xor(0, 0) == 0;
    } else {
      var m := Pow2(k - 1);
      var x := Xor(a, b);
      XorUnfold(a, b);
      ModDouble(x, m);
      ModDouble(a, m);
      ModDouble(b, m);
      XorMod(a / 2, b / 2, k - 1);
      XorUnfold(a % Pow2(k), b % Pow2(k));
      assert x % Pow2(k) == 2 * (x % Pow2(k) / 2) + x % Pow2(k) % 2;
    }
  }

  /** Shifting both operands left by k shifts their exclusive or. */
  lemma {:induction false} XorShift(a: nat, b: nat, k: nat)
    ensures Xor(Shl(a, k), Shl(b, k)) == Shl(Xor(a, b), k)
  {
    if k > 0 {
      XorShift(a, b, k - 1);
      ShiftOnce(a, k);
      ShiftOnce(b, k);
      ShiftOnce(Xor(a, b), k);
      XorDouble(Shl(a, k - 1), Shl(b, k - 1));
    }
  }

  /** A number with no bit below k, XORed with one below 2^k, is their sum. */
  lemma {:induction false} XorDisjoint(a: nat, lo: nat, k: nat)
    requires lo < Pow2(k)
    ensures Xor(Shl(a, k), lo) == Shl(a, k) + lo
  {
    if k == 0 {
      XorZero(a);
    } else {
      var h := Shl(a, k - 1);
      ShiftOnce(a, k);
      HalfBelow(lo, Pow2(k - 1));
      XorDisjoint(a, lo / 2, k - 1);
      XorDisjointStep(h, lo);
    }
  }

  lemma XorDisjointStep(h: nat, lo: nat)
    requires Xor(h, lo / 2) == h + lo / 2
    ensures Xor(2 * h, lo) == 2 * h + lo
  {
    XorUnfold(2 * h, lo);
    HalfOfDouble(h, lo);
  }

  lemma HalfBelow(x: nat, p: nat)
    requires x < 2 * p
    ensures x / 2 < p
  {
    assert x == 2 * (x / 2) + x % 2;
  }

  lemma HalfOfDouble(h: nat, lo: nat)
    ensures (2 * h) / 2 == h && (2 * h) % 2 == 0
    ensures 2 * h + 2 * (lo / 2) + (0 + lo % 2) % 2 == 2 * h + lo
  {
  }

  /** Bitwise or (Python's a | b on non-negative ints). */
  function Or(a: nat, b: nat): nat
    decreases a + b
  {
    if a == 0 && b == 0 then 0 else 2 * Or(a / 2, b / 2) + (if a % 2 == 1 || b % 2 == 1 then 1 else 0)
  }

  /** A number with no bit below k, ORed with one below 2^k, is their sum. */
  lemma {:induction false} OrDisjoint(a: nat, lo: nat, k: nat)
    requires lo < Pow2(k)
    ensures Or(Shl(a, k), lo) == Shl(a, k) + lo
  {
    if k == 0 {
      OrZero(a);
    } else {
      ShiftOnce(a, k);
      OrDisjoint(a, lo / 2, k - 1);
    }
  }

  lemma {:induction false} OrZero(a: nat)
    ensures Or(a, 0) == a
  {
    if a > 0 {
      OrZero(a / 2);
    }
  }

  /** The low n bits of x in reverse order: bit i of x becomes bit n - 1 - i. */
  function Rev(x: nat, n: nat): nat {
    if n == 0 then 0 else Rev(x / 2, n - 1) + (x % 2) * Pow2(n - 1)
  }

  lemma {:induction false} RevBound(x: nat, n: nat)
    ensures Rev(x, n) < Pow2(n)
  {
    if n > 0 {
      RevBound(x / 2, n - 1);
      var p := Pow2(n - 1);
      assert Pow2(n) == 2 * p;
      if x % 2 == 0 {
        assert (x % 2) * p == 0;
      } else {
        assert (x % 2) * p == p;
      }
    }
  }

  /** The bits of a + b * 2^m, where a has m bits and b is one bit. */
  lemma {:induction false} BitOfTop(a: nat, b: nat, m: nat, j: nat)
    requires a < Pow2(m) && b < 2 && j <= m
    ensures Bit(a + b * Pow2(m), j) == if j < m then Bit(a, j) else b
  {
    if m > 0 {
      ShiftOnce(b, m);
      assert (a + b * Pow2(m)) / 2 == a / 2 + b * Pow2(m - 1);
      if j > 0 {
        BitOfTop(a / 2, b, m - 1, j - 1);
      }
    }
  }

  /** Rev reverses bits: bit j of the result is bit n - 1 - j of x. */
  lemma {:induction false} RevBit(x: nat, n: nat, j: nat)
    requires j < n
    ensures Bit(Rev(x, n), j) == Bit(x, n - 1 - j)
  {
    RevBound(x / 2, n - 1);
    BitOfTop(Rev(x / 2, n - 1), x % 2, n - 1, j);
    if j < n - 1 {
      RevBit(x / 2, n - 1, j);
    }
  }

  /** Rev reads only the low n bits of x. */
  lemma {:induction false} RevLow(x: nat, n: nat)
    ensures Rev(x, n) == Rev(x % Pow2(n), n)
  {
    if n > 0 {
      ModDouble(x, Pow2(n - 1));
      RevLow(x / 2, n - 1);
    }
  }

  /** Reversing twice gives back the low n bits. */
  lemma RevInvolution(x: nat, n: nat)
    ensures Rev(Rev(x, n), n) == x % Pow2(n)
  {
    RevBound(x, n);
    RevBound(Rev(x, n), n);
    forall j | 0 <= j < n
      ensures Bit(Rev(Rev(x, n), n), j) == Bit(x % Pow2(n), j)
    {
      RevBit(Rev(x, n), n, j);
      RevBit(x, n, n - 1 - j);
      BitMod(x, n, j);
    }
    BitExtensionality(Rev(Rev(x, n), n), x % Pow2(n), n);
  }
}
