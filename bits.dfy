/** Unsigned machine integers modelled on `nat`, with C's bitwise `&` and `|`
  * defined bit by bit. Only what the other modules need is stated here. */
module Bits {
  function Pow2(k: nat): (r: nat)
    ensures r >= 1
  {
    if k == 0 then 1 else 2 * Pow2(k - 1)
  }

  const U32_LIMIT: nat := 0x1_0000_0000
  const U64_LIMIT: nat := 0x1_0000_0000_0000_0000

  /** C's `&` on non-negative integers. */
  function BitAnd(x: nat, y: nat): (r: nat)
    ensures r <= x && r <= y
  {
    if x == 0 || y == 0 then 0
    else 2 * BitAnd(x / 2, y / 2) + (if x % 2 == 1 && y % 2 == 1 then 1 else 0)
  }

  /** C's `>>` on non-negative integers: k halvings. */
  function ShiftRight(x: nat, k: nat): nat
  {
    if k == 0 then x else ShiftRight(x / 2, k - 1)
  }

  /** Shifting right by k divides by 2^k. */
  lemma {:induction false} ShiftRightIsDiv(x: nat, k: nat)
    ensures ShiftRight(x, k) == x / Pow2(k)
  {
    if k > 0 {
      ShiftRightIsDiv(x / 2, k - 1);
      DivDiv(x, 2, Pow2(k - 1));
    }
  }

  /** C's `|` on non-negative integers. */
  function BitOr(x: nat, y: nat): (r: nat)
    ensures r >= x && r >= y
  {
    if x == 0 then y
    else if y == 0 then x
    else 2 * BitOr(x / 2, y / 2) + (if x % 2 == 1 || y % 2 == 1 then 1 else 0)
  }

  /** C's `~` on a `w`-bit unsigned value. */
  function BitNot(x: nat, w: nat): (r: nat)
    requires x < Pow2(w)
    ensures r < Pow2(w) && r + x == Pow2(w) - 1
  {
    Pow2(w) - 1 - x
  }

  /** Division with remainder has one answer. */
  lemma DivModUnique(x: int, d: int, q: int, r: int)
    requires d > 0 && 0 <= r < d && x == q * d + r
    ensures x / d == q && x % d == r
  {
    var q', r' := x / d, x % d;
    assert x == q' * d + r';
    assert (q - q') * d == q * d - q' * d;
    if q > q' {
      MulAtLeast(q - q', d);
      assert false;
    } else if q < q' {
      MulAtLeast(q' - q, d);
      assert false;
    }
  }

  /** Rounding down to a multiple of d gives a multiple of d. */
  lemma RoundDownIsMultiple(x: nat, d: nat)
    requires d > 0
    ensures (x - x % d) % d == 0 && x - x % d == (x / d) * d
  {
    DivModUnique(x - x % d, d, x / d, 0);
  }

  /** Two different multiples of d are at least d apart. */
  lemma MultiplesApart(m: nat, r: nat, d: nat)
    requires d > 0 && m % d == 0 && r % d == 0 && m < r
    ensures r - m >= d
  {
    RoundDownIsMultiple(m, d);
    RoundDownIsMultiple(r, d);
    var j := r / d - m / d;
    assert j * d == (r / d) * d - (m / d) * d;
    MulAtLeast(j, d);
  }

  lemma {:induction false} MulAtLeast(a: int, d: int)
    requires a >= 1 && d > 0
    ensures a * d >= d
  {
    if a > 1 {
      MulAtLeast(a - 1, d);
      assert a * d == (a - 1) * d + d;
    }
  }

  lemma Pow2Mod(x: nat, k: nat)
    requires k > 0
    ensures x % Pow2(k) == x % 2 + 2 * ((x / 2) % Pow2(k - 1))
  {
    var p := Pow2(k - 1);
    var q := (x / 2) / p;
    var r := x % 2 + 2 * ((x / 2) % p);
    assert x / 2 == q * p + (x / 2) % p;
    assert x == q * (2 * p) + r;
    DivModUnique(x, 2 * p, q, r);
  }

  /** Masking with 2^k - 1 keeps the low k bits. */
  lemma {:induction false} AndLowMask(x: nat, k: nat)
    ensures BitAnd(x, Pow2(k) - 1) == x % Pow2(k)
  {
    if k == 0 {
    } else if x == 0 {
    } else {
      var m := Pow2(k) - 1;
      assert m / 2 == Pow2(k - 1) - 1 && m % 2 == 1;
      AndLowMask(x / 2, k - 1);
      Pow2Mod(x, k);
    }
  }

  /** Inside w bits, x & ~m removes exactly the bits x & m. */
  lemma {:induction false} AndNot(x: nat, m: nat, w: nat)
    requires x < Pow2(w) && m < Pow2(w)
    ensures BitAnd(x, BitNot(m, w)) == x - BitAnd(x, m)
  {
    if w == 0 {
    } else {
      var n := BitNot(m, w);
      assert Pow2(w) == 2 * Pow2(w - 1);
      assert n / 2 == Pow2(w - 1) - 1 - m / 2;
      assert n % 2 == 1 - m % 2;
      AndNot(x / 2, m / 2, w - 1);
      if x == 0 {
      } else if n == 0 {
        assert m == Pow2(w) - 1;
        AndAllOnes(x, w);
      } else if m == 0 {
        AndAllOnes(x, w);
      } else {
        assert BitAnd(x, n) == 2 * BitAnd(x / 2, n / 2) + (if x % 2 == 1 && n % 2 == 1 then 1 else 0);
        assert BitAnd(x, m) == 2 * BitAnd(x / 2, m / 2) + (if x % 2 == 1 && m % 2 == 1 then 1 else 0);
      }
    }
  }

  lemma {:induction false} AndAllOnes(x: nat, w: nat)
    requires x < Pow2(w)
    ensures BitAnd(x, Pow2(w) - 1) == x
  {
    AndLowMask(x, w);
    DivModUnique(x, Pow2(w), 0, x);
  }

  /** Setting low bits that are clear is addition. */
  lemma {:induction false} OrLowBits(x: nat, t: nat, k: nat)
    requires x % Pow2(k) == 0 && t < Pow2(k)
    ensures BitOr(x, t) == x + t
  {
    if k == 0 || x == 0 || t == 0 {
    } else {
      Pow2Mod(x, k);
      OrLowBits(x / 2, t / 2, k - 1);
    }
  }

  lemma Pow2Of32()
    ensures Pow2(32) == U32_LIMIT
  {
    assert Pow2(8) == 256;
    assert Pow2(16) == 256 * Pow2(8) by { Pow2Add(8, 8); }
    assert Pow2(32) == Pow2(16) * Pow2(16) by { Pow2Add(16, 16); }
  }

  lemma Pow2Of64()
    ensures Pow2(64) == U64_LIMIT
  {
    Pow2Of32();
    Pow2Add(32, 32);
  }

  lemma {:induction false} Pow2Add(a: nat, b: nat)
    ensures Pow2(a + b) == Pow2(a) * Pow2(b)
  {
    if a > 0 {
      Pow2Add(a - 1, b);
    }
  }

  lemma {:induction false} Pow2Grows(j: nat, k: nat)
    requires j <= k
    ensures Pow2(j) <= Pow2(k)
  {
    if j < k {
      Pow2Grows(j, k - 1);
    }
  }

  /** Reducing modulo a multiple of d first does not change the remainder by d. */
  lemma ModOfMod(x: int, m: int, d: int)
    requires d > 0 && m > 0 && m % d == 0
    ensures (x % m) % d == x % d
  {
    var c := m / d;
    var q := x / m;
    var r := x % m;
    assert m == c * d;
    assert x == (q * c) * d + r;
    assert r == (r / d) * d + r % d;
    assert x == (q * c + r / d) * d + r % d;
    DivModUnique(x, d, q * c + r / d, r % d);
  }

  /** 2^j divides 2^k for j <= k. */
  lemma Pow2Divides(j: nat, k: nat)
    requires j <= k
    ensures Pow2(k) % Pow2(j) == 0
  {
    var e := k - j;
    Pow2Add(j, e);
    MulDivides(Pow2(k), Pow2(j), Pow2(e));
  }

  lemma MulDivides(m: int, d: int, c: int)
    requires d > 0 && m == d * c
    ensures m % d == 0
  {
    DivModUnique(m, d, c, 0);
  }

  /** Dividing by p and then by q is dividing by p*q, and the remainder by
    * p*q, divided by p, is the digit (a / p) % q. */
  lemma DivDiv(a: int, p: int, q: int)
    requires p > 0 && q > 0
    ensures a / p / q == a / (p * q)
    ensures (a % (p * q)) / p == (a / p) % q
  {
    var q1, r1 := a / p, a % p;
    var q2, r2 := q1 / q, q1 % q;
    Regroup(q2, q, r2, p);
    assert a == q2 * (p * q) + (r2 * p + r1);
    DigitBound(r2, q, p);
    DivModUnique(a, p * q, q2, r2 * p + r1);
    DivModUnique(r2 * p + r1, p, r2, r1);
  }

  lemma Regroup(q2: int, q: int, r2: int, p: int)
    ensures (q2 * q + r2) * p == q2 * (p * q) + r2 * p
  {
  }

  /** A digit below q, scaled by p, leaves room for one more p below p * q. */
  lemma DigitBound(r: int, q: int, p: int)
    requires 0 <= r < q && p > 0
    ensures r * p + p <= p * q
  {
    MulAtLeast(q - r, p);
    assert (q - r) * p == p * q - r * p;
  }

  /** Masking with a run of k ones that starts at bit j keeps those k bits. */
  lemma {:induction false} AndShiftedMask(x: nat, k: nat, j: nat)
    ensures BitAnd(x, (Pow2(k) - 1) * Pow2(j)) == ((x / Pow2(j)) % Pow2(k)) * Pow2(j)
  {
    if j == 0 {
      AndLowMask(x, k);
    } else {
      var q := Pow2(j - 1);
      var m := (Pow2(k) - 1) * q;
      Twice(Pow2(k) - 1, q);
      AndEven(x, m);
      AndShiftedMask(x / 2, k, j - 1);
      DivDiv(x, 2, q);
      Twice((x / Pow2(j)) % Pow2(k), q);
    }
  }

  lemma Twice(a: int, q: int)
    ensures a * (2 * q) == 2 * (a * q)
  {
  }

  lemma AndEven(x: nat, m: nat)
    ensures BitAnd(x, 2 * m) == 2 * BitAnd(x / 2, m)
  {
    assert (2 * m) / 2 == m && (2 * m) % 2 == 0;
    if x != 0 && m != 0 {
      assert BitAnd(x, 2 * m) == 2 * BitAnd(x / 2, (2 * m) / 2);
    }
  }

  /** `|` is symmetric. */
  lemma {:induction false} BitOrSymmetric(x: nat, y: nat)
    ensures BitOr(x, y) == BitOr(y, x)
  {
    if x != 0 && y != 0 {
      BitOrSymmetric(x / 2, y / 2);
    }
  }
}
