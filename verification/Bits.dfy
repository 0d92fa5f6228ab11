/**
 * Powers of two, masks and bit counts on unsigned machine words, as
 * include/blake3/blake3_impl.h computes them.  A word is a natural number;
 * `BitAnd` is the machine's `&` written digit by digit.
 */
module Bits {

  /** 1 << e. */
  function Pow2(e: nat): (p: nat)
    ensures p >= 1
  {
    if e == 0 then 1 else 2 * Pow2(e - 1)
  }

  predicate IsPow2(n: nat) {
    n == 1 || (n >= 2 && n % 2 == 0 && IsPow2(n / 2))
  }

  /** Index of the highest set bit. */
  function Log2(n: nat): nat
    requires n > 0
  {
    if n == 1 then 0 else 1 + Log2(n / 2)
  }

  function PopCount(n: nat): nat {
    if n == 0 then 0 else n % 2 + PopCount(n / 2)
  }

  /** The bitwise conjunction of two words. */
  function BitAnd(x: nat, y: nat): nat {
    if x == 0 || y == 0 then 0
    else (if x % 2 == 1 && y % 2 == 1 then 1 else 0) + 2 * BitAnd(x / 2, y / 2)
  }

  // ---- powers of two -------------------------------------------------------

  lemma {:induction false} Pow2IsPow2(e: nat)
    ensures IsPow2(Pow2(e))
  {
    if e != 0 {
      Pow2IsPow2(e - 1);
    }
  }

  lemma {:induction false} Log2Bounds(n: nat)
    requires n > 0
    ensures Pow2(Log2(n)) <= n < 2 * Pow2(Log2(n))
  {
    if n != 1 {
      Log2Bounds(n / 2);
    }
  }

  /** At most one power of two lies in (n/2, n]. */
  lemma {:induction false} Pow2Unique(p: nat, q: nat, n: nat)
    requires IsPow2(p) && IsPow2(q)
    requires p <= n < 2 * p && q <= n < 2 * q
    ensures p == q
  {
    if p != 1 && q != 1 {
      Pow2Unique(p / 2, q / 2, n / 2);
    }
  }

  /** Of two distinct powers of two the larger is at least twice the smaller. */
  lemma {:induction false} Pow2Gap(p: nat, q: nat)
    requires IsPow2(p) && IsPow2(q) && p < q
    ensures 2 * p <= q
  {
    if p != 1 {
      Pow2Gap(p / 2, q / 2);
    }
  }

  lemma MulMono(p: nat, a: int, b: int)
    ensures a <= b ==> p * a <= p * b
  {
    if a <= b {
      assert p * (b - a) >= 0;
    }
  }

  /** Quotient and remainder are determined by the division equation. */
  lemma DivModUnique(x: nat, d: nat, q: nat, r: nat)
    requires d > 0 && r < d && x == d * q + r
    ensures x / d == q && x % d == r
  {
    var q', r' := x / d, x % d;
    MulMono(d, q + 1, q');
    MulMono(d, q' + 1, q);
  }

  /** The smaller of two powers of two divides the larger. */
  lemma {:induction false} Pow2Divides(p: nat, q: nat)
    requires IsPow2(p) && IsPow2(q) && p <= q
    ensures q % p == 0
    decreases q
  {
    if p == q {
      DivModUnique(q, p, 1, 0);
    } else {
      Pow2Gap(p, q);
      Pow2Divides(p, q / 2);
      var k := (q / 2) / p;
      assert q / 2 == p * k;
      DivModUnique(q, p, 2 * k, 0);
    }
  }

  /** d divides x, said without a quotient. */
  ghost predicate Divides(d: nat, x: nat)
    requires d > 0
  {
    x == 0 || (x >= d && Divides(d, x - d))
  }

  lemma {:induction false} DividesIsRemainder(d: nat, x: nat)
    requires d > 0
    ensures Divides(d, x) <==> x % d == 0
  {
    if x == 0 {
      DivModUnique(0, d, 0, 0);
    } else if x < d {
      DivModUnique(x, d, 0, x);
    } else {
      DividesIsRemainder(d, x - d);
      DivModUnique(x, d, (x - d) / d + 1, (x - d) % d);
    }
  }

  /** A multiple of m is a multiple of every divisor of m. */
  lemma MultipleOfMultiple(n: nat, m: nat, p: nat)
    requires p > 0 && m > 0 && n % m == 0 && m % p == 0
    ensures n % p == 0
  {
    var a, b := n / m, m / p;
    assert m == p * b;
    assert n == p * (b * a) by {
      assert n == m * a;
      assert (p * b) * a == p * (b * a);
    }
    DivModUnique(n, p, b * a, 0);
  }

  /** Dividing by 2 * h is halving first. */
  lemma HalfRemainder(x: nat, h: nat)
    requires h > 0
    ensures x % (2 * h) == x % 2 + 2 * ((x / 2) % h)
    ensures x / (2 * h) == (x / 2) / h
  {
    var q, r := (x / 2) / h, (x / 2) % h;
    assert (2 * h) * q == 2 * (h * q);
    DivModUnique(x, 2 * h, q, 2 * r + x % 2);
  }

  // ---- masks ---------------------------------------------------------------

  /** Masking with one less than a power of two is the remainder by it. */
  lemma {:induction false} MaskIsRemainder(p: nat, x: nat)
    requires IsPow2(p)
    ensures BitAnd(p - 1, x) == x % p
  {
    if x == 0 {
      DivModUnique(0, p, 0, 0);
    } else if p != 1 {
      MaskIsRemainder(p / 2, x / 2);
      HalfRemainder(x, p / 2);
    }
  }

  function Shifted(k: nat, x: nat): nat {
    if k == 0 then x else 2 * Shifted(k - 1, x)
  }

  lemma {:induction false} ShiftedIsProduct(k: nat, x: nat)
    ensures Shifted(k, x) == Pow2(k) * x
  {
    if k > 0 {
      ShiftedIsProduct(k - 1, x);
      Doubling(Pow2(k - 1), x);
    }
  }

  lemma {:induction false} MaskShifted(k: nat, q: nat, r: nat, m: nat)
    requires r < Pow2(k)
    ensures BitAnd(Shifted(k, q) + r, Shifted(k, m)) == Shifted(k, BitAnd(q, m))
  {
    if k > 0 {
      MaskShifted(k - 1, q, r / 2, m);
      HalfSum(Shifted(k - 1, q), r);
      AndEvenMask(Shifted(k, q) + r, Shifted(k - 1, m));
    }
  }

  /** Masking off the low k bits keeps the bits above them. */
  lemma MaskHigh(k: nat, p: nat, q: nat, r: nat, m: nat)
    requires p == Pow2(k) && r < p
    ensures BitAnd(p * q + r, p * m) == p * BitAnd(q, m)
  {
    MaskShifted(k, q, r, m);
    ShiftedIsProduct(k, q);
    ShiftedIsProduct(k, m);
    ShiftedIsProduct(k, BitAnd(q, m));
  }

  lemma HalfSum(x: nat, r: nat)
    ensures (2 * x + r) / 2 == x + r / 2
  {}

  lemma Doubling(p: nat, m: nat)
    ensures (2 * p) * m == 2 * (p * m)
  {}

  lemma AndEvenMask(x: nat, m: nat)
    ensures BitAnd(x, 2 * m) == 2 * BitAnd(x / 2, m)
  {
    assert (2 * m) / 2 == m && (2 * m) % 2 == 0;
  }

  /** The bit count loop's step `x &= x - 1` clears exactly one bit. */
  lemma {:induction false} ClearLowestBit(x: nat)
    requires x > 0
    ensures BitAnd(x, x - 1) < x
    ensures PopCount(x) == 1 + PopCount(BitAnd(x, x - 1))
  {
    if x % 2 == 1 {
      AndSelf(x / 2);
      assert (x - 1) / 2 == x / 2 && (x - 1) % 2 == 0;
    } else {
      ClearLowestBit(x / 2);
      assert (x - 1) / 2 == x / 2 - 1 && (x - 1) % 2 == 1;
    }
  }

  lemma {:induction false} AndSelf(x: nat)
    ensures BitAnd(x, x) == x
  {
    if x != 0 {
      AndSelf(x / 2);
    }
  }

  lemma {:induction false} Log2Shift(k: nat, p: nat, q: nat, r: nat)
    requires p == Pow2(k) && r < p && q > 0
    ensures p * q + r > 0 && Log2(p * q + r) == k + Log2(q)
  {
    MulMono(p, 1, q);
    if k == 0 {
      assert p * q + r == q;
    } else {
      var h := Pow2(k - 1);
      Doubling(h, q);
      var hq := h * q;
      Log2Shift(k - 1, h, q, r / 2);
      HalfSum(hq, r);
    }
  }

  // ---- the word helpers of blake3_impl.h -----------------------------------

  /** Count the one bits by clearing them one at a time. */
  method Popcnt(x: nat) returns (count: nat)
    ensures count == PopCount(x)
  {
    var w := x;
    count := 0;
    while w != 0
      invariant count + PopCount(w) == PopCount(x)
      decreases w
    {
      ClearLowestBit(w);
      count := count + 1;
      w := BitAnd(w, w - 1);
    }
  }

  /** One halving step of the search: a non-zero masked half means a long word. */
  lemma SearchStep(x: nat, k: nat, p: nat, mask: nat)
    requires p == Pow2(k) && x < p * p && mask == p * (p - 1)
    ensures BitAnd(x, mask) != 0 <==> x >= p
    ensures x / p < p
    ensures x >= p ==> x / p > 0 && Log2(x) == k + Log2(x / p)
  {
    var q, r := QuotientRange(x, p);
    SearchStepAt(x, k, p, q, r, mask);
  }

  lemma SearchStepAt(x: nat, k: nat, p: nat, q: nat, r: nat, mask: nat)
    requires p == Pow2(k) && q < p && r < p
    requires x == p * q + r && mask == p * (p - 1)
    ensures BitAnd(x, mask) != 0 <==> q > 0
    ensures q > 0 ==> x > 0 && Log2(x) == k + Log2(q)
  {
    MaskHigh(k, p, q, r, p - 1);
    Pow2IsPow2(k);
    MaskIsRemainder(p, q);
    AndCommutes(p - 1, q);
    DivModUnique(q, p, 0, q);
    MulMono(p, 1, q);
    if q > 0 {
      Log2Shift(k, p, q, r);
    }
  }

  lemma QuotientRange(x: nat, p: nat) returns (q: nat, r: nat)
    requires p > 0 && x < p * p
    ensures q == x / p && x == p * q + r && r < p
    ensures q < p && (q > 0 <==> x >= p)
  {
    q, r := x / p, x % p;
    MulMono(p, p, q);
    MulMono(p, 1, q);
  }

  lemma {:induction false} AndCommutes(x: nat, y: nat)
    ensures BitAnd(x, y) == BitAnd(y, x)
  {
    if x != 0 && y != 0 {
      AndCommutes(x / 2, y / 2);
    }
  }

  lemma HalfWords()
    ensures Pow2(32) == 0x1_0000_0000 && Pow2(16) == 0x1_0000 && Pow2(8) == 0x100
    ensures Pow2(4) == 0x10 && Pow2(2) == 4 && Pow2(1) == 2
  {
    Pow2Sum(1, 1);
    Pow2Sum(2, 2);
    Pow2Sum(4, 4);
    Pow2Sum(8, 8);
    Pow2Sum(16, 16);
  }

  lemma {:induction false} Pow2Sum(a: nat, b: nat)
    ensures Pow2(a + b) == Pow2(a) * Pow2(b)
  {
    if a != 0 {
      Pow2Sum(a - 1, b);
      Doubling(Pow2(a - 1), Pow2(b));
    }
  }

  /** The word still to be searched and the bits already skipped give the answer. */
  ghost predicate Searching(x: nat, w: nat, c: nat, bound: nat) {
    0 < w < bound && x > 0 && Log2(x) == c + Log2(w)
  }

  /** One line of the search: skip k bits when any bit of the upper half is set. */
  method SearchHalf(ghost x: nat, w: nat, c: nat, k: nat, p: nat, mask: nat) returns (w': nat, c': nat)
    requires p == Pow2(k) && mask == p * (p - 1) && Searching(x, w, c, p * p)
    ensures Searching(x, w', c', p)
  {
    SearchStep(w, k, p, mask);
    w', c' := w, c;
    if BitAnd(w, mask) != 0 {
      w', c' := w / p, c + k;
    }
  }

  /** Index of the highest set bit of a non-zero 64-bit word, by halving. */
  method HighestOne(x: nat) returns (c: nat)
    requires 0 < x < 0x1_0000_0000_0000_0000
    ensures c == Log2(x)
  {
    HalfWords();
    var w;
    w, c := SearchHalf(x, x, 0, 32, 0x1_0000_0000, 0xffff_ffff_0000_0000);
    w, c := SearchHalf(x, w, c, 16, 0x1_0000, 0xffff_0000);
    w, c := SearchHalf(x, w, c, 8, 0x100, 0xff00);
    w, c := SearchHalf(x, w, c, 4, 0x10, 0xf0);
    w, c := SearchHalf(x, w, c, 2, 4, 0xc);
    w, c := SearchHalf(x, w, c, 1, 2, 0x2);
  }

  /** Largest power of two that is at most x; 1 when x is 0. */
  method RoundDownToPowerOf2(x: nat) returns (p: nat)
    requires x < 0x1_0000_0000_0000_0000
    ensures IsPow2(p)
    ensures x == 0 ==> p == 1
    ensures x > 0 ==> p <= x < 2 * p
  {
    var odd := if x % 2 == 0 then x + 1 else x;  // x | 1
    var c := HighestOne(odd);
    p := Pow2(c);
    Pow2IsPow2(c);
    Log2Bounds(odd);
    assert p % 2 == 0 || p == 1;
  }
}
