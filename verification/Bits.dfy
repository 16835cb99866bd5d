/** Machine-word arithmetic on natural numbers: powers of two, the bitwise operators the
    source applies to unsigned words, and the geometry of aligned power-of-two blocks. */
module Bits {

  function Pow2(e: nat): (p: nat)
    ensures p > 0
  {
    if e == 0 then 1 else 2 * Pow2(e - 1)
  }

  /** `a & b`, bit by bit. */
  function And(a: nat, b: nat): nat {
    if a == 0 || b == 0 then 0
    else (if a % 2 == 1 && b % 2 == 1 then 1 else 0) + 2 * And(a / 2, b / 2)
  }

  /** `a | b`, bit by bit. */
  function Or(a: nat, b: nat): nat
    decreases a + b
  {
    if a == 0 && b == 0 then 0
    else (if a % 2 == 1 || b % 2 == 1 then 1 else 0) + 2 * Or(a / 2, b / 2)
  }

  /** `-n` in `w`-bit two's complement. */
  function Negate(w: nat, n: nat): nat
    requires n < Pow2(w)
  {
    if n == 0 then 0 else Pow2(w) - n
  }

  /** The number of bits needed to write `n`. */
  function Len(n: nat): nat {
    if n == 0 then 0 else 1 + Len(n / 2)
  }

  predicate Aligned(n: nat, e: nat) {
    n % Pow2(e) == 0
  }

  /** The position of the lowest set bit. */
  function LowExp(n: nat): nat
    requires n > 0
  {
    if n % 2 == 1 then 0 else 1 + LowExp(n / 2)
  }

  // ----- Powers of two

  lemma Pow2Values()
    ensures Pow2(8) == 0x100 && Pow2(16) == 0x1_0000 && Pow2(31) == 0x8000_0000
    ensures Pow2(32) == 0x1_0000_0000 && Pow2(64) == 0x1_0000_0000_0000_0000
  {
    assert Pow2(8) == 0x100;
    Pow2Sum(8, 8);
    Pow2Sum(16, 16);
    Pow2Sum(32, 32);
  }

  lemma {:induction false} Pow2Sum(a: nat, b: nat)
    ensures Pow2(a + b) == Pow2(a) * Pow2(b)
  {
    if a > 0 {
      Pow2Sum(a - 1, b);
      assert a + b - 1 == (a - 1) + b;
      DoubleProduct(Pow2(a - 1), Pow2(b));
    }
  }

  lemma DoubleProduct(x: nat, y: nat)
    ensures 2 * (x * y) == (2 * x) * y
  {}

  lemma {:induction false} Pow2Mono(a: nat, b: nat)
    ensures a <= b <==> Pow2(a) <= Pow2(b)
    ensures a < b <==> Pow2(a) < Pow2(b)
    decreases a + b
  {
    if a > 0 && b > 0 { Pow2Mono(a - 1, b - 1); }
  }

  lemma {:induction false} LenPow2(e: nat)
    ensures Len(Pow2(e)) == e + 1
  {
    if e > 0 {
      LenPow2(e - 1);
      assert Pow2(e) / 2 == Pow2(e - 1);
    }
  }

  // ----- Multiples

  lemma MulSign(m: int, k: int)
    requires m > 0
    ensures k >= 1 <==> m * k >= m
    ensures k <= 0 <==> m * k <= 0
    ensures k <= -1 <==> m * k <= -m
  {}

  lemma MultipleOf(n: int, m: int, q: int)
    requires m > 0 && n == m * q
    ensures n % m == 0
  {
    assert n == m * (n / m) + n % m;
    assert m * (q - n / m) == n % m by { assert m * (q - n / m) == m * q - m * (n / m); }
    MulSign(m, q - n / m);
  }

  /** Distinct multiples of `m` are at least `m` apart. */
  lemma MultiplesApart(x: int, y: int, m: int)
    requires m > 0 && x % m == 0 && y % m == 0 && x < y
    ensures x + m <= y
  {
    assert x == m * (x / m) && y == m * (y / m);
    MulSign(m, y / m - x / m);
  }

  lemma MultipleSum(x: int, y: int, m: int)
    requires m > 0 && x % m == 0 && y % m == 0
    ensures (x + y) % m == 0
  {
    assert x + y == m * (x / m + y / m);
    MultipleOf(x + y, m, x / m + y / m);
  }

  lemma AlignedWeaken(n: nat, e: nat, f: nat)
    requires f <= e && Aligned(n, e)
    ensures Aligned(n, f)
  {
    Pow2Sum(f, e - f);
    var q := n / Pow2(e);
    assert n == Pow2(e) * q;
    assert Pow2(f) * Pow2(e - f) * q == Pow2(f) * (Pow2(e - f) * q);
    MultipleOf(n, Pow2(f), Pow2(e - f) * q);
  }

  lemma AlignedSum(n: nat, e: nat, f: nat)
    requires e <= f && Aligned(n, e)
    ensures Aligned(n + Pow2(f), e)
  {
    MultipleOf(Pow2(f), Pow2(f), 1);
    AlignedWeaken(Pow2(f), f, e);
    MultipleSum(n, Pow2(f), Pow2(e));
  }

  lemma AlignedHalf(n: nat, e: nat)
    requires e > 0
    ensures Aligned(n, e) <==> n % 2 == 0 && Aligned(n / 2, e - 1)
  {
    if Aligned(n, e) {
      var q := n / Pow2(e);
      assert n == 2 * (Pow2(e - 1) * q) by { assert Pow2(e) * q == 2 * Pow2(e - 1) * q; }
      MultipleOf(n / 2, Pow2(e - 1), q);
    }
    if n % 2 == 0 && Aligned(n / 2, e - 1) {
      var q := (n / 2) / Pow2(e - 1);
      assert n == 2 * (Pow2(e - 1) * q);
      assert n == Pow2(e) * q;
      MultipleOf(n, Pow2(e), q);
    }
  }

  /** `LowExp` is the largest exponent `n` is aligned to. */
  lemma {:induction false} LowExpIsMaximal(n: nat, e: nat)
    requires n > 0
    ensures Aligned(n, e) <==> e <= LowExp(n)
    decreases e
  {
    if e > 0 {
      AlignedHalf(n, e);
      if n % 2 == 0 { LowExpIsMaximal(n / 2, e - 1); }
    }
  }

  // ----- Bitwise operators on aligned words

  lemma {:induction false} AndComplement(w: nat, n: nat)
    requires n < Pow2(w)
    ensures And(n, Pow2(w) - 1 - n) == 0
  {
    if w > 0 {
      AndComplement(w - 1, n / 2);
      assert (Pow2(w) - 1 - n) / 2 == Pow2(w - 1) - 1 - n / 2;
    }
  }

  /** `n & -n` isolates the lowest set bit. */
  lemma {:induction false} AndNegate(w: nat, n: nat)
    requires 0 < n < Pow2(w)
    ensures And(n, Negate(w, n)) == Pow2(LowExp(n))
  {
    if n % 2 == 1 {
      assert (Pow2(w) - n) / 2 == Pow2(w - 1) - 1 - n / 2;
      AndComplement(w - 1, n / 2);
    } else {
      AndNegate(w - 1, n / 2);
      assert (Pow2(w) - n) / 2 == Pow2(w - 1) - n / 2;
    }
  }

  /** Below an alignment boundary, `|` is addition. */
  lemma {:induction false} OrIsSum(n: nat, m: nat, e: nat)
    requires Aligned(n, e) && m < Pow2(e)
    ensures Or(n, m) == n + m
    decreases n + m
  {
    if e == 0 {
      OrZero(n);
    } else if n > 0 || m > 0 {
      AlignedHalf(n, e);
      OrIsSum(n / 2, m / 2, e - 1);
    }
  }

  lemma {:induction false} OrZero(n: nat)
    ensures Or(n, 0) == n
  {
    if n > 0 { OrZero(n / 2); }
  }

  // ----- Aligned blocks

  /** The addresses `start .. start + 2^exp`. */
  datatype Block = Block(start: nat, exp: nat) {
    function Size(): nat { Pow2(exp) }

    predicate Has(a: int) { start <= a < start + Size() }

    predicate Wf() { Aligned(start, exp) }

    predicate Within(b: Block) { b.start <= start && start + Size() <= b.start + b.Size() }
  }

  /** Aligned blocks are either nested or disjoint. */
  lemma NestedOrDisjoint(b: Block, c: Block, a: int)
    requires b.Wf() && c.Wf() && b.exp <= c.exp
    requires b.Has(a) && c.Has(a)
    ensures b.Within(c)
  {
    var m := b.Size();
    AlignedWeaken(c.start, c.exp, b.exp);
    AlignedSum(c.start, b.exp, c.exp);
    MultiplesApart(b.start, c.start + c.Size(), m);
    if b.start < c.start { MultiplesApart(b.start, c.start, m); }
  }
}
