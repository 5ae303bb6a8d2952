/** The bitwise integer square root (kernel/gfx.c:46-63). */
module Root {

  const WORD: nat := 0x1_0000_0000

  /** The square of `n`, as a sum of odd numbers. */
  function Sq(n: nat): nat {
    if n == 0 then 0 else Sq(n - 1) + 2 * n - 1
  }

  lemma {:induction false} SqIs(n: nat)
    ensures Sq(n) == n * n
  {
    if n > 0 {
      SqIs(n - 1);
    }
  }

  lemma {:induction false} SqLess(a: nat, b: nat)
    requires a < b
    ensures Sq(a) < Sq(b)
  {
    if a < b - 1 {
      SqLess(a, b - 1);
    }
  }

  /** The floor of the square root. */
  function Sqrt(v: nat): (r: nat)
    ensures Sq(r) <= v < Sq(r + 1)
  {
    if v == 0 then 0
    else
      var r := Sqrt(v - 1);
      if Sq(r + 1) == v then r + 1 else r
  }

  lemma SqrtUnique(v: nat, r: nat)
    requires Sq(r) <= v < Sq(r + 1)
    ensures r == Sqrt(v)
  {
    if r < Sqrt(v) && r + 1 != Sqrt(v) {
      SqLess(r + 1, Sqrt(v));
    } else if Sqrt(v) < r && Sqrt(v) + 1 != r {
      SqLess(Sqrt(v) + 1, r);
    }
  }

  /** The root of a square is exact. */
  lemma SqrtSquare(n: nat)
    ensures Sqrt(n * n) == n
  {
    SqIs(n);
    SqrtUnique(n * n, n);
  }

  /** The product, as a sum: the proofs below stay linear. */
  function Times(a: nat, b: nat): nat {
    if a == 0 then 0 else Times(a - 1, b) + b
  }

  lemma {:induction false} TimesTwice(a: nat, b: nat)
    ensures Times(a, 2 * b) == 2 * Times(a, b)
  {
    if a > 0 {
      TimesTwice(a - 1, b);
    }
  }

  lemma {:induction false} TimesSum(a: nat, b: nat, c: nat)
    ensures Times(a + b, c) == Times(a, c) + Times(b, c)
  {
    if a > 0 {
      TimesSum(a - 1, b, c);
    }
  }

  lemma {:induction false} TimesIs(a: nat, b: nat)
    ensures Times(a, b) == a * b
  {
    if a > 0 {
      TimesIs(a - 1, b);
      assert a * b == (a - 1) * b + b;
    }
  }

  lemma TimesSelf(n: nat)
    ensures Times(n, n) == Sq(n)
  {
    SqIs(n);
    TimesIs(n, n);
  }

  /** How much the square grows from `q` to `q + g`. */
  lemma {:induction false} SquareStep(q: nat, g: nat)
    ensures Sq(q + g) == Sq(q) + 2 * Times(q, g) + Sq(g)
  {
    if q > 0 {
      SquareStep(q - 1, g);
    }
  }

  function Pow2(k: nat): nat {
    if k == 0 then 1 else 2 * Pow2(k - 1)
  }

  function Pow4(k: nat): nat {
    if k == 0 then 1 else 4 * Pow4(k - 1)
  }

  lemma {:induction false} PowerSquare(k: nat)
    ensures Pow4(k) == Sq(Pow2(k))
  {
    if k > 0 {
      PowerSquare(k - 1);
      SquareStep(Pow2(k - 1), Pow2(k - 1));
      TimesSelf(Pow2(k - 1));
    }
  }

  /** `q` is the root found so far; what is left to find is below `h`, a power of two. */
  ghost predicate Rooting(v: nat, value: nat, result: nat, q: nat, h: nat) {
    Sq(q) + value == v && v < Sq(q + h) && q + h <= 0x1_0000 && result == Times(q, h)
  }

  /** The bit under test, for `k` bits of the root left to find. */
  function BitOf(k: nat): nat {
    if k == 0 then 0 else Pow4(k - 1)
  }

  lemma StepTaken(v: nat, value: nat, result: nat, q: nat, k: nat)
    requires Rooting(v, value, result, q, Pow2(k + 1)) && value >= result + Pow4(k)
    ensures Rooting(v, value - (result + Pow4(k)), result / 2 + Pow4(k), q + Pow2(k), Pow2(k))
  {
    var g := Pow2(k);
    PowerSquare(k);
    SquareStep(q, g);
    TimesTwice(q, g);
    TimesSum(q, g, g);
    TimesSelf(g);
    assert q + g + g == q + 2 * g;
  }

  lemma StepSkipped(v: nat, value: nat, result: nat, q: nat, k: nat)
    requires Rooting(v, value, result, q, Pow2(k + 1)) && value < result + Pow4(k)
    ensures Rooting(v, value, result / 2, q, Pow2(k))
  {
    PowerSquare(k);
    SquareStep(q, Pow2(k));
    TimesTwice(q, Pow2(k));
  }

  /** Nothing in the loop leaves 32 bits. */
  lemma StepFits(v: nat, value: nat, result: nat, q: nat, k: nat)
    requires Rooting(v, value, result, q, Pow2(k + 1))
    ensures result + Pow4(k) < WORD
  {
    PowerSquare(k);
    SquareStep(q, Pow2(k));
    TimesTwice(q, Pow2(k));
    PowPositive(k);
    FullSquare(q + Pow2(k), 0x1_0000);
  }

  lemma FullSquare(n: nat, top: nat)
    requires n < top == 0x1_0000
    ensures Sq(n) < WORD
  {
    SqLess(n, top);
    SqIs(top);
  }

  lemma {:induction false} PowPositive(k: nat)
    ensures Pow2(k) > 0 && Pow4(k) > 0
  {
    if k > 0 {
      PowPositive(k - 1);
    }
  }

  lemma StartFits(v: nat, k: nat)
    requires k <= 16 && v < Pow4(k)
    ensures Rooting(v, v, 0, 0, Pow2(k))
  {
    PowerSquare(k);
    PowLe(k, 16);
    Powers(16);
  }

  lemma Powers(k: nat)
    requires k == 16
    ensures Pow2(k) == 0x1_0000 && Pow4(k) == WORD && Pow4(k - 1) == 0x4000_0000
  {
    assert Pow2(k - 15) == 2 && Pow4(k - 15) == 4;
    assert Pow2(k - 13) == 8 && Pow4(k - 13) == 64;
    assert Pow2(k - 11) == 32 && Pow4(k - 11) == 1024;
    assert Pow2(k - 9) == 128 && Pow4(k - 9) == 0x4000;
    assert Pow2(k - 7) == 512 && Pow4(k - 7) == 0x4_0000;
    assert Pow2(k - 5) == 2048 && Pow4(k - 5) == 0x40_0000;
    assert Pow2(k - 3) == 8192 && Pow4(k - 3) == 0x400_0000;
  }

  lemma {:induction false} PowLe(a: nat, b: nat)
    requires a <= b
    ensures Pow2(a) <= Pow2(b)
  {
    if a < b {
      PowLe(a, b - 1);
    }
  }

  /** `isqrt32`: exact for every 32-bit input. */
  method Isqrt(input: nat) returns (result: nat)
    requires input < WORD
    ensures result * result <= input < (result + 1) * (result + 1)
    ensures result == Sqrt(input)
  {
    ghost var k: nat := 16;
    var bit: nat := 0x4000_0000;
    Powers(k);
    while bit > input
      invariant k <= 16 && bit == BitOf(k) && input < Pow4(k)
      decreases k
    {
      bit := bit / 4;
      k := k - 1;
    }
    StartFits(input, k);
    result := Descend(input, bit, k);
  }

  /** The loop over the bits of the root. */
  method Descend(input: nat, top: nat, ghost bits: nat) returns (result: nat)
    requires input < WORD && top == BitOf(bits) && Rooting(input, input, 0, 0, Pow2(bits))
    ensures result * result <= input < (result + 1) * (result + 1)
    ensures result == Sqrt(input)
  {
    var value: nat, bit: nat := input, top;
    result := 0;
    ghost var k: nat, q: nat := bits, 0;
    while bit != 0
      invariant bit == BitOf(k) && Rooting(input, value, result, q, Pow2(k))
      decreases k
    {
      PowPositive(k);
      StepFits(input, value, result, q, k - 1);
      if value >= result + bit {
        StepTaken(input, value, result, q, k - 1);
        value := value - (result + bit);
        result := result / 2 + bit;
        q := q + Pow2(k - 1);
      } else {
        StepSkipped(input, value, result, q, k - 1);
        result := result / 2;
      }
      bit := bit / 4;
      k := k - 1;
    }
    assert k == 0 by {
      if k > 0 {
        PowPositive(k - 1);
      }
    }
    Found(input, value, result, q);
  }

  lemma Found(v: nat, value: nat, result: nat, q: nat)
    requires Rooting(v, value, result, q, 1)
    ensures result == Sqrt(v) && result * result <= v < (result + 1) * (result + 1)
  {
    TimesIs(q, 1);
    SqrtUnique(v, q);
    SqIs(q);
    SqIs(q + 1);
  }
}
