/** float64 values and their bit patterns (IEEE 754, binary64): which real numbers the finite
    ones are, and the unsigned words the key encoding stores. */
module Float64 {
  import opened Values

  /** One past the largest fraction field: 2^52. */
  const FRAC: int := 0x10_0000_0000_0000

  /** The first magnitude pattern that is not finite: exponent field 2047. */
  const INF: int := 2047 * FRAC

  const TWO63: int := 0x8000_0000_0000_0000

  const TWO64: real := 18446744073709551616.0

  function Pow2(n: nat): (p: nat)
    ensures p > 0
  {
    if n == 0 then 1 else 2 * Pow2(n - 1)
  }

  /** The steps of the smallest subnormal in one: 2^1074. */
  function Scale(): (s: real)
    ensures s > 0.0
  {
    var p128 := TWO64 * TWO64;
    var p256 := p128 * p128;
    var p512 := p256 * p256;
    p512 * p512 * 1125899906842624.0
  }

  /** The value of a magnitude pattern, counted in those steps: a fraction alone when the
      exponent field is 0, otherwise with the hidden bit and shifted. */
  function Steps(m: nat): nat {
    if m < FRAC then m else (FRAC + m % FRAC) * Pow2(m / FRAC - 1)
  }

  lemma {:induction false} Pow2Grows(a: nat, b: nat)
    requires a < b
    ensures 2 * Pow2(a) <= Pow2(b)
  {
    if a + 1 < b {
      Pow2Grows(a, b - 1);
    }
  }

  /** A larger pattern is a larger number, across exponents too. */
  lemma StepsGrow(m: nat, n: nat)
    requires m < n
    ensures Steps(m) < Steps(n)
  {
    var e, g := m / FRAC, n / FRAC;
    if m >= FRAC && e == g {
      StepsLinear(FRAC + m % FRAC, FRAC + n % FRAC, Pow2(e - 1));
    } else if m >= FRAC {
      Pow2Grows(e - 1, g - 1);
      StepsJump(m % FRAC, n % FRAC, Pow2(e - 1), Pow2(g - 1));
    } else if n >= FRAC {
      StepsLeast(n % FRAC, Pow2(g - 1));
    }
  }

  lemma StepsLinear(a: nat, b: nat, p: nat)
    requires a < b && p > 0
    ensures a * p < b * p
  {
  }

  lemma StepsJump(f: nat, g: nat, p: nat, q: nat)
    requires f < FRAC && 0 < p && 2 * p <= q
    ensures (FRAC + f) * p < (FRAC + g) * q
  {
    assert (FRAC + f) * p < 2 * FRAC * p by {
      StepsLinear(FRAC + f, 2 * FRAC, p);
    }
    assert FRAC * (2 * p) <= FRAC * q;
    assert FRAC * q <= (FRAC + g) * q;
  }

  lemma StepsLeast(g: nat, q: nat)
    requires q > 0
    ensures FRAC <= (FRAC + g) * q
  {
    StepsLinear(0, q, FRAC);
    assert FRAC <= FRAC * q;
    assert FRAC * q <= (FRAC + g) * q;
  }

  /** The pattern m is the magnitude of f. */
  predicate Holds(f: real, m: nat) {
    m < INF && (if f < 0.0 then -f else f) * Scale() == Steps(m) as real
  }

  /** The real numbers that finite float64 values are. */
  ghost predicate IsFinite(f: real) {
    exists m: nat :: Holds(f, m)
  }

  ghost predicate IsFloat(f: Float) {
    f.Fin? ==> IsFinite(f.r)
  }

  lemma OnePattern(f: real)
    ensures forall m: nat, n: nat :: Holds(f, m) && Holds(f, n) ==> m == n
  {
    forall m: nat, n: nat | Holds(f, m) && Holds(f, n) ensures m == n {
      if m < n {
        StepsGrow(m, n);
      } else if n < m {
        StepsGrow(n, m);
      }
    }
  }

  function Pattern(f: real): (m: nat)
    requires IsFinite(f)
    ensures Holds(f, m)
  {
    OnePattern(f);
    var m: nat :| m < INF && Holds(f, m);
    m
  }

  predicate Negative(f: Float) {
    f.NegInf? || (f.Fin? && f.r < 0.0)
  }

  /** The magnitude's pattern: the first after the finite ones for an infinity. */
  function Magnitude(f: Float): (m: nat)
    requires IsFloat(f)
    ensures m <= INF
  {
    if f.Fin? then Pattern(f.r) else INF
  }

  /** The stored word: complemented below zero, the top bit set otherwise. Negative zero
      is zero here, as the encoder normalises it. */
  function Bits(f: Float): (u: int)
    requires IsFloat(f)
    ensures 0 <= u < 2 * TWO63 && (u < TWO63 <==> Negative(f))
  {
    if Negative(f) then TWO63 - 1 - Magnitude(f) else TWO63 + Magnitude(f)
  }

  lemma ScaleKeeps(f: real, g: real, s: real)
    requires f < g && s > 0.0
    ensures f * s < g * s
  {
  }

  /** Order of magnitudes is order of patterns. */
  lemma PatternOrder(f: real, g: real)
    requires IsFinite(f) && IsFinite(g) && 0.0 <= f < g
    ensures Pattern(f) < Pattern(g)
  {
    hide Scale, Steps;
    ScaleKeeps(f, g, Scale());
    if Pattern(g) < Pattern(f) {
      StepsGrow(Pattern(g), Pattern(f));
    }
  }

  lemma NegatedPattern(f: real)
    requires IsFinite(f)
    ensures IsFinite(-f) && Pattern(-f) == Pattern(f)
  {
    hide Scale, Steps;
    assert Holds(-f, Pattern(f));
    assert Holds(f, Pattern(-f));
    OnePattern(f);
  }

  lemma FiniteOrder(f: real, g: real)
    requires IsFinite(f) && IsFinite(g) && f < g
    ensures Bits(Fin(f)) < Bits(Fin(g))
  {
    hide Holds;
    if f >= 0.0 {
      PatternOrder(f, g);
    } else if g < 0.0 {
      NegatedPattern(f);
      NegatedPattern(g);
      PatternOrder(-g, -f);
    }
  }

  /** The stored words order as the numbers do, infinities included. */
  lemma BitsOrder(f: Float, g: Float)
    requires IsFloat(f) && IsFloat(g) && CmpFloat(f, g) < 0
    ensures Bits(f) < Bits(g)
  {
    if f.Fin? && g.Fin? {
      FiniteOrder(f.r, g.r);
    }
  }

  /** The number a stored word stands for; None for NaN. */
  function FromBits(u: int): Option<Float>
    requires u >= 0
  {
    var m := if u < TWO63 then TWO63 - 1 - u else u - TWO63;
    if m > INF then None
    else if m == INF then Some(if u < TWO63 then NegInf else PosInf)
    else
      var v := Steps(m) as real / Scale();
      Some(Fin(if u < TWO63 then -v else v))
  }

  lemma Unscale(f: real, s: real)
    requires s > 0.0
    ensures f * s / s == f
  {
  }

  /** Reading a stored word gives the number back. */
  lemma BitsRoundTrip(f: Float)
    requires IsFloat(f)
    ensures FromBits(Bits(f)) == Some(f)
  {
    hide Scale, Steps;
    if f.Fin? {
      var a, m := if f.r < 0.0 then -f.r else f.r, Pattern(f.r);
      assert Holds(f.r, m);
      Unscale(a, Scale());
      assert Steps(m) as real / Scale() == a;
    }
  }
}
