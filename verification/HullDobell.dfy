/**
  Linear congruential maps `s -> (a*s + c) mod 2^k`.

  The main results are the power-of-two case of the Hull-Dobell theorem: when
  `a mod 4 == 1` and `c` is odd, the orbit of every state is one cycle through
  all `2^k` states.
 */
module HullDobell {
  import opened ModularArithmetic

  function Pow(b: nat, e: nat): nat {
    if e == 0 then 1 else b * Pow(b, e - 1)
  }

  function Pow2(e: nat): (r: nat)
    ensures r >= 1
  {
    if e == 0 then 1 else 2 * Pow2(e - 1)
  }

  /** `1 + b + ... + b^(n-1)`. */
  function Geometric(b: nat, n: nat): nat {
    if n == 0 then 0 else Geometric(b, n - 1) + Pow(b, n - 1)
  }

  /** One step of the map modulo `m`. */
  function Step(a: nat, c: nat, m: nat, s: nat): (r: nat)
    requires m > 0
    ensures r < m
  {
    (a * s + c) % m
  }

  /** The state reached after `n` steps. */
  function Iterate(a: nat, c: nat, m: nat, n: nat, s: nat): (r: nat)
    requires m > 0 && s < m
    ensures r < m
  {
    if n == 0 then s else Step(a, c, m, Iterate(a, c, m, n - 1, s))
  }

  // ---- divisibility by powers of two ----

  /** Halving both sides of a divisibility by a power of two. */
  lemma HalveDivisibility(x: int, k: nat)
    requires k > 0
    ensures (2 * x) % Pow2(k) == 0 <==> x % Pow2(k - 1) == 0
  {
    var p := Pow2(k - 1);
    if (2 * x) % (2 * p) == 0 {
      var q := (2 * x) / (2 * p);
      assert 2 * x == q * (2 * p);
      assert q * (2 * p) == 2 * (q * p);
      assert x == q * p + 0;
      ModIsUnique(x, q, 0, p);
    }
    if x % p == 0 {
      var q := x / p;
      assert x == q * p;
      assert 2 * x == q * (2 * p) + 0;
      ModIsUnique(2 * x, q, 0, 2 * p);
    }
  }

  lemma DivisibleMeansEven(x: int, k: nat)
    requires k > 0 && x % Pow2(k) == 0
    ensures x % 2 == 0
  {
    EvenModulus(x, Pow2(k - 1));
  }

  lemma OddTimesOdd(h: int, g: int)
    ensures ((2 * h + 1) * (2 * g + 1)) % 2 == 1
  {
    var z := 2 * (h * g) + h + g;
    assert (2 * h + 1) * (2 * g + 1) == 2 * z + 1;
  }

  lemma DoubleTimes(h: int, u: int)
    ensures (2 * h) * u == 2 * (h * u)
  {
  }

  /** An odd factor does not affect divisibility by a power of two. */
  lemma {:induction false} OddFactor(x: int, u: int, k: nat)
    requires u % 2 == 1
    ensures (x * u) % Pow2(k) == 0 <==> x % Pow2(k) == 0
    decreases k
  {
    if k > 0 {
      if x % 2 == 0 {
        var h := x / 2;
        DoubleTimes(h, u);
        HalveDivisibility(h * u, k);
        HalveDivisibility(h, k);
        OddFactor(h, u, k - 1);
      } else {
        OddTimesOdd(x / 2, u / 2);
        if (x * u) % Pow2(k) == 0 { DivisibleMeansEven(x * u, k); }
        if x % Pow2(k) == 0 { DivisibleMeansEven(x, k); }
      }
    }
  }

  lemma {:induction false} Pow2Add(m: nat, n: nat)
    ensures Pow2(m + n) == Pow2(m) * Pow2(n)
  {
    if m > 0 {
      Pow2Add(m - 1, n);
      DoubleTimes(Pow2(m - 1), Pow2(n));
    }
  }

  lemma Pow2Double(n: nat)
    ensures Pow2(2 * n) == Pow2(n) * Pow2(n)
  {
    hide Pow2;
    Pow2Add(n, n);
  }

  // ---- geometric sums ----

  lemma Distribute(p: int, g: int, h: int)
    ensures p * (g + h) == p * g + p * h
  {
  }

  lemma {:induction false} PowAdd(b: nat, m: nat, n: nat)
    ensures Pow(b, m + n) == Pow(b, m) * Pow(b, n)
  {
    if m > 0 {
      PowAdd(b, m - 1, n);
      Reassociate(b, Pow(b, m - 1), Pow(b, n));
      assert Pow(b, m + n) == b * Pow(b, m - 1 + n);
    }
  }

  lemma {:induction false} GeometricAdd(b: nat, m: nat, n: nat)
    ensures Geometric(b, m + n) == Geometric(b, m) + Pow(b, m) * Geometric(b, n)
  {
    if n > 0 {
      GeometricAdd(b, m, n - 1);
      PowAdd(b, m, n - 1);
      Distribute(Pow(b, m), Geometric(b, n - 1), Pow(b, n - 1));
      assert Geometric(b, m + n) == Geometric(b, m + (n - 1)) + Pow(b, m + (n - 1));
    }
  }

  /** `S(n + 1) == 1 + b * S(n)`. */
  lemma GeometricShift(b: nat, n: nat)
    ensures Geometric(b, n + 1) == 1 + b * Geometric(b, n)
  {
    GeometricAdd(b, 1, n);
    assert Pow(b, 1) == b * Pow(b, 0) == b;
    assert Geometric(b, 1) == Geometric(b, 0) + Pow(b, 0);
  }

  /** `S(2m) == S(m) * (b^m + 1)`. */
  lemma GeometricDouble(b: nat, m: nat)
    ensures Geometric(b, 2 * m) == Geometric(b, m) * (Pow(b, m) + 1)
  {
    hide Geometric, Pow;
    GeometricAdd(b, m, m);
    Distribute(Geometric(b, m), Pow(b, m), 1);
  }

  /** `b^n - 1 == (b - 1) * S(n)`. */
  lemma {:induction false} PowerMinusOne(b: nat, n: nat)
    ensures Pow(b, n) == 1 + (b - 1) * Geometric(b, n)
  {
    if n > 0 {
      PowerMinusOne(b, n - 1);
      Distribute(b - 1, Geometric(b, n - 1), Pow(b, n - 1));
    }
  }

  lemma OneModFour(x: int, y: int)
    ensures ((4 * x + 1) * (4 * y + 1)) % 4 == 1
  {
    var z := 4 * (x * y) + x + y;
    assert (4 * x + 1) * (4 * y + 1) == 4 * z + 1;
  }

  lemma {:induction false} PowModFour(b: nat, n: nat)
    requires b % 4 == 1
    ensures Pow(b, n) % 4 == 1
  {
    if n > 0 {
      PowModFour(b, n - 1);
      OneModFour(b / 4, Pow(b, n - 1) / 4);
    }
  }

  lemma AddOdd(g: int, p: int, n: int)
    requires g % 2 == n % 2 && p % 4 == 1
    ensures (g + p) % 2 == (n + 1) % 2
  {
  }

  lemma {:induction false} GeometricParity(b: nat, n: nat)
    requires b % 4 == 1
    ensures Geometric(b, n) % 2 == n % 2
  {
    if n > 0 {
      GeometricParity(b, n - 1);
      PowModFour(b, n - 1);
      AddOdd(Geometric(b, n - 1), Pow(b, n - 1), n - 1);
    }
  }

  lemma HalfFactor(g: nat, p: nat) returns (u: nat)
    requires p % 4 == 1
    ensures u % 2 == 1 && g * (p + 1) == 2 * (g * u)
  {
    u := 2 * (p / 4) + 1;
    FactorOut(g, p + 1, u);
  }

  lemma FactorOut(g: int, w: int, u: int)
    requires w == 2 * u
    ensures g * w == 2 * (g * u)
  {
  }

  /** `S(2m)` is twice `S(m)` times an odd number when `b mod 4 == 1`. */
  lemma GeometricHalf(b: nat, m: nat) returns (u: nat)
    requires b % 4 == 1
    ensures u % 2 == 1 && Geometric(b, 2 * m) == 2 * (Geometric(b, m) * u)
  {
    PowModFour(b, m);
    GeometricDouble(b, m);
    u := HalfFactor(Geometric(b, m), Pow(b, m));
  }

  lemma OddIsNotDivisible(x: int, k: nat)
    requires x % 2 == 1 && k > 0
    ensures x % Pow2(k) != 0
  {
    if x % Pow2(k) == 0 {
      DivisibleMeansEven(x, k);
    }
  }

  /** For `b mod 4 == 1` the sum `S(n)` and `n` are divisible by the same powers of two. */
  lemma {:induction false} GeometricValuation(b: nat, n: nat, k: nat)
    requires b % 4 == 1
    ensures Geometric(b, n) % Pow2(k) == 0 <==> n % Pow2(k) == 0
    decreases k
  {
    if k == 0 {
    } else if n % 2 == 1 {
      GeometricParity(b, n);
      OddIsNotDivisible(Geometric(b, n), k);
      OddIsNotDivisible(n, k);
    } else {
      var m := n / 2;
      var g := Geometric(b, m);
      var u := GeometricHalf(b, m);
      HalveDivisibility(g * u, k);
      OddFactor(g, u, k - 1);
      GeometricValuation(b, m, k - 1);
      HalveDivisibility(m, k);
    }
  }

  // ---- orbits ----

  lemma AffineStep(a: int, c: int, p: int, s: int, g: int)
    ensures a * (p * s + c * g) + c == (a * p) * s + c * (1 + a * g)
  {
    assert a * (p * s) == (a * p) * s;
    assert a * (c * g) == c * (a * g);
  }

  lemma {:induction false} IterateClosedForm(a: nat, c: nat, m: nat, n: nat, s: nat)
    requires m > 0 && s < m
    ensures Iterate(a, c, m, n, s) == (Pow(a, n) * s + c * Geometric(a, n)) % m
  {
    if n == 0 {
      ModIsUnique(s, 0, s, m);
    } else {
      IterateClosedForm(a, c, m, n - 1, s);
      var p, g := Pow(a, n - 1), Geometric(a, n - 1);
      ModOfStep(a, c, p * s + c * g, m);
      AffineStep(a, c, p, s, g);
      GeometricShift(a, n - 1);
    }
  }

  lemma {:induction false} IterateAdd(a: nat, c: nat, m: nat, i: nat, j: nat, s: nat)
    requires m > 0 && s < m
    ensures Iterate(a, c, m, i + j, s) == Iterate(a, c, m, j, Iterate(a, c, m, i, s))
  {
    if j > 0 {
      IterateAdd(a, c, m, i, j - 1, s);
    }
  }

  lemma Displacement(a: int, c: int, g: int, s: int)
    ensures (1 + (a - 1) * g) * s + c * g - s == g * ((a - 1) * s + c)
  {
    assert ((a - 1) * g) * s == g * ((a - 1) * s);
  }

  /** After `n` steps the unreduced state has moved by `S(n) * ((a - 1)*s + c)`. */
  lemma OrbitDisplacement(a: nat, c: nat, n: nat, s: nat)
    ensures Pow(a, n) * s + c * Geometric(a, n) - s == Geometric(a, n) * ((a - 1) * s + c)
  {
    PowerMinusOne(a, n);
    Displacement(a, c, Geometric(a, n), s);
  }

  lemma OddIncrement(a: nat, c: nat, s: nat)
    requires a % 2 == 1 && c % 2 == 1
    ensures ((a - 1) * s + c) % 2 == 1
  {
    DoubleTimes((a - 1) / 2, s);
  }

  /** A state recurs exactly after the multiples of `2^k` steps. */
  lemma ReturnTime(a: nat, c: nat, k: nat, n: nat, s: nat)
    requires a % 4 == 1 && c % 2 == 1 && s < Pow2(k)
    ensures Iterate(a, c, Pow2(k), n, s) == s <==> n % Pow2(k) == 0
  {
    hide Geometric, Pow, Iterate, Pow2;
    var m, g, u := Pow2(k), Geometric(a, n), (a - 1) * s + c;
    var x := Pow(a, n) * s + c * g;
    IterateClosedForm(a, c, m, n, s);
    EqualRemainders(x, s, m);
    OrbitDisplacement(a, c, n, s);
    OddIncrement(a, c, s);
    OddFactor(g, u, k);
    GeometricValuation(a, n, k);
  }

  /** The first `2^k` states of any orbit are pairwise different. */
  lemma OrbitIsInjective(a: nat, c: nat, k: nat, i: nat, j: nat, s: nat)
    requires a % 4 == 1 && c % 2 == 1 && s < Pow2(k)
    requires i < j < Pow2(k)
    ensures Iterate(a, c, Pow2(k), i, s) != Iterate(a, c, Pow2(k), j, s)
  {
    IterateAdd(a, c, Pow2(k), i, j - i, s);
    ReturnTime(a, c, k, j - i, Iterate(a, c, Pow2(k), i, s));
    ModIsUnique(j - i, 0, j - i, Pow2(k));
  }

  ghost function Below(n: nat): (r: set<nat>)
    ensures forall x: nat :: x in r <==> x < n
    ensures |r| == n
  {
    if n == 0 then {} else Below(n - 1) + {n - 1}
  }

  /** The states seen in the first `n` steps. */
  ghost function Visited(a: nat, c: nat, m: nat, n: nat, s: nat): (r: set<nat>)
    requires m > 0 && s < m
  {
    if n == 0 then {} else Visited(a, c, m, n - 1, s) + {Iterate(a, c, m, n - 1, s)}
  }

  lemma {:induction false} VisitedAt(a: nat, c: nat, m: nat, n: nat, s: nat, t: nat) returns (i: nat)
    requires m > 0 && s < m && t in Visited(a, c, m, n, s)
    ensures t < m && i < n && Iterate(a, c, m, i, s) == t
  {
    i := n - 1;
    if t != Iterate(a, c, m, n - 1, s) {
      i := VisitedAt(a, c, m, n - 1, s, t);
    }
  }

  lemma {:induction false} VisitedSize(a: nat, c: nat, k: nat, n: nat, s: nat)
    requires a % 4 == 1 && c % 2 == 1 && s < Pow2(k) && n <= Pow2(k)
    ensures |Visited(a, c, Pow2(k), n, s)| == n
  {
    if n > 0 {
      VisitedSize(a, c, k, n - 1, s);
      var last := Iterate(a, c, Pow2(k), n - 1, s);
      if last in Visited(a, c, Pow2(k), n - 1, s) {
        var i := VisitedAt(a, c, Pow2(k), n - 1, s, last);
        OrbitIsInjective(a, c, k, i, n - 1, s);
      }
    }
  }

  lemma SubsetOfEqualSize(small: set<nat>, big: set<nat>)
    requires small <= big && |small| == |big|
    ensures small == big
  {
    if exists x :: x in big && x !in small {
      var x :| x in big && x !in small;
      assert small <= big - {x};
      SubsetSize(small, big - {x});
    }
  }

  lemma {:induction false} SubsetSize(small: set<nat>, big: set<nat>)
    requires small <= big
    ensures |small| <= |big|
  {
    if small != {} {
      var x :| x in small;
      SubsetSize(small - {x}, big - {x});
    }
  }

  /** Every state is reached from every other within `2^k` steps. */
  lemma OrbitIsSurjective(a: nat, c: nat, k: nat, s: nat, t: nat) returns (n: nat)
    requires a % 4 == 1 && c % 2 == 1 && s < Pow2(k) && t < Pow2(k)
    ensures n < Pow2(k) && Iterate(a, c, Pow2(k), n, s) == t
  {
    var m := Pow2(k);
    VisitedSize(a, c, k, m, s);
    forall v | v in Visited(a, c, m, m, s)
      ensures v in Below(m)
    {
      var _ := VisitedAt(a, c, m, m, s, v);
    }
    SubsetOfEqualSize(Visited(a, c, m, m, s), Below(m));
    n := VisitedAt(a, c, m, m, s, t);
  }
}
