/** Quotients, remainders and the few nonlinear facts the models need. */
module ModularArithmetic {
  lemma QuotientIsUnique(q: int, r: int, q': int, r': int, m: int)
    requires 0 <= r < m && 0 <= r' < m && q * m + r == q' * m + r'
    ensures q == q' && r == r'
  {
    if q > q' {
      AtLeastOnce(q, q', m);
    } else if q < q' {
      AtLeastOnce(q', q, m);
    }
  }

  lemma AtLeastOnce(q: int, p: int, m: int)
    requires q > p && m > 0
    ensures q * m >= p * m + m
  {
    var d := q - p - 1;
    assert d * m >= 0;
    assert q * m == p * m + m + d * m by { assert q == p + 1 + d; }
  }

  lemma ModIsUnique(x: int, q: int, r: int, m: int)
    requires 0 <= r < m && x == q * m + r
    ensures x % m == r && x / m == q
  {
    QuotientIsUnique(q, r, x / m, x % m, m);
  }

  /** Adding a multiple of the modulus does not change the remainder. */
  lemma ModShift(x: int, k: int, m: int)
    requires m > 0
    ensures (x + k * m) % m == x % m
  {
    ModIsUnique(x + k * m, x / m + k, x % m, m);
  }

  lemma ModOfStep(a: nat, c: nat, x: nat, m: nat)
    requires m > 0
    ensures (a * (x % m) + c) % m == (a * x + c) % m
  {
    var q := x / m;
    assert a * x + c == a * (x % m) + c + (a * q) * m by {
      assert x == q * m + x % m;
      assert a * x == a * (q * m) + a * (x % m);
      assert a * (q * m) == (a * q) * m;
    }
    ModShift(a * (x % m) + c, a * q, m);
  }

  /** Equal remainders mean the difference is divisible. */
  lemma EqualRemainders(x: int, s: int, m: int)
    requires m > 0 && 0 <= s < m
    ensures x % m == s <==> (x - s) % m == 0
  {
    if x % m == s {
      ModIsUnique(x - s, x / m, 0, m);
    }
    if (x - s) % m == 0 {
      ModIsUnique(x, (x - s) / m, s, m);
    }
  }

  /** Reducing modulo an even number keeps the low bit. */
  lemma EvenModulus(x: int, h: int)
    requires h > 0
    ensures (x % (2 * h)) % 2 == x % 2
  {
    var q, r := x / (2 * h), x % (2 * h);
    Reassociate(q, 2, h);
    var p := q * h;
    assert x == 2 * p + r;
  }

  lemma Reassociate(x: int, y: int, z: int)
    ensures x * (y * z) == (x * y) * z
  {
  }
}
