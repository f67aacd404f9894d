/** Integer facts shared by the arithmetic and codec modules. */
module NatArith {
  lemma {:induction false} MulMono(a: nat, b: nat, c: nat)
    requires a <= b
    ensures a * c <= b * c
    decreases c
  {
    if c > 0 {
      MulMono(a, b, c - 1);
      assert a * c == a * (c - 1) + a && b * c == b * (c - 1) + b;
    }
  }

  lemma {:induction false} MulStrict(a: nat, b: nat, c: nat)
    requires a < b && c > 0
    ensures a * c < b * c
  {
    MulMono(a + 1, b, c);
    assert (a + 1) * c == a * c + c;
  }

  lemma MulAssoc(a: int, b: int, c: int)
    ensures a * (b * c) == (a * b) * c
  {
  }

  lemma MulDist(a: int, b: int, c: int)
    ensures a * (b + c) == a * b + a * c
    ensures (b + c) * a == b * a + c * a
  {
  }

  lemma MulGap(p: nat, q: nat, b: nat)
    requires p < q
    ensures p * b + b <= q * b
  {
    MulMono(p + 1, q, b);
  }

  /** Quotient and remainder are determined by their defining equation. */
  lemma DivModUnique(a: nat, b: nat, q: nat, r: nat)
    requires b > 0 && a == q * b + r && r < b
    ensures a / b == q && a % b == r
  {
    var p: nat, s: nat := a / b, a % b;
    assert a == p * b + s;
    if p < q {
      MulGap(p, q, b);
    } else if q < p {
      MulGap(q, p, b);
    }
  }

  lemma DivModFacts(a: nat, b: nat)
    requires b > 0
    ensures 0 <= a / b && 0 <= a % b < b && a == (a / b) * b + a % b
  {
  }

  /** A remainder fits between two multiples of the modulus. */
  lemma MultipleFits(p: nat, lo: nat, q: nat, c: nat)
    requires p < q && lo % q == 0 && lo < q * c
    ensures p + lo < q * c
  {
    DivModFacts(lo, q);
    var k: nat := lo / q;
    if k >= c {
      MulMono(c, k, q);
    } else {
      MulGap(k, c, q);
    }
  }

  lemma ModEqual(a: nat, x: nat, b: nat, k: nat)
    requires b > 0 && x < b && x + k * b == a
    ensures x == a % b
  {
    DivModUnique(a, b, k, x);
  }

  lemma DivLower(a: nat, b: nat, q: nat)
    requires b > 0 && q * b <= a
    ensures q <= a / b
  {
    DivModFacts(a, b);
    var p: nat := a / b;
    if p < q {
      MulGap(p, q, b);
    }
  }

  lemma DivUpper(a: nat, b: nat, q: nat)
    requires b > 0 && a < (q + 1) * b
    ensures a / b <= q
  {
    DivModFacts(a, b);
    if a / b > q {
      MulMono(q + 1, a / b, b);
    }
  }

  lemma DivDiv(a: nat, b: nat, c: nat)
    requires b > 0 && c > 0
    ensures b * c > 0 && (a / b) / c == a / (b * c)
  {
    DivModFacts(a, b);
    var q := a / b;
    DivModFacts(q, c);
    MulStrict(0, b, c);
    var rem := (q % c) * b + a % b;
    assert a == q * b + a % b;
    assert q * b == ((q / c) * c + q % c) * b;
    assert ((q / c) * c + q % c) * b == ((q / c) * c) * b + (q % c) * b;
    assert ((q / c) * c) * b == (q / c) * (b * c);
    MulMono(q % c + 1, c, b);
    assert (q % c + 1) * b == (q % c) * b + b;
    assert c * b == b * c;
    DivModUnique(a, b * c, q / c, rem);
  }

  // ---- Powers ----

  function Pow(b: nat, n: nat): nat {
    if n == 0 then 1 else b * Pow(b, n - 1)
  }

  lemma {:induction false} PowPos(b: nat, n: nat)
    requires b > 0
    ensures Pow(b, n) > 0
  {
    if n > 0 {
      PowPos(b, n - 1);
      MulStrict(0, b, Pow(b, n - 1));
    }
  }

  lemma {:induction false} PowAdd(b: nat, m: nat, n: nat)
    ensures Pow(b, m + n) == Pow(b, m) * Pow(b, n)
    decreases m
  {
    if m > 0 {
      PowAdd(b, m - 1, n);
      assert Pow(b, m + n) == b * Pow(b, m - 1 + n);
      MulAssoc(b, Pow(b, m - 1), Pow(b, n));
    }
  }

  lemma {:induction false} PowMono(b: nat, m: nat, n: nat)
    requires b > 0 && m <= n
    ensures Pow(b, m) <= Pow(b, n)
  {
    PowAdd(b, n - m, m);
    PowPos(b, n - m);
    MulMono(1, Pow(b, n - m), Pow(b, m));
  }

  lemma PowStrict(b: nat, m: nat, n: nat)
    requires b > 1 && m < n
    ensures Pow(b, m) < Pow(b, n)
  {
    PowMono(b, m + 1, n);
    PowPos(b, m);
    MulStrict(1, b, Pow(b, m));
  }

  lemma {:induction false} PowPow(b: nat, m: nat, n: nat)
    ensures Pow(Pow(b, m), n) == Pow(b, m * n)
    decreases n
  {
    if n > 0 {
      PowPow(b, m, n - 1);
      PowAdd(b, m, m * (n - 1));
      assert m * n == m + m * (n - 1);
    } else {
      assert m * n == 0;
    }
  }

  lemma {:induction false} PowBase(a: nat, b: nat, n: nat)
    requires a <= b
    ensures Pow(a, n) <= Pow(b, n)
  {
    if n > 0 {
      PowBase(a, b, n - 1);
      MulMono(a, b, Pow(a, n - 1));
      MulMono(Pow(a, n - 1), Pow(b, n - 1), b);
    }
  }

  lemma PowBaseStrict(a: nat, b: nat, n: nat)
    requires Pow(a, n) < Pow(b, n)
    ensures a < b
  {
    if b <= a {
      PowBase(b, a, n);
    }
  }

  function Pow2(n: nat): (r: nat)
    ensures r > 0
  {
    PowPos(2, n);
    Pow(2, n)
  }

  // ---- Bitwise OR and AND of naturals ----

  function Or(a: nat, b: nat): nat
    decreases a + b
  {
    if a == 0 && b == 0 then 0 else
      2 * Or(a / 2, b / 2) + (if a % 2 == 1 || b % 2 == 1 then 1 else 0)
  }

  function And(a: nat, b: nat): nat
    decreases a + b
  {
    if a == 0 || b == 0 then 0 else
      2 * And(a / 2, b / 2) + (if a % 2 == 1 && b % 2 == 1 then 1 else 0)
  }

  /** OR of numbers whose bits do not overlap is their sum. */
  lemma {:induction false} OrIsAdd(a: nat, b: nat, n: nat)
    requires a < Pow2(n) && b % Pow2(n) == 0
    ensures Or(a, b) == a + b
    decreases n
  {
    if n == 0 {
      assert a == 0;
      OrZero(b);
    } else {
      PowPos(2, n - 1);
      HalfMultiple(b, Pow2(n - 1));
      OrIsAdd(a / 2, b / 2, n - 1);
    }
  }

  lemma {:induction false} OrZero(b: nat)
    ensures Or(0, b) == b
    decreases b
  {
    if b > 0 {
      OrZero(b / 2);
    }
  }

  lemma {:induction false} OrComm(a: nat, b: nat)
    ensures Or(a, b) == Or(b, a)
    decreases a + b
  {
    if a + b > 0 {
      OrComm(a / 2, b / 2);
    }
  }

  lemma HalfMultiple(b: nat, p: nat)
    requires p > 0 && b % (2 * p) == 0
    ensures b % 2 == 0 && (b / 2) % p == 0
  {
    DivModFacts(b, 2 * p);
    var k := b / (2 * p);
    assert b == k * (2 * p);
    assert k * (2 * p) == 2 * (k * p);
    DivModUnique(b, 2, k * p, 0);
    DivModUnique(b / 2, p, k, 0);
  }
}
