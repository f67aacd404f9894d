/** `base_uint`: the shifts. */
module BigShift {
  import opened NatArith
  import opened Limbs
  import opened BigUint

  // ---- One limb ----

  lemma Complementary(s: nat)
    requires s <= 32
    ensures Pow2(s) * Pow2(32 - s) == B
  {
    LimbIs32Bits();
    PowAdd(2, s, 32 - s);
  }

  /** The bits a limb sends to the next one when it is shifted left. */
  function High(x: u32, s: nat): (hi: nat)
    requires s < 32
  {
    if s == 0 then 0 else x / Pow2(32 - s)
  }

  /** `x << s` on 32 bits. */
  function Low(x: u32, s: nat): (lo: u32) {
    (x * Pow2(s)) % B
  }

  lemma SplitProduct(x: u32, p: nat, c: nat)
    requires p > 0 && c > 0 && p * c == B
    ensures x * p == (x % c) * p + (x / c) * B
    ensures (x * p) % B == (x % c) * p && ((x % c) * p) % p == 0
    ensures x / c < p <= B
  {
    MulMono(1, c, p);
    var q: nat, r: nat := x / c, x % c;
    DivModFacts(x, c);
    MulDist(p, q * c, r);
    assert (q * c) * p == q * B by {
      MulAssoc(q, c, p);
    }
    MulStrict(r, c, p);
    DivModUnique(x * p, B, q, r * p);
    DivModUnique(r * p, p, r, 0);
    if q >= p {
      MulMono(p, q, c);
    }
  }

  lemma ShiftedLimb(x: u32, s: nat)
    requires s < 32
    ensures x * Pow2(s) == Low(x, s) + High(x, s) * B
    ensures Low(x, s) % Pow2(s) == 0 && High(x, s) < Pow2(s) <= B
    ensures s == 0 ==> High(x, s) == 0
  {
    if s > 0 {
      Complementary(s);
      hide Pow2;
      SplitProduct(x, Pow2(s), Pow2(32 - s));
    }
  }

  /** Filling the free low bits of a limb by OR is an addition that fits. */
  lemma OrFits(p: nat, lo: u32, s: nat)
    requires s < 32 && p < Pow2(s) && lo % Pow2(s) == 0
    ensures Or(p, lo) == Or(lo, p) == p + lo < B
  {
    OrIsAdd(p, lo, s);
    OrComm(p, lo);
    hide *;
    Complementary(s);
    MultipleFits(p, lo, Pow2(s), Pow2(32 - s));
  }

  // ---- Left shift ----

  lemma MoveUp(v: nat, x: nat, p: nat, pi: nat, pk: nat)
    ensures ((v + x * pi) * p) * pk == (v * p) * pk + (x * p) * (pi * pk)
  {
    MulDist(p, v, x * pi);
    MulDist(pk, v * p, (x * pi) * p);
    assert (x * pi) * p == (x * p) * pi by {
      MulAssoc(x, pi, p);
      MulAssoc(x, p, pi);
    }
    MulAssoc(x * p, pi, pk);
  }

  lemma TwoHalves(x: u32, s: nat, at: nat)
    requires s < 32
    ensures (x * Pow2(s)) * BPow(at) == Low(x, s) * BPow(at) + High(x, s) * BPow(at + 1)
  {
    ShiftedLimb(x, s);
    BPowStep(at);
    hide Pow2, BPow, Low, High;
    MulDist(BPow(at), Low(x, s), High(x, s) * B);
    MulAssoc(High(x, s), B, BPow(at));
  }

  /** One iteration: the two halves of `x` go to limbs `at` and `at + 1`, as far
      as these exist. */
  method PlaceLeft(pn: array<u32>, x: u32, s: nat, at: nat) returns (ghost lost: nat)
    requires s < 32
    requires forall m | at < m < pn.Length :: pn[m] == 0
    requires at < pn.Length ==> pn[at] < Pow2(s)
    modifies pn
    ensures forall m | at + 1 < m < pn.Length :: pn[m] == 0
    ensures at + 1 < pn.Length ==> pn[at + 1] < Pow2(s)
    ensures Val(pn[..]) + lost * BPow(pn.Length) == old(Val(pn[..])) + (x * Pow2(s)) * BPow(at)
  {
    hide Val, Pow, Pow2, BPow, Or, Low, High;
    var width := pn.Length;
    ghost var before := pn[..];
    ShiftedLimb(x, s);
    TwoHalves(x, s, at);
    lost := if at + 1 < width then 0 else if at + 1 == width then High(x, s)
            else (x * Pow2(s)) * BPow(at - width);
    if at + 1 < width && s != 0 {
      OrZero(High(x, s));
      pn[at + 1] := Or(pn[at + 1], High(x, s));
      ValSet(before, at + 1, pn[at + 1]);
      assert pn[..] == before[at + 1 := pn[at + 1]];
    }
    assert at + 1 < width ==> Val(pn[..]) == Val(before) + High(x, s) * BPow(at + 1);
    ghost var middle := pn[..];
    if at < width {
      OrFits(pn[at], Low(x, s), s);
      pn[at] := Or(pn[at], Low(x, s));
      ValSet(middle, at, pn[at]);
      assert pn[..] == middle[at := pn[at]];
      MulDist(BPow(at), before[at], Low(x, s));
    } else {
      BPowAdd(at - width, width);
      MulAssoc(x * Pow2(s), BPow(at - width), BPow(width));
    }
  }

  /** operator<<= */
  method ShiftLeft(pn: array<u32>, shift: nat)
    modifies pn
    ensures Val(pn[..]) == (old(Val(pn[..])) * Pow2(shift)) % BPow(pn.Length)
  {
    hide Val, Pow, Pow2, BPow, Or, Low, High;
    var width := pn.Length;
    ghost var a0 := pn[..];
    var a := new u32[width](i requires 0 <= i < width reads pn => pn[i]);
    assert a[..] == a0;
    forall i | 0 <= i < width {
      pn[i] := 0;
    }
    ValZero(pn[..]);
    ValEmpty(a0);
    var k, s := shift / 32, shift % 32;
    ghost var dropped: nat := 0;
    var i := 0;
    while i < width
      invariant 0 <= i <= width && a[..] == a0
      invariant forall m | i + k < m < width :: pn[m] == 0
      invariant i + k < width ==> pn[i + k] < Pow2(s)
      invariant Val(pn[..]) + dropped * BPow(width) == (Val(a0[..i]) * Pow2(s)) * BPow(k)
    {
      ghost var lost := PlaceLeft(pn, a[i], s, i + k);
      MoveUp(Val(a0[..i]), a[i], Pow2(s), BPow(i), BPow(k));
      BPowAdd(i, k);
      Advance(a0, a0, i);
      MulDist(BPow(width), dropped, lost);
      dropped := dropped + lost;
      i := i + 1;
    }
    ValEmpty(a0);
    ValBound(pn[..]);
    BitsAndLimbs(shift);
    MulAssoc(Val(a0), Pow2(s), BPow(k));
    ModEqual(Val(a0) * Pow2(shift), Val(pn[..]), BPow(width), dropped);
  }

  // ---- Right shift ----

  /** Limb `at` gains the quotient, the limb below the remainder on top. */
  lemma SplitLimb(v: nat, x: u32, s: nat, at: nat)
    requires s < 32
    ensures x == (x / Pow2(s)) * Pow2(s) + x % Pow2(s) && x / Pow2(s) < Pow2(32 - s)
    ensures s > 0 ==> Low(x, 32 - s) == (x % Pow2(s)) * Pow2(32 - s) && Low(x, 32 - s) % Pow2(32 - s) == 0
    ensures s == 0 ==> x % Pow2(s) == 0
    ensures at > 0 ==>
      (v + (x / Pow2(s)) * BPow(at) + ((x % Pow2(s)) * Pow2(32 - s)) * BPow(at - 1)) * Pow2(s)
      == v * Pow2(s) + x * BPow(at)
  {
    Complementary(s);
    DivModFacts(x, Pow2(s));
    assert s == 0 ==> x % Pow2(s) == 0;
    if at > 0 {
      BPowStep(at - 1);
    }
    hide Pow2, BPow;
    var p, c := Pow2(s), Pow2(32 - s);
    var q: nat, r: nat := x / p, x % p;
    SplitProduct(x, c, p);
    if at > 0 {
      RightStep(v, q, r, p, c, BPow(at - 1));
    }
  }

  lemma RightStep(v: nat, q: nat, r: nat, p: nat, c: nat, w: nat)
    requires p * c == B
    ensures (v + q * (B * w) + (r * c) * w) * p == v * p + (q * p + r) * (B * w)
  {
    MulDist(p, v + q * (B * w), (r * c) * w);
    MulDist(p, v, q * (B * w));
    assert ((r * c) * w) * p == r * (B * w) by {
      Regroup(r, p, c, w);
      MulAssoc(r * c, w, p);
      Regroup(r, w, p, c);
      MulAssoc(r, c, w * p);
    }
    assert (q * (B * w)) * p == (q * p) * (B * w) by {
      MulAssoc(q, B * w, p);
      MulAssoc(q, p, B * w);
    }
    MulDist(B * w, q * p, r);
  }

  /** One iteration of the right shift for the limb whose place becomes `at`. */
  method PlaceRight(pn: array<u32>, x: u32, s: nat, at: int) returns (ghost rest: nat)
    requires s < 32 && at < pn.Length
    requires forall m | 0 <= m < pn.Length && at <= m :: pn[m] == 0
    requires at > 0 ==> pn[at - 1] < Pow2(32 - s)
    modifies pn
    ensures forall m | 0 <= m < pn.Length && at < m :: pn[m] == 0
    ensures at >= 0 ==> pn[at] < Pow2(32 - s)
    ensures at < 0 ==> pn[..] == old(pn[..])
    ensures rest < Pow2(s) && (at != 0 ==> rest == 0)
    ensures at >= 0 ==> Val(pn[..]) * Pow2(s) + rest == old(Val(pn[..])) * Pow2(s) + x * BPow(at)
  {
    hide Val, Pow, Pow2, BPow, Or, Low;
    ghost var before := pn[..];
    ghost var v := Val(before);
    SplitLimb(v, x, s, if at > 0 then at else 0);
    DivModFacts(x, Pow2(s));
    rest := if at == 0 then x % Pow2(s) else 0;
    if at - 1 >= 0 && s != 0 {
      OrFits(pn[at - 1], Low(x, 32 - s), 32 - s);
      pn[at - 1] := Or(pn[at - 1], Low(x, 32 - s));
      ValSet(before, at - 1, pn[at - 1]);
      assert pn[..] == before[at - 1 := pn[at - 1]];
      MulDist(BPow(at - 1), before[at - 1], Low(x, 32 - s));
    }
    assert at > 0 ==> Val(pn[..]) == v + ((x % Pow2(s)) * Pow2(32 - s)) * BPow(at - 1);
    ghost var middle := pn[..];
    if at >= 0 {
      OrZero(x / Pow2(s));
      Quotient(x, s);
      pn[at] := Or(pn[at], x / Pow2(s));
      ValSet(middle, at, pn[at]);
      assert pn[..] == middle[at := pn[at]];
    }
    if at == 0 {
      BPowStep(0);
      MulDist(Pow2(s), v, x / Pow2(s));
    }
  }

  lemma Quotient(x: u32, s: nat)
    ensures 0 <= x / Pow2(s) < B
  {
    DivModFacts(x, Pow2(s));
    MulMono(1, Pow2(s), x / Pow2(s));
  }

  lemma FloorShift(v: nat, p: nat, rest: nat, w: nat, low: nat, total: nat)
    requires p > 0 && rest < p && low < w && (v * p + rest) * w + low == total
    ensures p * w > 0 && v == total / (p * w)
  {
    MulDist(w, v * p, rest);
    MulAssoc(v, p, w);
    MulGap(rest, p, w);
    MulStrict(0, p, w);
    DivModUnique(total, p * w, v, rest * w + low);
  }

  /** operator>>= */
  method ShiftRight(pn: array<u32>, shift: nat)
    modifies pn
    ensures Val(pn[..]) == old(Val(pn[..])) / Pow2(shift)
  {
    hide Val, Pow, Pow2, BPow, Or, Low;
    var width := pn.Length;
    ghost var a0 := pn[..];
    var a := new u32[width](i requires 0 <= i < width reads pn => pn[i]);
    assert a[..] == a0;
    forall i | 0 <= i < width {
      pn[i] := 0;
    }
    ValZero(pn[..]);
    ValEmpty(a0);
    var k, s := shift / 32, shift % 32;
    ghost var rest: nat, low: nat := 0, 0;
    var i := 0;
    BelowPower(a0[..0], k);
    while i < width
      invariant 0 <= i <= width && a[..] == a0
      invariant forall m | 0 <= m < width && i - k <= m :: pn[m] == 0
      invariant i - k > 0 ==> pn[i - k - 1] < Pow2(32 - s)
      invariant rest < Pow2(s) && low < BPow(k)
      invariant i <= k ==> low == Val(a0[..i]) && rest == 0 && Val(pn[..]) == 0
      invariant (Val(pn[..]) * Pow2(s) + rest) * BPow(k) + low == Val(a0[..i])
    {
      ghost var v := Val(pn[..]);
      ghost var r := PlaceRight(pn, a[i], s, i - k);
      Advance(a0, a0, i);
      if i < k {
        low := Val(a0[..i + 1]);
        BelowPower(a0[..i + 1], k);
        ValZero(pn[..]);
      } else {
        BPowAdd(i - k, k);
        MulDist(BPow(k), v * Pow2(s) + rest, a[i] * BPow(i - k));
        MulAssoc(a[i], BPow(i - k), BPow(k));
        rest := rest + r;
      }
      i := i + 1;
    }
    ValEmpty(a0);
    BitsAndLimbs(shift);
    FloorShift(Val(pn[..]), Pow2(s), rest, BPow(k), low, Val(a0));
  }

  lemma BelowPower(t: seq<u32>, k: nat)
    requires |t| <= k
    ensures Val(t) < BPow(k)
  {
    ValBound(t);
    PowMono(B, |t|, k);
  }
}
