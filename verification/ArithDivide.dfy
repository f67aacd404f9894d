/** `base_uint`: bit length and shift-and-subtract division. */
module BigDivide {
  import opened NatArith
  import opened Limbs
  import opened BigUint
  import opened BigShift

  /** A top limb between two powers of two places the whole number between two. */
  lemma BitsAt(a: seq<u32>, pos: nat, t: nat)
    requires pos < |a| && (forall m | pos < m < |a| :: a[m] == 0)
    requires Pow2(t) <= a[pos] < Pow2(t + 1)
    ensures Pow2(32 * pos + t) <= Val(a) < Pow2(32 * pos + t + 1)
  {
    ValSplit(a, pos);
    ValBound(a[..pos]);
    assert Val(a[pos..]) == a[pos] by {
      ValZero(a[pos..][1..]);
    }
    hide Val, Pow2, BPow;
    Between(Val(a[..pos]), a[pos], BPow(pos), Pow2(t), Pow2(t + 1));
    BitsThenLimbs(t, pos);
    BitsThenLimbs(t + 1, pos);
  }

  lemma Between(low: nat, x: nat, p: nat, lo: nat, hi: nat)
    requires low < p && lo <= x < hi
    ensures lo * p <= low + p * x < hi * p
  {
    MulMono(lo, x, p);
    MulGap(x, hi, p);
  }

  lemma BitsThenLimbs(t: nat, pos: nat)
    ensures Pow2(32 * pos + t) == Pow2(t) * BPow(pos)
  {
    LimbIs32Bits();
    PowPow(2, 32, pos);
    PowAdd(2, t, 32 * pos);
  }

  lemma BitsFit(n: nat, width: nat)
    requires n <= 32 * width
    ensures Pow2(n) <= BPow(width)
  {
    LimbIs32Bits();
    PowPow(2, 32, width);
    PowMono(2, n, 32 * width);
  }

  /** bits(): one more than the position of the highest set bit, 0 for zero. */
  method Bits(a: array<u32>) returns (n: nat)
    ensures n <= 32 * a.Length && Val(a[..]) < Pow2(n)
    ensures if Val(a[..]) == 0 then n == 0 else n > 0 && Pow2(n - 1) <= Val(a[..])
  {
    hide Val, Pow2, Bit;
    var pos := a.Length;
    while pos > 0
      invariant 0 <= pos <= a.Length
      invariant forall m | pos <= m < a.Length :: a[m] == 0
    {
      pos := pos - 1;
      if a[pos] != 0 {
        ValZero(a[..]);
        var nbits := 31;
        LimbIs32Bits();
        while nbits > 0
          invariant 0 <= nbits <= 31 && a[pos] < Pow2(nbits + 1)
        {
          TopBit(a[pos], nbits);
          if Bit(a[pos], nbits) {
            BitsAt(a[..], pos, nbits);
            return 32 * pos + nbits + 1;
          }
          nbits := nbits - 1;
        }
        SmallPowers();
        BitsAt(a[..], pos, 0);
        return 32 * pos + 1;
      }
    }
    ValZero(a[..]);
    SmallPowers();
    return 0;
  }

  lemma SmallPowers()
    ensures Pow2(0) == 1 && Pow2(1) == 2
  {
    assert Pow(2, 0) == 1;
  }

  // ---- Division ----

  /** All bits of the quotient below `n` are still clear. */
  predicate LowClear(q: seq<u32>, n: nat) {
    && (forall m | 0 <= m < |q| && 32 * m + 32 <= n :: q[m] == 0)
    && (n % 32 != 0 && n / 32 < |q| ==> q[n / 32] % Pow2(n % 32) == 0)
  }

  /** `q |= 1 << shift` when nothing at or below that bit is set. */
  method SetBit(q: array<u32>, shift: nat)
    requires shift / 32 < q.Length && LowClear(q[..], shift + 1)
    modifies q
    ensures LowClear(q[..], shift)
    ensures Val(q[..]) == old(Val(q[..])) + Pow2(shift)
  {
    hide Val, Pow, Pow2, BPow, Or;
    var k, r := shift / 32, shift % 32;
    ghost var before := q[..];
    ClearLimb(before, shift);
    DoublePower(r);
    OrNewBit(q[k], r);
    q[k] := Or(q[k], Pow2(r));
    assert q[..] == before[k := q[k]];
    ValSet(before, k, q[k]);
    BitsAndLimbs(shift);
    MulDist(BPow(k), before[k], Pow2(r));
  }

  lemma DoublePower(r: nat)
    ensures Pow2(r + 1) == 2 * Pow2(r)
  {
  }

  lemma ClearLimb(q: seq<u32>, shift: nat)
    requires shift / 32 < |q| && LowClear(q, shift + 1)
    ensures q[shift / 32] % Pow2(shift % 32 + 1) == 0
  {
    hide Pow2;
    if (shift + 1) % 32 == 0 {
      assert q[shift / 32] == 0;
      DivModUnique(0, Pow2(shift % 32 + 1), 0, 0);
    }
  }

  lemma OrNewBit(x: u32, r: nat)
    requires r < 32 && x % Pow2(r + 1) == 0
    ensures Or(x, Pow2(r)) == x + Pow2(r) < B && (x + Pow2(r)) % Pow2(r) == 0
  {
    DoublePower(r);
    OrIsAdd(Pow2(r), x, r + 1);
    OrComm(x, Pow2(r));
    hide Pow2, Or;
    OddMultiple(x, Pow2(r));
    RoomForBit(x, r);
  }

  lemma OddMultiple(x: nat, p: nat)
    requires p > 0 && x % (2 * p) == 0
    ensures x % p == 0 && (x + p) % p == 0
  {
    var k: nat := x / (2 * p);
    DivModFacts(x, 2 * p);
    assert k * (2 * p) == (2 * k) * p;
    DivModUnique(x, p, 2 * k, 0);
    DivModUnique(x + p, p, 2 * k + 1, 0);
  }

  lemma RoomForBit(x: u32, r: nat)
    requires r < 32 && x % Pow2(r + 1) == 0
    ensures x + Pow2(r) < B
  {
    DoublePower(r);
    if r == 31 {
      LimbIs32Bits();
      assert x == 0;
    } else {
      OrFits(Pow2(r), x, r + 1);
    }
  }

  /** One round keeps dividend = rest + quotient * divisor. */
  lemma Round(n: nat, num: nat, q: nat, d: nat, p: nat)
    requires n == num + q * d && d * p <= num
    ensures n == (num - d * p) + (q + p) * d
  {
    MulDist(d, q, p);
  }

  lemma ClearZero(q: seq<u32>, n: nat)
    requires forall m | 0 <= m < |q| :: q[m] == 0
    ensures LowClear(q, n)
  {
    DivModUnique(0, Pow2(n % 32), 0, 0);
  }

  /** The loop body: compare, subtract, set the bit, shift the divisor back. */
  method DivideRound(num: array<u32>, div: array<u32>, a: array<u32>, shift: nat, ghost n0: nat, ghost d0: nat)
    requires num.Length == div.Length == a.Length && num != div && num != a && div != a
    requires shift / 32 < a.Length && LowClear(a[..], shift + 1)
    requires Val(div[..]) == d0 * Pow2(shift) && Val(num[..]) < d0 * Pow2(shift + 1)
    requires n0 == Val(num[..]) + Val(a[..]) * d0
    modifies num, div, a
    ensures LowClear(a[..], shift)
    ensures shift > 0 ==> Val(div[..]) == d0 * Pow2(shift - 1)
    ensures Val(num[..]) < d0 * Pow2(shift)
    ensures n0 == Val(num[..]) + Val(a[..]) * d0
  {
    hide Val, Pow, Pow2, BPow, LowClear;
    ghost var x: nat, q: nat, d: nat := Val(num[..]), Val(a[..]), Val(div[..]);
    Doubled(d0, shift);
    var c := CompareTo(num, div);
    if c >= 0 {
      Round(n0, x, q, d0, Pow2(shift));
      ValBound(num[..]);
      SmallDifference(x, d, BPow(num.Length));
      Subtract(num, div);
      SetBit(a, shift);
    } else {
      StillClear(a[..], shift);
    }
    if shift > 0 {
      Doubled(d0, shift - 1);
      SmallPowers();
    }
    ShiftRight(div, 1);
  }

  lemma Doubled(d: nat, shift: nat)
    ensures d * Pow2(shift + 1) == 2 * (d * Pow2(shift))
  {
    DoublePower(shift);
    hide Pow2;
    MulAssoc(d, 2, Pow2(shift));
    MulAssoc(2, d, Pow2(shift));
  }

  lemma SmallDifference(x: nat, y: nat, m: nat)
    requires y <= x < m
    ensures (x - y) % m == x - y
  {
    ModEqual(x - y, x - y, m, 0);
  }

  /** operator/= : the quotient rounded down; `ok` is false for a zero divisor,
      where the source throws after it has cleared the target. */
  method Divide(a: array<u32>, b: array<u32>) returns (ok: bool)
    requires a.Length == b.Length
    modifies a
    ensures ok <==> old(Val(b[..])) != 0
    ensures ok ==> Val(a[..]) == old(Val(a[..])) / old(Val(b[..]))
    ensures !ok ==> Val(a[..]) == 0
  {
    hide Val, Pow, Pow2, BPow, LowClear;
    var width := a.Length;
    ghost var n0, d0 := Val(a[..]), Val(b[..]);
    var div := new u32[width](i requires 0 <= i < width reads b => b[i]);
    var num := new u32[width](i requires 0 <= i < width reads a => a[i]);
    ghost var top, bottom := num[..], div[..];
    assert bottom == b[..] && top == a[..];
    forall i | 0 <= i < width {
      a[i] := 0;
    }
    ValZero(a[..]);
    assert num[..] == top && div[..] == bottom;
    var numBits := Bits(num);
    var divBits := Bits(div);
    if divBits == 0 {
      SmallPowers();
      return false;
    }
    if divBits > numBits {
      MorePowers(numBits, divBits - 1);
      DivModUnique(n0, d0, 0, n0);
      return true;
    }
    ok := true;
    var shift := numBits - divBits;
    Aligned(n0, d0, numBits, divBits);
    BitsFit(numBits, width);
    ShiftLeft(div, shift);
    ModEqual(d0 * Pow2(shift), d0 * Pow2(shift), BPow(width), 0);
    ClearZero(a[..], shift + 1);
    while shift >= 0
      invariant -1 <= shift <= numBits - divBits
      invariant shift >= 0 ==> Val(div[..]) == d0 * Pow2(shift)
      invariant n0 == Val(num[..]) + Val(a[..]) * d0
      invariant Val(num[..]) < d0 * Pow2(shift + 1)
      invariant LowClear(a[..], shift + 1)
    {
      DivideRound(num, div, a, shift, n0, d0);
      shift := shift - 1;
    }
    SmallPowers();
    DivModUnique(n0, d0, Val(a[..]), Val(num[..]));
  }

  lemma MorePowers(m: nat, n: nat)
    requires m <= n
    ensures Pow2(m) <= Pow2(n)
  {
    PowMono(2, m, n);
  }

  /** After aligning the top bits the divisor fits and one more doubling exceeds
      the dividend. */
  lemma Aligned(n: nat, d: nat, nb: nat, db: nat)
    requires 0 < db <= nb && n < Pow2(nb) && Pow2(db - 1) <= d < Pow2(db)
    ensures n < d * Pow2(nb - db + 1) && d * Pow2(nb - db) < Pow2(nb)
  {
    PowAdd(2, db - 1, nb - db + 1);
    PowAdd(2, db, nb - db);
    MulMono(Pow2(db - 1), d, Pow2(nb - db + 1));
    MulStrict(d, Pow2(db), Pow2(nb - db));
  }

  lemma StillClear(q: seq<u32>, n: nat)
    requires LowClear(q, n + 1)
    ensures LowClear(q, n)
  {
    if n % 32 != 0 && n / 32 < |q| {
      ClearLimb(q, n);
      hide Pow2;
      DoublePower(n % 32);
      OddMultiple(q[n / 32], Pow2(n % 32));
    }
  }
}
