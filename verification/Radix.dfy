/** Big-endian digit strings in any base, and the in-place multiply-and-add that
    both directions of base58 conversion are made of. */
module Radix {
  import opened NatArith

  predicate DigitsOk(base: nat, s: seq<nat>) {
    forall i | 0 <= i < |s| :: s[i] < base
  }

  /** The number a digit string denotes. */
  function Val(base: nat, s: seq<nat>): nat {
    if s == [] then 0 else Val(base, s[..|s| - 1]) * base + s[|s| - 1]
  }

  /** The digits of a number without leading zeroes; none for zero. */
  function Digits(base: nat, v: nat): (s: seq<nat>)
    requires base > 1
    decreases v
  {
    if v == 0 then [] else
      DivSmaller(v, base);
      Digits(base, v / base) + [v % base]
  }

  lemma DivSmaller(v: nat, base: nat)
    requires base > 1 && v > 0
    ensures v / base < v
  {
    DivModFacts(v, base);
    var q: nat := v / base;
    if q > 0 {
      MulStrict(1, base, q);
    }
  }

  lemma {:induction false} DigitsFacts(base: nat, v: nat)
    requires base > 1
    ensures DigitsOk(base, Digits(base, v)) && Val(base, Digits(base, v)) == v
    ensures v > 0 ==> Digits(base, v) != [] && Digits(base, v)[0] != 0
    decreases v
  {
    if v > 0 {
      DivSmaller(v, base);
      DivModFacts(v, base);
      var s := Digits(base, v / base);
      DigitsFacts(base, v / base);
      assert (s + [v % base])[..|s|] == s;
      if v / base == 0 {
        assert Digits(base, 0) == [];
      }
    }
  }

  lemma {:induction false} ValBound(base: nat, s: seq<nat>)
    requires DigitsOk(base, s)
    ensures Val(base, s) < Pow(base, |s|)
  {
    if s != [] {
      var n := |s| - 1;
      ValBound(base, s[..n]);
      MulGap(Val(base, s[..n]), Pow(base, n), base);
    }
  }

  lemma {:induction false} ValCons(base: nat, d: nat, t: seq<nat>)
    ensures Val(base, [d] + t) == d * Pow(base, |t|) + Val(base, t)
  {
    if t == [] {
      assert [d] + t == [d] && [d][..0] == [];
    } else {
      var n := |t| - 1;
      ValCons(base, d, t[..n]);
      assert ([d] + t)[..n + 1] == [d] + t[..n];
      assert Val(base, [d] + t) == Val(base, [d] + t[..n]) * base + t[n];
      assert Val(base, t) == Val(base, t[..n]) * base + t[n] && Pow(base, n + 1) == base * Pow(base, n);
      hide Val, Pow;
      ShiftDigits(d, Pow(base, n), Val(base, t[..n]), base);
    }
  }

  lemma ShiftDigits(d: nat, p: nat, v: nat, base: nat)
    ensures (d * p + v) * base == d * (base * p) + v * base
  {
    MulDist(base, d * p, v);
    MulAssoc(d, p, base);
  }

  lemma {:induction false} ValZeroes(base: nat, z: seq<nat>, t: seq<nat>)
    requires forall i | 0 <= i < |z| :: z[i] == 0
    ensures Val(base, z + t) == Val(base, t)
  {
    if z == [] {
      assert z + t == t;
    } else {
      assert z + t == [0] + (z[1..] + t);
      ValCons(base, 0, z[1..] + t);
      ValZeroes(base, z[1..], t);
    }
  }

  /** A digit string without a leading zero is the digit string of its value. */
  lemma {:induction false} DigitsUnique(base: nat, s: seq<nat>)
    requires base > 1 && DigitsOk(base, s) && (s != [] ==> s[0] != 0)
    ensures Digits(base, Val(base, s)) == s
  {
    if s != [] {
      var n := |s| - 1;
      var v := Val(base, s[..n]);
      DivModUnique(Val(base, s), base, v, s[n]);
      DigitsUnique(base, s[..n]);
      assert s == s[..n] + [s[n]];
      NonZero(base, s);
    }
  }

  lemma {:induction false} NonZero(base: nat, s: seq<nat>)
    requires base > 0 && s != [] && s[0] != 0
    ensures Val(base, s) > 0
  {
    ValCons(base, s[0], s[1..]);
    assert s == [s[0]] + s[1..];
    PowPos(base, |s| - 1);
    MulStrict(0, s[0], Pow(base, |s| - 1));
  }

  /** A number of exactly this many digits has a non-zero first digit. */
  lemma LeadingDigit(base: nat, s: seq<nat>)
    requires base > 1 && DigitsOk(base, s) && s != [] && Val(base, s) >= Pow(base, |s| - 1)
    ensures s[0] != 0
  {
    assert s == [s[0]] + s[1..];
    ValCons(base, s[0], s[1..]);
    ValBound(base, s[1..]);
  }

  /** The last `length` places of the buffer spell the value, the rest is zero. */
  predicate Spells(base: nat, buf: seq<nat>, length: nat, v: nat)
    requires base > 1
  {
    && length <= |buf|
    && (forall i | 0 <= i < |buf| - length :: buf[i] == 0)
    && buf[|buf| - length..] == Digits(base, v)
  }

  lemma SpellsFacts(base: nat, buf: seq<nat>, length: nat, v: nat)
    requires base > 1 && Spells(base, buf, length, v)
    ensures DigitsOk(base, buf) && Val(base, buf) == v
    ensures length > 0 ==> v >= Pow(base, length - 1)
  {
    DigitsFacts(base, v);
    var k := |buf| - length;
    assert buf == buf[..k] + buf[k..];
    ValZeroes(base, buf[..k], buf[k..]);
    forall i | 0 <= i < |buf|
      ensures buf[i] < base
    {
      if i >= k {
        assert buf[i] == buf[k..][i - k];
      }
    }
    if length > 0 {
      var s := buf[k..];
      assert s == [s[0]] + s[1..];
      ValCons(base, s[0], s[1..]);
      MulMono(1, s[0], Pow(base, length - 1));
    }
  }

  lemma SpellsIntro(base: nat, buf: seq<nat>, length: nat, v: nat)
    requires base > 1 && length <= |buf| && DigitsOk(base, buf)
    requires forall i | 0 <= i < |buf| - length :: buf[i] == 0
    requires Val(base, buf) == v && (length > 0 ==> v >= Pow(base, length - 1))
    ensures Spells(base, buf, length, v)
  {
    var k := |buf| - length;
    var s := buf[k..];
    assert buf == buf[..k] + s;
    ValZeroes(base, buf[..k], s);
    if length > 0 {
      LeadingDigit(base, s);
    }
    DigitsUnique(base, s);
  }

  lemma CarryDigit(base: nat, from: nat, carry: nat, d: nat, low: nat, below: nat, p: nat, ch: nat)
    requires base > 0 && carry * p + low == below * from + ch
    ensures var c := carry + from * d;
            (c / base) * (base * p) + ((c % base) * p + low) == (d * p + below) * from + ch
  {
    var c := carry + from * d;
    DivModFacts(c, base);
    var q, r := c / base, c % base;
    assert (q * base + r) * p == (q * base) * p + r * p by {
      MulDist(p, q * base, r);
    }
    MulAssoc(q, base, p);
    MulDist(p, carry, from * d);
    assert (from * d) * p == (d * p) * from by {
      MulAssoc(from, d, p);
    }
    MulDist(from, d * p, below);
  }

  /** The state of the inner loop after `i` places: what is done below, what is
      untouched above, and the carry between the two. */
  ghost predicate Carrying(base: nat, from: nat, ch: nat, length: nat, b0: seq<nat>, b: seq<nat>, i: nat, carry: nat) {
    && |b| == |b0| && i <= |b| && DigitsOk(base, b)
    && b[..|b| - i] == b0[..|b| - i]
    && carry * Pow(base, i) + Val(base, b[|b| - i..]) == Val(base, b0[|b| - i..]) * from + ch
    && (i > length ==> Val(base, b0[|b| - i..]) * from + ch >= Pow(base, i - 1))
  }

  lemma CarryingStep(base: nat, from: nat, ch: nat, length: nat, b0: seq<nat>, b: seq<nat>, i: nat, carry: nat)
    requires base > 0 && Carrying(base, from, ch, length, b0, b, i, carry) && i < |b|
    requires forall k | 0 <= k < |b0| - length :: b0[k] == 0
    requires carry != 0 || i < length
    ensures var j := |b| - 1 - i;
            var c := carry + from * b[j];
            c >= 0 && c % base >= 0 && c / base >= 0 &&
            Carrying(base, from, ch, length, b0, b[j := c % base], i + 1, c / base)
  {
    var j := |b| - 1 - i;
    assert b[j] == b0[j] by {
      assert b[..|b| - i][j] == b0[..|b| - i][j];
    }
    var c := carry + from * b[j];
    DivModFacts(c, base);
    var b' := b[j := c % base];
    Prepend(base, b0, j);
    Prepend(base, b', j);
    PowStep(base, i);
    assert b'[j + 1..] == b[j + 1..];
    assert b'[..j] == b0[..j] by {
      assert b[..|b| - i][..j] == b[..j] && b0[..|b| - i][..j] == b0[..j];
    }
    hide Val, Pow, DigitsOk;
    CarryDigit(base, from, carry, b0[j], Val(base, b[j + 1..]), Val(base, b0[j + 1..]), Pow(base, i), ch);
    if i >= length {
      Reaches(carry, Pow(base, i));
      MulZeroLeft(Pow(base, i));
    }
    assert DigitsOk(base, b') by {
      OneDigit(base, b, j, c % base);
    }
  }

  lemma OneDigit(base: nat, b: seq<nat>, j: nat, d: nat)
    requires DigitsOk(base, b) && j < |b| && d < base
    ensures DigitsOk(base, b[j := d])
  {
  }

  lemma CarryingDone(base: nat, from: nat, ch: nat, length: nat, b0: seq<nat>, b: seq<nat>, i: nat, carry: nat,
                     v: nat, total: nat)
    requires base > 1 && from > 0 && Spells(base, b0, length, v)
    requires Carrying(base, from, ch, length, b0, b, i, carry)
    requires |b| == |b0| && i <= |b| && (i < |b| ==> carry == 0 && i >= length)
    requires v * from + ch == total < Pow(base, |b|)
    ensures carry == 0 && length <= i && Spells(base, b, i, total)
  {
    hide *;
    SpellsShape(base, b0, length, v);
    SpellsFacts(base, b0, length, v);
    CarryingTotal(base, from, ch, length, b0, b, i, carry, v);
    NoCarryLeft(carry, Pow(base, i), Val(base, b), total, i == |b|);
    if i == length && i > 0 {
      Reaches(from, v);
    }
    SpellsIntro(base, b, i, total);
  }

  lemma CarryingTotal(base: nat, from: nat, ch: nat, length: nat, b0: seq<nat>, b: seq<nat>, i: nat, carry: nat, v: nat)
    requires Carrying(base, from, ch, length, b0, b, i, carry) && Val(base, b0) == v
    requires length <= i && forall k | 0 <= k < |b0| - length :: b0[k] == 0
    ensures |b| == |b0| && DigitsOk(base, b) && i <= |b| && forall k | 0 <= k < |b| - i :: b[k] == 0
    ensures carry * Pow(base, i) + Val(base, b) == v * from + ch
    ensures i > length ==> v * from + ch >= Pow(base, i - 1)
  {
    SameAbove(base, b0, b, |b| - i);
  }

  /** A common zero prefix counts for nothing. */
  lemma SameAbove(base: nat, b0: seq<nat>, b: seq<nat>, j: nat)
    requires |b| == |b0| && j <= |b| && b[..j] == b0[..j] && forall k | 0 <= k < j :: b0[k] == 0
    ensures Val(base, b) == Val(base, b[j..]) && Val(base, b0) == Val(base, b0[j..])
    ensures forall k | 0 <= k < j :: b[k] == 0
  {
    assert b == b[..j] + b[j..] && b0 == b0[..j] + b0[j..];
    forall k | 0 <= k < j
      ensures b[k] == 0
    {
      assert b[..j][k] == b0[..j][k];
    }
    ValZeroes(base, b0[..j], b0[j..]);
    ValZeroes(base, b[..j], b[j..]);
  }

  /** buf = buf * from + ch in base `base`, over the last `length` places and as
      far as a carry reaches; the carry is used up when the result fits. */
  method MulAdd(buf: array<nat>, base: nat, length: nat, from: nat, ch: nat, ghost v: nat) returns (length': nat)
    requires base > 1 && from > 0 && Spells(base, buf[..], length, v)
    requires v * from + ch < Pow(base, buf.Length)
    modifies buf
    ensures Spells(base, buf[..], length', v * from + ch)
    ensures length <= length'
  {
    hide Val, Pow, Spells, Digits, DigitsOk, Carrying;
    ghost var b0 := buf[..];
    ghost var total: nat := v * from + ch;
    SpellsFacts(base, b0, length, v);
    SpellsShape(base, b0, length, v);
    CarryingStart(base, from, ch, length, b0);
    var carry: nat, i := ch, 0;
    while (carry != 0 || i < length) && i < buf.Length
      invariant 0 <= i <= buf.Length
      invariant Carrying(base, from, ch, length, b0, buf[..], i, carry)
      decreases buf.Length - i
    {
      ghost var before := buf[..];
      CarryingStep(base, from, ch, length, b0, before, i, carry);
      var j := buf.Length - 1 - i;
      var c: nat := carry + from * buf[j];
      buf[j] := c % base;
      carry := c / base;
      assert buf[..] == before[j := buf[j]];
      i := i + 1;
    }
    CarryingDone(base, from, ch, length, b0, buf[..], i, carry, v, total);
    assert carry == 0;
    length' := i;
  }

  lemma CarryingStart(base: nat, from: nat, ch: nat, length: nat, b0: seq<nat>)
    requires DigitsOk(base, b0)
    ensures Carrying(base, from, ch, length, b0, b0, 0, ch)
  {
    SuffixEmpty(base, b0);
  }

  lemma SpellsShape(base: nat, buf: seq<nat>, length: nat, v: nat)
    requires base > 1 && Spells(base, buf, length, v)
    ensures length <= |buf| && forall i | 0 <= i < |buf| - length :: buf[i] == 0
  {
  }

  lemma SuffixEmpty(base: nat, s: seq<nat>)
    ensures Val(base, s[|s|..]) == 0 && Pow(base, 0) == 1
  {
  }

  lemma PowStep(base: nat, i: nat)
    ensures Pow(base, i + 1) == base * Pow(base, i)
  {
  }

  lemma Prepend(base: nat, s: seq<nat>, j: nat)
    requires j < |s|
    ensures Val(base, s[j..]) == s[j] * Pow(base, |s| - 1 - j) + Val(base, s[j + 1..])
  {
    assert s[j..] == [s[j]] + s[j + 1..];
    ValCons(base, s[j], s[j + 1..]);
  }

  lemma Reaches(carry: nat, p: nat)
    requires carry > 0
    ensures carry * p >= p
  {
    MulMono(1, carry, p);
  }

  lemma MulZeroLeft(p: nat)
    ensures 0 * p == 0
  {
  }

  lemma NoCarryLeft(carry: nat, p: nat, low: nat, total: nat, full: bool)
    requires carry * p + low == total && (full ==> total < p) && (!full ==> carry == 0)
    ensures carry == 0 && low == total
  {
    if carry > 0 {
      Reaches(carry, p);
    }
  }
}
