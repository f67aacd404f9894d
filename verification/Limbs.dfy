/** The number a little-endian sequence of 32-bit limbs stands for.
    Everything is stated for any width; arith_uint256 has eight limbs. */
module Limbs {
  import opened NatArith

  const B := 0x1_0000_0000
  type u32 = x: int | 0 <= x < B

  function Val(s: seq<u32>): nat {
    if s == [] then 0 else s[0] + B * Val(s[1..])
  }

  /** B to the n, the modulus of n limbs. */
  function BPow(n: nat): (r: nat)
    ensures r > 0
  {
    PowPos(B, n);
    Pow(B, n)
  }

  lemma BPowStep(i: nat)
    ensures BPow(0) == 1 && BPow(i + 1) == B * BPow(i)
  {
  }

  lemma BPowAdd(i: nat, j: nat)
    ensures BPow(i + j) == BPow(i) * BPow(j)
  {
    PowAdd(B, i, j);
  }

  lemma LimbIs32Bits()
    ensures Pow2(32) == B
  {
    assert Pow(2, 4) == 16;
    PowPow(2, 4, 8);
    assert Pow(16, 8) == 256 * 256 * 256 * 256 by {
      assert Pow(16, 2) == 256;
      assert Pow(256, 4) == 256 * 256 * 256 * 256;
      PowPow(16, 2, 4);
    }
  }

  /** A shift by `n` bits is a shift by whole limbs and a rest below 32. */
  lemma BitsAndLimbs(n: nat)
    ensures Pow2(n) == Pow2(n % 32) * BPow(n / 32)
  {
    LimbIs32Bits();
    PowPow(2, 32, n / 32);
    PowAdd(2, n % 32, 32 * (n / 32));
  }

  lemma {:induction false} ValSnoc(s: seq<u32>, x: u32)
    ensures Val(s + [x]) == Val(s) + x * BPow(|s|)
  {
    if s == [] {
      assert [x][1..] == [];
      assert s + [x] == [x];
    } else {
      assert (s + [x])[1..] == s[1..] + [x];
      ValSnoc(s[1..], x);
      MulDist(B, Val(s[1..]), x * BPow(|s| - 1));
      assert B * (x * BPow(|s| - 1)) == x * BPow(|s|);
    }
  }

  lemma ValPrefix(s: seq<u32>, i: nat)
    requires i < |s|
    ensures Val(s[..i + 1]) == Val(s[..i]) + s[i] * BPow(i)
  {
    assert s[..i + 1] == s[..i] + [s[i]];
    ValSnoc(s[..i], s[i]);
  }

  lemma ValEmpty(s: seq<u32>)
    ensures Val(s[..0]) == 0 && s[..|s|] == s
  {
    assert s[..0] == [];
  }

  lemma {:induction false} ValBound(s: seq<u32>)
    ensures Val(s) < BPow(|s|)
  {
    if s != [] {
      ValBound(s[1..]);
      MulMono(Val(s[1..]) + 1, BPow(|s| - 1), B);
    }
  }

  lemma {:induction false} ValSplit(s: seq<u32>, i: nat)
    requires i <= |s|
    ensures Val(s) == Val(s[..i]) + BPow(i) * Val(s[i..])
  {
    if i == 0 {
      assert s[..0] == [] && s[0..] == s;
    } else {
      ValSplit(s[1..], i - 1);
      assert s[1..][..i - 1] == s[..i][1..] && s[1..][i - 1..] == s[i..];
      MulDist(B, Val(s[..i][1..]), BPow(i - 1) * Val(s[i..]));
      MulAssoc(B, BPow(i - 1), Val(s[i..]));
    }
  }

  lemma ScaleStep(v: int, x: int, y: int, p: int)
    ensures B * (v + x * p - y * p) == B * v + x * (B * p) - y * (B * p)
  {
    assert x * (B * p) == B * (x * p) && y * (B * p) == B * (y * p);
  }

  /** Writing one limb moves the value by the difference at its place. */
  lemma {:induction false} ValSet(s: seq<u32>, i: nat, x: u32)
    requires i < |s|
    ensures Val(s[i := x]) == Val(s) + x * BPow(i) - s[i] * BPow(i)
  {
    if i == 0 {
      assert s[0 := x][1..] == s[1..];
    } else {
      ValSet(s[1..], i - 1, x);
      assert s[i := x][1..] == s[1..][i - 1 := x];
      ScaleStep(Val(s[1..]), x, s[i], BPow(i - 1));
    }
  }

  lemma {:induction false} ValZero(s: seq<u32>)
    ensures Val(s) == 0 <==> forall i | 0 <= i < |s| :: s[i] == 0
  {
    if s != [] {
      ValZero(s[1..]);
    }
  }

  lemma BelowNext(low: nat, u: nat, w: nat, p: nat)
    requires low < p && u < w
    ensures low + p * u < p * w
  {
    MulGap(u, w, p);
  }

  /** The most significant differing limb decides a comparison. */
  lemma ValLess(s: seq<u32>, t: seq<u32>, i: nat)
    requires i < |s| == |t| && s[i + 1..] == t[i + 1..] && s[i] < t[i]
    ensures Val(s) < Val(t)
  {
    ValSplit(s, i);
    ValSplit(t, i);
    ValBound(s[..i]);
    assert s[i..][1..] == s[i + 1..] && t[i..][1..] == t[i + 1..];
    BelowNext(Val(s[..i]), Val(s[i..]), Val(t[i..]), BPow(i));
  }

  /** One step of a carry chain, as an equation between prefixes. */
  lemma CarryStep(r: nat, carry: nat, x: nat, p: nat, digit: nat, carry': nat, sum: nat)
    requires r + carry * p == sum && carry + x == digit + carry' * B
    ensures (r + digit * p) + carry' * (B * p) == sum + x * p
  {
    assert carry' * (B * p) == (carry' * B) * p;
    assert (carry + x) * p == carry * p + x * p;
    assert (digit + carry' * B) * p == digit * p + (carry' * B) * p;
  }

  /** `x & (1 << n)` is not zero. */
  predicate Bit(x: nat, n: nat) {
    And(x, Pow2(n)) != 0
  }

  lemma {:induction false} BitIsDigit(x: nat, n: nat)
    ensures Bit(x, n) <==> (x / Pow2(n)) % 2 == 1
    decreases n
  {
    PowPos(2, n);
    if n == 0 {
      assert And(x / 2, 0) == 0;
    } else if x == 0 {
      DivModUnique(0, Pow2(n), 0, 0);
    } else {
      PowPos(2, n - 1);
      BitIsDigit(x / 2, n - 1);
      DivDiv(x, 2, Pow2(n - 1));
      assert Pow2(n) % 2 == 0 && Pow2(n) / 2 == Pow2(n - 1);
    }
  }

  /** Below 2^(n+1), bit n tells whether the number reaches 2^n. */
  lemma TopBit(x: nat, n: nat)
    requires x < Pow2(n + 1)
    ensures Bit(x, n) <==> x >= Pow2(n)
  {
    BitIsDigit(x, n);
    PowPos(2, n);
    if x < Pow2(n) {
      DivModUnique(x, Pow2(n), 0, x);
    } else {
      DivModUnique(x, Pow2(n), 1, x - Pow2(n));
    }
  }
}
