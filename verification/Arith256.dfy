/** `base_uint`: the in-place operators over the limb array.  An operand `b` may
    be the very array that is being updated, as in `x += x`. */
module BigUint {
  import opened NatArith
  import opened Limbs

  /** operator+= : the carry never leaves 64 bits. */
  method Add(a: array<u32>, b: array<u32>)
    requires a.Length == b.Length
    modifies a
    ensures Val(a[..]) == (old(Val(a[..])) + old(Val(b[..]))) % BPow(a.Length)
  {
    hide Val, Pow, BPow;
    ghost var a0, b0 := a[..], b[..];
    var carry: nat, i := 0, 0;
    ValEmpty(a0);
    ValEmpty(b0);
    ValEmpty(a[..]);
    while i < a.Length
      invariant 0 <= i <= a.Length && carry <= 1
      invariant a[i..] == a0[i..] && b[i..] == b0[i..]
      invariant Val(a[..][..i]) + carry * BPow(i) == Val(a0[..i]) + Val(b0[..i])
    {
      assert a[i..][0] == a[i] && b[i..][0] == b[i];
      ghost var before := a[..];
      var n := carry + a[i] + b[i];
      assert n < 0x1_0000_0000_0000_0000;
      CarryStep(Val(before[..i]), carry, n - carry, BPow(i), n % B, n / B, Val(a0[..i]) + Val(b0[..i]));
      MulDist(BPow(i), a0[i], b0[i]);
      a[i] := n % B;
      carry := n / B;
      Advance(before, a[..], i);
      Advance(a0, a0, i);
      Advance(b0, b0, i);
      assert a[i + 1..] == before[i + 1..] == a0[i..][1..];
      assert b[i + 1..] == b0[i + 1..];
      BPowStep(i);
      i := i + 1;
    }
    ValEmpty(a[..]);
    ValBound(a[..]);
    ModEqual(Val(a0) + Val(b0), Val(a[..]), BPow(i), carry);
  }

  lemma Advance(s: seq<u32>, t: seq<u32>, i: nat)
    requires i < |s| == |t| && s[..i] == t[..i]
    ensures Val(t[..i + 1]) == Val(s[..i]) + t[i] * BPow(i)
  {
    ValPrefix(t, i);
  }

  /** operator~ */
  method Complement(b: array<u32>) returns (r: array<u32>)
    ensures fresh(r) && r.Length == b.Length
    ensures Val(r[..]) == BPow(b.Length) - 1 - Val(b[..])
  {
    hide Val, Pow, BPow;
    r := new u32[b.Length](_ => 0);
    var i := 0;
    BPowStep(0);
    ValEmpty(b[..]);
    ValEmpty(r[..]);
    while i < b.Length
      invariant 0 <= i <= b.Length
      invariant Val(r[..][..i]) + Val(b[..][..i]) == BPow(i) - 1
    {
      ghost var before := r[..];
      r[i] := B - 1 - b[i];
      Advance(before, r[..], i);
      Advance(b[..], b[..], i);
      BPowStep(i);
      MulDist(BPow(i), B - 1 - b[i], b[i]);
      i := i + 1;
    }
    ValEmpty(b[..]);
    ValEmpty(r[..]);
  }

  /** operator++ : the pending carry sits at limb `i`. */
  method Increment(a: array<u32>)
    modifies a
    ensures Val(a[..]) == (old(Val(a[..])) + 1) % BPow(a.Length)
  {
    hide Val, Pow, BPow;
    ghost var a0 := a[..];
    var i := 0;
    BPowStep(0);
    while i < a.Length
      invariant 0 <= i <= a.Length
      invariant Val(a[..]) + BPow(i) == Val(a0) + 1
    {
      ghost var before := a[..];
      a[i] := (a[i] + 1) % B;
      ValSet(before, i, a[i]);
      assert a[..] == before[i := a[i]];
      BPowStep(i);
      if a[i] != 0 {
        MulDist(BPow(i), before[i], 1);
        ValBound(a[..]);
        ModEqual(Val(a0) + 1, Val(a[..]), BPow(a.Length), 0);
        return;
      }
      i := i + 1;
    }
    ValBound(a[..]);
    ModEqual(Val(a0) + 1, Val(a[..]), BPow(i), 1);
  }

  /** operator-- */
  method Decrement(a: array<u32>)
    modifies a
    ensures Val(a[..]) == (old(Val(a[..])) - 1) % BPow(a.Length)
  {
    hide Val, Pow, BPow;
    ghost var a0 := a[..];
    var i := 0;
    BPowStep(0);
    while i < a.Length
      invariant 0 <= i <= a.Length
      invariant Val(a[..]) - BPow(i) == Val(a0) - 1
    {
      ghost var before := a[..];
      a[i] := (a[i] - 1) % B;
      ValSet(before, i, a[i]);
      assert a[..] == before[i := a[i]];
      BPowStep(i);
      if a[i] != B - 1 {
        MulDist(BPow(i), a[i], 1);
        ValBound(a[..]);
        ModEqual(Val(a0) - 1, Val(a[..]), BPow(a.Length), 0);
        return;
      }
      i := i + 1;
    }
    ValBound(a[..]);
    ModNegative(Val(a0) - 1, Val(a[..]), BPow(i));
  }

  /** A difference that is short of zero wraps around once. */
  lemma ModNegative(d: int, x: nat, m: nat)
    requires m > 0 && d < 0 && x == d + m
    ensures x == d % m
  {
    assert x < m;
  }

  /** operator- */
  method Negate(b: array<u32>) returns (r: array<u32>)
    ensures fresh(r) && r.Length == b.Length
    ensures Val(r[..]) == if Val(b[..]) == 0 then 0 else BPow(b.Length) - Val(b[..])
  {
    hide Val, Pow, BPow;
    r := Complement(b);
    Increment(r);
    ValBound(b[..]);
    var m := BPow(b.Length);
    if Val(b[..]) == 0 {
      ModEqual(m, 0, m, 1);
    } else {
      ModEqual(m - Val(b[..]), m - Val(b[..]), m, 0);
    }
  }

  /** operator-= */
  method Subtract(a: array<u32>, b: array<u32>)
    requires a.Length == b.Length
    modifies a
    ensures Val(a[..]) == (old(Val(a[..])) - old(Val(b[..]))) % BPow(a.Length)
  {
    hide Val, Pow, BPow;
    ghost var x: int, y: int, m: int := Val(a[..]), Val(b[..]), BPow(a.Length);
    ValBound(a[..]);
    ValBound(b[..]);
    var neg := Negate(b);
    Add(a, neg);
    if y != 0 && x >= y {
      ModEqual(x + (m - y), x - y, m, 1);
      ModEqual(x - y, x - y, m, 0);
    } else if y != 0 {
      ModEqual(x + (m - y), x + (m - y), m, 0);
      ModNegative(x - y, x + (m - y), m);
    }
  }

  /** operator*= by a 32-bit number */
  method MulSmall(a: array<u32>, b: u32)
    modifies a
    ensures Val(a[..]) == (old(Val(a[..])) * b) % BPow(a.Length)
  {
    hide Val, Pow, BPow;
    ghost var a0 := a[..];
    var carry: nat, i := 0, 0;
    ValEmpty(a0);
    ValEmpty(a[..]);
    while i < a.Length
      invariant 0 <= i <= a.Length && carry < B
      invariant a[i..] == a0[i..]
      invariant Val(a[..][..i]) + carry * BPow(i) == Val(a0[..i]) * b
    {
      assert a[i..][0] == a[i];
      ghost var before := a[..];
      var n := carry + b * a[i];
      Product64(b, a[i], n);
      CarryStep(Val(before[..i]), carry, b * a0[i], BPow(i), n % B, n / B, Val(a0[..i]) * b);
      ScalePrefix(b, a0, i);
      a[i] := n % B;
      carry := n / B;
      Advance(before, a[..], i);
      assert a[i + 1..] == before[i + 1..] == a0[i..][1..];
      BPowStep(i);
      i := i + 1;
    }
    ValEmpty(a[..]);
    ValBound(a[..]);
    ModEqual(Val(a0) * b, Val(a[..]), BPow(i), carry);
  }

  lemma ScalePrefix(b: nat, s: seq<u32>, i: nat)
    requires i < |s|
    ensures Val(s[..i]) * b + (b * s[i]) * BPow(i) == Val(s[..i + 1]) * b
  {
    ValPrefix(s, i);
    MulDist(b, Val(s[..i]), s[i] * BPow(i));
    MulAssoc(b, s[i], BPow(i));
  }

  /** Two limbs and a product of limbs fit 64 bits, and the carry fits a limb. */
  lemma Product64(x: u32, y: u32, n: int)
    requires x * y <= n < x * y + 2 * B - 1
    ensures 0 <= n < 0x1_0000_0000_0000_0000 && 0 <= n / B < B
  {
    ProductBound(x, y);
    Fits64(x * y, n);
  }

  lemma ProductBound(x: u32, y: u32)
    ensures 0 <= x * y <= 0xffff_fffe_0000_0001
  {
    MulMono(x, 0xffff_ffff, y);
  }

  lemma Fits64(p: nat, n: int)
    requires p <= 0xffff_fffe_0000_0001 && p <= n < p + 2 * B - 1
    ensures 0 <= n < 0x1_0000_0000_0000_0000 && 0 <= n / B < B
  {
  }

  /** operator*= : schoolbook multiplication, dropping what leaves the top. */
  method Multiply(a: array<u32>, b: array<u32>)
    requires a.Length == b.Length
    modifies a
    ensures Val(a[..]) == (old(Val(a[..])) * old(Val(b[..]))) % BPow(a.Length)
  {
    hide Val, Pow, BPow;
    ghost var x, y := a[..], b[..];
    var width := a.Length;
    var r := new u32[width](_ => 0);
    ValZero(r[..]);
    ValEmpty(x);
    ghost var dropped: nat := 0;
    var j := 0;
    while j < width
      invariant 0 <= j <= width && a[..] == x && b[..] == y
      invariant Val(r[..]) + dropped * BPow(width) == Val(x[..j]) * Val(y)
    {
      ghost var lost := AddRow(r, a[j], b, j);
      Advance(x, x, j);
      MulDist(Val(y), Val(x[..j]), x[j] * BPow(j));
      MulDist(BPow(width), dropped, lost);
      dropped := dropped + lost;
      j := j + 1;
    }
    ValEmpty(x);
    ValBound(r[..]);
    ModEqual(Val(x) * Val(y), Val(r[..]), BPow(width), dropped);
    ghost var product := r[..];
    forall i | 0 <= i < width {
      a[i] := r[i];
    }
    assert a[..] == product;
  }

  /** The inner loop: add `x` times `b`, moved up by `j` limbs. */
  method AddRow(r: array<u32>, x: u32, b: array<u32>, j: nat) returns (ghost lost: nat)
    requires j < r.Length == b.Length && r != b
    modifies r
    ensures Val(r[..]) + lost * BPow(r.Length) == old(Val(r[..])) + (x * BPow(j)) * Val(b[..])
  {
    hide Val, Pow, BPow;
    ghost var r0, y, width := Val(r[..]), b[..], r.Length;
    var carry: nat, i := 0, 0;
    ValEmpty(y);
    while i + j < r.Length
      invariant 0 <= i && i + j <= r.Length && carry < B && b[..] == y
      invariant Val(r[..]) + carry * BPow(i + j) == r0 + (x * BPow(j)) * Val(y[..i])
    {
      ghost var before := r[..];
      var n := carry + r[i + j] + x * b[i];
      Product64(x, b[i], n);
      r[i + j] := n % B;
      carry := n / B;
      assert r[..] == before[i + j := r[i + j]];
      ValSet(before, i + j, r[i + j]);
      Advance(y, y, i);
      BPowAdd(i, j);
      BPowStep(i + j);
      RowStep(n - before[i + j] - x * y[i], before[i + j], x, y[i], BPow(i + j), n % B, n / B);
      MulDist(x * BPow(j), Val(y[..i]), y[i] * BPow(i));
      Regroup(x, y[i], BPow(i), BPow(j));
      i := i + 1;
    }
    ValSplit(y, i);
    BPowAdd(j, i);
    ghost var high := Val(y[i..]);
    MulDist(x * BPow(j), Val(y[..i]), BPow(i) * high);
    DropHigh(x, BPow(j), BPow(i), high, BPow(width));
    lost := carry + x * high;
    MulDist(BPow(width), carry, x * high);
  }

  lemma RowStep(carry: nat, was: nat, x: nat, y: nat, p: nat, digit: nat, carry': nat)
    requires carry + was + x * y == digit + carry' * B
    ensures digit * p - was * p + carry' * (B * p) == carry * p + (x * y) * p
  {
    assert carry' * (B * p) == (carry' * B) * p;
    assert (carry + was + x * y) * p == carry * p + was * p + (x * y) * p;
    assert (digit + carry' * B) * p == digit * p + (carry' * B) * p;
  }

  lemma Regroup(x: nat, y: nat, p: nat, q: nat)
    ensures (x * q) * (y * p) == (x * y) * (p * q)
  {
    MulAssoc(x, q, y * p);
    MulAssoc(x, y, p * q);
    assert q * (y * p) == y * (p * q);
  }

  lemma DropHigh(x: nat, q: nat, p: nat, high: nat, m: nat)
    requires q * p == m
    ensures (x * q) * (p * high) == (x * high) * m
  {
    Regroup(x, high, p, q);
    assert p * high == high * p;
  }

  /** CompareTo agrees with the order of the numbers. */
  method CompareTo(a: array<u32>, b: array<u32>) returns (c: int)
    requires a.Length == b.Length
    ensures c == if Val(a[..]) < Val(b[..]) then -1 else if Val(a[..]) > Val(b[..]) then 1 else 0
    ensures c == 0 <==> a[..] == b[..]
  {
    var i := a.Length;
    while i > 0
      invariant 0 <= i <= a.Length && a[i..] == b[i..]
    {
      i := i - 1;
      assert a[..][i + 1..] == a[i + 1..] && b[..][i + 1..] == b[i + 1..];
      if a[i] < b[i] {
        ValLess(a[..], b[..], i);
        return -1;
      }
      if a[i] > b[i] {
        ValLess(b[..], a[..], i);
        return 1;
      }
      assert a[i..] == [a[i]] + a[i + 1..] && b[i..] == [b[i]] + b[i + 1..];
    }
    assert a[..] == a[0..] && b[..] == b[0..];
    return 0;
  }
}
