/** Up to three wrong symbols among 1023 are always detected.  The generator has
    the roots e^997, e^998 and e^999, so a state keeps the value at these three
    points of the polynomial read so far; three wrong coefficients cannot
    vanish at all of them. */
module Bech32Errors {
  import opened NatArith
  import opened Bech32Checksum
  import F = Gf1024

  // ---- Values of polynomials at powers of e ----

  /** A symbol as an element of the larger field. */
  function Wider(d: bv5): bv10 {
    d as bv10
  }

  lemma WiderLinear(v: bv5, w: bv5)
    ensures Wider(XorSymbol(v, w)) == F.Add(Wider(v), Wider(w)) && Wider(0) == 0
  {
  }

  lemma WiderNonZero(v: bv5)
    requires Wider(v) == 0
    ensures v == 0
  {
  }

  /** Horner's rule at e^r, starting from `a`. */
  function Value(r: nat, a: bv10, s: seq<bv5>): bv10
    decreases |s|
  {
    if s == [] then a else Value(r, F.Add(F.Pow(r, a), Wider(s[0])), s[1..])
  }

  lemma {:induction false} ValueLinear(r: nat, a: bv10, b: bv10, x: seq<bv5>, y: seq<bv5>)
    requires |x| == |y|
    ensures Value(r, F.Add(a, b), XorSeq(x, y)) == F.Add(Value(r, a, x), Value(r, b, y))
    decreases |x|
  {
    hide F.Add, F.Pow, Wider;
    if x != [] {
      F.PowLinear(r, a, b);
      WiderLinear(x[0], y[0]);
      F.Exchange(F.Pow(r, a), F.Pow(r, b), Wider(x[0]), Wider(y[0]));
      ValueLinear(r, F.Add(F.Pow(r, a), Wider(x[0])), F.Add(F.Pow(r, b), Wider(y[0])), x[1..], y[1..]);
      assert XorSeq(x, y)[1..] == XorSeq(x[1..], y[1..]);
    }
  }

  lemma {:induction false} ValueAppend(r: nat, a: bv10, x: seq<bv5>, y: seq<bv5>)
    ensures Value(r, a, x + y) == Value(r, Value(r, a, x), y)
    decreases |x|
  {
    hide F.Add, F.Pow, Wider;
    if x == [] {
      assert x + y == y;
    } else {
      assert (x + y)[0] == x[0] && (x + y)[1..] == x[1..] + y;
      ValueAppend(r, F.Add(F.Pow(r, a), Wider(x[0])), x[1..], y);
    }
  }

  lemma {:induction false} ValueZeroes(r: nat, a: bv10, n: nat)
    ensures Value(r, a, Zeroes(n)) == F.Pow(r * n, a)
    decreases n
  {
    hide F.Add, F.Pow, Wider;
    if n == 0 {
      assert r * n == 0;
      F.PowNothing(a);
    } else {
      WiderLinear(0, 0);
      F.AddSelf(F.Pow(r, a));
      assert Zeroes(n)[1..] == Zeroes(n - 1);
      ValueZeroes(r, F.Pow(r, a), n - 1);
      F.PowAdd(r * (n - 1), r, a);
      assert r * n == r * (n - 1) + r;
    }
  }

  /** The first symbol of a polynomial counts with the power of its place. */
  lemma ValueFirst(r: nat, v: bv5, s: seq<bv5>)
    ensures Value(r, 0, [v] + s) == F.Add(F.Pow(r * |s|, Wider(v)), Value(r, 0, s))
  {
    hide F.Add, F.Pow, Wider, XorSeq;
    assert ([v] + s)[0] == v && ([v] + s)[1..] == s;
    F.PowZero(r);
    F.AddSelf(Wider(v));
    ValueZeroes(r, Wider(v), |s|);
    ValueLinear(r, Wider(v), 0, Zeroes(|s|), s);
    ZeroesNeutral(s);
  }

  // ---- The roots of the generator ----

  /** The value of the state's polynomial at e^r. */
  function At(r: nat, c: bv32): bv10 {
    Value(r, 0, Groups(c))
  }

  lemma Linear0(a: bv32, b: bv32)
    ensures Group(Xor(a, b), 0) == XorSymbol(Group(a, 0), Group(b, 0))
  {
  }

  lemma Linear1(a: bv32, b: bv32)
    ensures Group(Xor(a, b), 1) == XorSymbol(Group(a, 1), Group(b, 1))
  {
  }

  lemma Linear2(a: bv32, b: bv32)
    ensures Group(Xor(a, b), 2) == XorSymbol(Group(a, 2), Group(b, 2))
  {
  }

  lemma Linear3(a: bv32, b: bv32)
    ensures Group(Xor(a, b), 3) == XorSymbol(Group(a, 3), Group(b, 3))
  {
  }

  lemma Linear4(a: bv32, b: bv32)
    ensures Group(Xor(a, b), 4) == XorSymbol(Group(a, 4), Group(b, 4))
  {
  }

  lemma Linear5(a: bv32, b: bv32)
    ensures Group(Xor(a, b), 5) == XorSymbol(Group(a, 5), Group(b, 5))
  {
  }

  lemma GroupLinear(a: bv32, b: bv32, i: nat)
    requires i < 6
    ensures Group(Xor(a, b), i) == XorSymbol(Group(a, i), Group(b, i))
  {
    hide Group, Xor, XorSymbol;
    match i
    case 0 => Linear0(a, b);
    case 1 => Linear1(a, b);
    case 2 => Linear2(a, b);
    case 3 => Linear3(a, b);
    case 4 => Linear4(a, b);
    case _ => Linear5(a, b);
  }

  lemma GroupsAt(c: bv32, i: nat)
    requires i < 6
    ensures Groups(c)[i] == Group(c, i)
  {
    hide Group;
  }

  lemma GroupsLinear(a: bv32, b: bv32)
    ensures Groups(Xor(a, b)) == XorSeq(Groups(a), Groups(b))
  {
    hide Group, Groups, Xor, XorSymbol;
    forall i | 0 <= i < 6 ensures Groups(Xor(a, b))[i] == XorSeq(Groups(a), Groups(b))[i] {
      GroupsAt(a, i);
      GroupsAt(b, i);
      GroupsAt(Xor(a, b), i);
      GroupLinear(a, b, i);
    }
  }

  lemma AtLinear(r: nat, a: bv32, b: bv32)
    ensures At(r, Xor(a, b)) == F.Add(At(r, a), At(r, b))
  {
    hide F.Add, Xor, Groups, XorSeq, Value;
    GroupsLinear(a, b);
    F.AddSelf(0);
    ValueLinear(r, 0, 0, Groups(a), Groups(b));
  }

  lemma AtZero(r: nat)
    ensures At(r, 0) == 0
  {
    hide F.Add, At, Xor;
    XorSelf(0);
    AtLinear(r, 0, 0);
    F.AddSelf(At(r, 0));
  }

  /** Horner's rule over the six groups, with a table for the power. */
  function Horner(t: F.Lin, c: bv32): bv10 {
    F.Add(F.Apply(t, F.Add(F.Apply(t, F.Add(F.Apply(t, F.Add(F.Apply(t, F.Add(F.Apply(t,
      Wider(Group(c, 0))),
      Wider(Group(c, 1)))),
      Wider(Group(c, 2)))),
      Wider(Group(c, 3)))),
      Wider(Group(c, 4)))),
      Wider(Group(c, 5)))
  }

  function Six(t: F.Lin, v: bv10): bv10 {
    F.Apply(t, F.Apply(t, F.Apply(t, F.Apply(t, F.Apply(t, F.Apply(t, v))))))
  }

  lemma HornerIs(r: nat, t: F.Lin, c: bv32)
    requires F.IsPow(r, t)
    ensures At(r, c) == Horner(t, c)
  {
    var s := Groups(c);
    hide F.Pow, F.Apply, F.Add, Wider, Group, Groups;
    GroupsAt(c, 0);
    GroupsAt(c, 1);
    GroupsAt(c, 2);
    GroupsAt(c, 3);
    GroupsAt(c, 4);
    GroupsAt(c, 5);
    F.PowZero(r);
    F.AddSelf(Wider(s[0]));
    assert s[1..][1..] == s[2..] && s[2..][1..] == s[3..] && s[3..][1..] == s[4..];
    assert s[4..][1..] == s[5..] && s[5..][1..] == [];
    var h0 := Wider(s[0]);
    assert Value(r, 0, s) == Value(r, h0, s[1..]);
    var h1 := F.Add(F.Apply(t, h0), Wider(s[1]));
    assert Value(r, h0, s[1..]) == Value(r, h1, s[2..]);
    var h2 := F.Add(F.Apply(t, h1), Wider(s[2]));
    assert Value(r, h1, s[2..]) == Value(r, h2, s[3..]);
    var h3 := F.Add(F.Apply(t, h2), Wider(s[3]));
    assert Value(r, h2, s[3..]) == Value(r, h3, s[4..]);
    var h4 := F.Add(F.Apply(t, h3), Wider(s[4]));
    assert Value(r, h3, s[4..]) == Value(r, h4, s[5..]);
    var h5 := F.Add(F.Apply(t, h4), Wider(s[5]));
    assert Value(r, h4, s[5..]) == Value(r, h5, []);
  }

  lemma SixIs(r: nat, t: F.Lin, v: bv10)
    requires F.IsPow(r, t)
    ensures F.Pow(r * 6, v) == Six(t, v)
  {
    hide F.Pow, F.Apply;
    var v1 := F.Apply(t, v);
    var v2 := F.Apply(t, v1);
    var v3 := F.Apply(t, v2);
    var v4 := F.Apply(t, v3);
    F.PowAdd(r * 5, r, v);
    F.PowAdd(r * 4, r, v1);
    F.PowAdd(r * 3, r, v2);
    F.PowAdd(r * 2, r, v3);
    F.PowAdd(r, r, v4);
  }

  lemma Root997Steps()
    ensures F.Apply(F.E997, 0x1d) == 0x199 && F.Apply(F.E997, 0x18f) == 0x1aa && F.Apply(F.E997, 0x1be) == 0x187
    ensures F.Apply(F.E997, 0x192) == 0x33 && F.Apply(F.E997, 0x2e) == 0x2e7 && F.Apply(F.E997, 0x1) == 0x1bd
    ensures F.Apply(F.E997, 0x1bd) == 0x369 && F.Apply(F.E997, 0x369) == 0x34f && F.Apply(F.E997, 0x34f) == 0x3d6
    ensures F.Apply(F.E997, 0x3d6) == 0x74 && F.Apply(F.E997, 0x74) == 0x2f5
  {
  }

  lemma Root997()
    ensures Horner(F.E997, 0x3b6a57b2) == Six(F.E997, 1)
  {
    hide F.Apply;
    Root997Steps();
  }

  lemma Root998Steps()
    ensures F.Apply(F.E998, 0x1d) == 0x1d2 && F.Apply(F.E998, 0x1c4) == 0x382 && F.Apply(F.E998, 0x396) == 0x359
    ensures F.Apply(F.E998, 0x34c) == 0x16b && F.Apply(F.E998, 0x176) == 0x3c8 && F.Apply(F.E998, 0x1) == 0x65
    ensures F.Apply(F.E998, 0x65) == 0x88 && F.Apply(F.E998, 0x88) == 0x373 && F.Apply(F.E998, 0x373) == 0x3a3
    ensures F.Apply(F.E998, 0x3a3) == 0x25a && F.Apply(F.E998, 0x25a) == 0x3da
  {
  }

  lemma Root998()
    ensures Horner(F.E998, 0x3b6a57b2) == Six(F.E998, 1)
  {
    hide F.Apply;
    Root998Steps();
  }

  lemma Root999Steps()
    ensures F.Apply(F.E999, 0x1d) == 0x2f5 && F.Apply(F.E999, 0x2e3) == 0x2f7 && F.Apply(F.E999, 0x2e3) == 0x2f7
    ensures F.Apply(F.E999, 0x2e2) == 0x127 && F.Apply(F.E999, 0x13a) == 0xb3 && F.Apply(F.E999, 0x1) == 0x3d0
    ensures F.Apply(F.E999, 0x3d0) == 0x159 && F.Apply(F.E999, 0x159) == 0x2c6 && F.Apply(F.E999, 0x2c6) == 0x51
    ensures F.Apply(F.E999, 0x51) == 0x42 && F.Apply(F.E999, 0x42) == 0xa1
  {
  }

  lemma Root999()
    ensures Horner(F.E999, 0x3b6a57b2) == Six(F.E999, 1)
  {
    hide F.Apply;
    Root999Steps();
  }

  predicate IsRoot(r: nat) {
    r == 997 || r == 998 || r == 999
  }

  /** x^6 modulo the generator, at a root. */
  lemma FirstMultiple(r: nat)
    requires IsRoot(r)
    ensures At(r, 0x3b6a57b2) == F.Pow(r * 6, Wider(1))
  {
    F.LargeTables();
    assert Wider(1) == 1;
    hide F.Pow, F.Apply, F.IsPow, Horner, Six, At, Wider;
    if r == 997 {
      Root997();
      HornerIs(r, F.E997, 0x3b6a57b2);
      SixIs(r, F.E997, 1);
    } else if r == 998 {
      Root998();
      HornerIs(r, F.E998, 0x3b6a57b2);
      SixIs(r, F.E998, 1);
    } else {
      Root999();
      HornerIs(r, F.E999, 0x3b6a57b2);
      SixIs(r, F.E999, 1);
    }
  }

  function AllTimesA(s: seq<bv5>): (d: seq<bv5>) {
    seq(|s|, i requires 0 <= i < |s| => F.TimesA(s[i]))
  }

  /** In the larger field multiplication by `a` is multiplication by e^99. */
  lemma TimesAIs(v: bv5)
    ensures Wider(F.TimesA(v)) == F.Pow(99, Wider(v))
  {
    F.SmallTables();
    TimesATable(v);
    hide F.Apply, F.Pow, Wider, F.TimesA;
  }

  lemma TimesATable(v: bv5)
    ensures Wider(F.TimesA(v)) == F.Apply(F.E99, Wider(v))
  {
  }

  lemma {:induction false} ValueTimesA(r: nat, a: bv10, s: seq<bv5>)
    ensures Value(r, F.Pow(99, a), AllTimesA(s)) == F.Pow(99, Value(r, a, s))
    decreases |s|
  {
    hide F.Add, F.Pow, Wider, F.TimesA;
    if s != [] {
      TimesAIs(s[0]);
      Commute(r, 99, a);
      F.PowLinear(99, F.Pow(r, a), Wider(s[0]));
      ValueTimesA(r, F.Add(F.Pow(r, a), Wider(s[0])), s[1..]);
      assert AllTimesA(s)[1..] == AllTimesA(s[1..]);
    }
  }

  /** Each generator multiple is `a` times the one before. */
  lemma NextMultiple(r: nat, k: bv32, l: bv32, v: bv5)
    requires Groups(l) == AllTimesA(Groups(k)) && At(r, k) == F.Pow(r * 6, Wider(v))
    ensures At(r, l) == F.Pow(r * 6, Wider(F.TimesA(v)))
  {
    hide F.Add, F.Pow, Wider, F.TimesA, Groups, AllTimesA, Value;
    F.PowZero(99);
    ValueTimesA(r, 0, Groups(k));
    TimesAIs(v);
    Commute(99, r * 6, Wider(v));
  }

  lemma Multiple1()
    ensures Groups(0x26508e6d) == AllTimesA(Groups(0x3b6a57b2)) && F.TimesA(1) == 2
  {
  }

  lemma Multiple2()
    ensures Groups(0x1ea119fa) == AllTimesA(Groups(0x26508e6d)) && F.TimesA(2) == 4
  {
  }

  lemma Multiple3()
    ensures Groups(0x3d4233dd) == AllTimesA(Groups(0x1ea119fa)) && F.TimesA(4) == 8
  {
  }

  lemma Multiple4()
    ensures Groups(0x2a1462b3) == AllTimesA(Groups(0x3d4233dd)) && F.TimesA(8) == 16
  {
  }

  lemma Multiples(r: nat)
    requires IsRoot(r)
    ensures At(r, 0x3b6a57b2) == F.Pow(r * 6, Wider(1))
    ensures At(r, 0x26508e6d) == F.Pow(r * 6, Wider(2))
    ensures At(r, 0x1ea119fa) == F.Pow(r * 6, Wider(4))
    ensures At(r, 0x3d4233dd) == F.Pow(r * 6, Wider(8))
    ensures At(r, 0x2a1462b3) == F.Pow(r * 6, Wider(16))
  {
    hide *;
    FirstMultiple(r);
    Multiple1();
    NextMultiple(r, 0x3b6a57b2, 0x26508e6d, 1);
    Multiple2();
    NextMultiple(r, 0x26508e6d, 0x1ea119fa, 2);
    Multiple3();
    NextMultiple(r, 0x1ea119fa, 0x3d4233dd, 4);
    Multiple4();
    NextMultiple(r, 0x3d4233dd, 0x2a1462b3, 8);
  }

  lemma PickAt(r: nat, d: bv5, bit: bv5, k: bv32)
    requires At(r, k) == F.Pow(r * 6, Wider(bit)) && (d & bit == 0 || d & bit == bit)
    ensures At(r, if d & bit != 0 then k else 0) == F.Pow(r * 6, Wider(d & bit))
  {
    hide At, F.Pow;
    AtZero(r);
    F.PowZero(r * 6);
    assert Wider(0) == 0;
  }

  /** x^6 leaves the remainder that Step adds: g vanishes at the root. */
  lemma RootOfGenerator(r: nat, d: bv5)
    requires IsRoot(r)
    ensures At(r, Reduce(0, Wide(d))) == F.Pow(r * 6, Wider(d))
  {
    hide At, F.Pow, F.Add, Xor, IsRoot;
    Multiples(r);
    PickBit(d);
    PickAt(r, d, 1, 0x3b6a57b2);
    PickAt(r, d, 2, 0x26508e6d);
    PickAt(r, d, 4, 0x1ea119fa);
    PickAt(r, d, 8, 0x3d4233dd);
    PickAt(r, d, 16, 0x2a1462b3);
    var p1, p2, p3 := Pick(Wide(d), 1, 0x3b6a57b2), Pick(Wide(d), 2, 0x26508e6d), Pick(Wide(d), 4, 0x1ea119fa);
    var p4, p5 := Pick(Wide(d), 8, 0x3d4233dd), Pick(Wide(d), 16, 0x2a1462b3);
    XorSelf(p1);
    AtLinear(r, p1, p2);
    AtLinear(r, Xor(p1, p2), p3);
    AtLinear(r, Xor(Xor(p1, p2), p3), p4);
    AtLinear(r, Xor(Xor(Xor(p1, p2), p3), p4), p5);
    var w1, w2, w3, w4, w5 := Wider(d & 1), Wider(d & 2), Wider(d & 4), Wider(d & 8), Wider(d & 16);
    F.PowLinear(r * 6, w1, w2);
    F.PowLinear(r * 6, F.Add(w1, w2), w3);
    F.PowLinear(r * 6, F.Add(F.Add(w1, w2), w3), w4);
    F.PowLinear(r * 6, F.Add(F.Add(F.Add(w1, w2), w3), w4), w5);
    WiderBits(d);
  }

  lemma WiderBits(d: bv5)
    ensures Wider(d) == F.Add(F.Add(F.Add(F.Add(
      Wider(d & 1), Wider(d & 2)), Wider(d & 4)), Wider(d & 8)), Wider(d & 16))
  {
  }

  lemma PickBit(d: bv5)
    ensures Wide(d) & 1 != 0 <==> d & 1 != 0
    ensures Wide(d) & 2 != 0 <==> d & 2 != 0
    ensures Wide(d) & 4 != 0 <==> d & 4 != 0
    ensures Wide(d) & 8 != 0 <==> d & 8 != 0
    ensures Wide(d) & 16 != 0 <==> d & 16 != 0
  {
  }

  // ---- The state keeps the values at the roots ----

  lemma ReduceSplits(c: bv32, c0: bv32)
    ensures Reduce(c, c0) == Xor(c, Reduce(0, c0))
  {
    hide Xor, Reduce;
    XorSelf(c);
    XorSelf(c0);
    ReduceLinear(c, 0, 0, c0);
    NoReduction(c);
  }

  lemma StepPacked(e0: bv5, e1: bv5, e2: bv5, e3: bv5, e4: bv5, e5: bv5, v: bv5)
    ensures Top(Pack(e0, e1, e2, e3, e4, e5)) == Wide(e0)
    ensures Xor(Shifted(Pack(e0, e1, e2, e3, e4, e5)), Wide(v)) == Pack(e1, e2, e3, e4, e5, v)
  {
  }

  lemma StepValue(r: nat, c: bv32, v: bv5)
    requires IsRoot(r) && Bits30(c)
    ensures At(r, Step(c, v)) == F.Add(F.Pow(r, At(r, c)), Wider(v))
  {
    hide F.Add, F.Pow, Wider, IsRoot, Group, Bits30, Reduce, Xor, Top, Shifted, Wide, Pack, XorSeq;
    var s := Groups(c);
    PackGroups(c);
    StepPacked(s[0], s[1], s[2], s[3], s[4], s[5], v);
    var moved := Pack(s[1], s[2], s[3], s[4], s[5], v);
    ReduceSplits(moved, Wide(s[0]));
    GroupsPack(s[1], s[2], s[3], s[4], s[5], v);
    assert Groups(moved) == s[1..] + [v];
    hide Value, Groups;
    AtLinear(r, moved, Reduce(0, Wide(s[0])));
    RootOfGenerator(r, s[0]);
    ValueFirst(r, s[0], s[1..] + [v]);
    F.AddComm(F.Pow(r * 6, Wider(s[0])), Value(r, 0, s[1..] + [v]));
    assert [s[0]] + (s[1..] + [v]) == s + [v];
    ValueLast(r, 0, s, v);
  }

  lemma ValueLast(r: nat, a: bv10, s: seq<bv5>, v: bv5)
    ensures Value(r, a, s + [v]) == F.Add(F.Pow(r, Value(r, a, s)), Wider(v))
  {
    hide F.Add, F.Pow, Wider;
    ValueAppend(r, a, s, [v]);
    assert [v][1..] == [];
  }

  lemma {:induction false} FoldValue(r: nat, c: bv32, s: seq<bv5>)
    requires IsRoot(r) && Bits30(c)
    ensures At(r, Fold(c, s)) == Value(r, At(r, c), s)
    decreases |s|
  {
    hide F.Add, F.Pow, Wider, IsRoot, At, Bits30, Step;
    if s != [] {
      StepBits(c, s[0]);
      StepValue(r, c, s[0]);
      FoldValue(r, Step(c, s[0]), s[1..]);
    }
  }

  // ---- Three terms ----

  function Single(n: nat, p: nat, v: bv5): (s: seq<bv5>)
    requires p < n
    ensures |s| == n && s[p] == v && forall i | 0 <= i < n && i != p :: s[i] == 0
  {
    Zeroes(p) + ([v] + Zeroes(n - 1 - p))
  }

  lemma ValueSingle(r: nat, n: nat, p: nat, v: bv5)
    requires p < n
    ensures Value(r, 0, Single(n, p, v)) == F.Pow(r * (n - 1 - p), Wider(v))
  {
    hide F.Add, F.Pow, Wider, Value, Zeroes;
    var rest := Zeroes(n - 1 - p);
    ValueAppend(r, 0, Zeroes(p), [v] + rest);
    ValueZeroes(r, 0, p);
    F.PowZero(r * p);
    ValueFirst(r, v, rest);
    ValueZeroes(r, 0, n - 1 - p);
    F.PowZero(r * (n - 1 - p));
    F.AddSelf(F.Pow(r * (n - 1 - p), Wider(v)));
  }

  /** Zero outside three places. */
  ghost predicate OnlyAt(d: seq<bv5>, p: nat, q: nat, s: nat) {
    forall i | 0 <= i < |d| && i != p && i != q && i != s :: d[i] == 0
  }

  lemma ThreeSingles(d: seq<bv5>, p: nat, q: nat, s: nat)
    requires p < |d| && q < |d| && s < |d| && p != q && p != s && q != s && OnlyAt(d, p, q, s)
    ensures XorSeq(XorSeq(Single(|d|, p, d[p]), Single(|d|, q, d[q])), Single(|d|, s, d[s])) == d
  {
    hide Single, XorSymbol;
    var n := |d|;
    var sum := XorSeq(XorSeq(Single(n, p, d[p]), Single(n, q, d[q])), Single(n, s, d[s]));
    forall i | 0 <= i < n ensures sum[i] == d[i] {
      NeutralXor(d[i]);
      NeutralXor(0);
    }
  }

  lemma NeutralXor(v: bv5)
    ensures XorSymbol(0, v) == v && XorSymbol(v, 0) == v
  {
  }

  /** A symbol with `n` symbols after it. */
  function Term(r: nat, n: nat, v: bv5): bv10 {
    F.Pow(r * n, Wider(v))
  }

  lemma ValueThree(r: nat, d: seq<bv5>, p: nat, q: nat, s: nat)
    requires p < |d| && q < |d| && s < |d| && p != q && p != s && q != s && OnlyAt(d, p, q, s)
    ensures Value(r, 0, d) ==
      F.Add(F.Add(Term(r, |d| - 1 - p, d[p]), Term(r, |d| - 1 - q, d[q])), Term(r, |d| - 1 - s, d[s]))
  {
    hide F.Add, F.Pow, Wider, Value, XorSeq, Single, OnlyAt;
    var n := |d|;
    var x, y, z := Single(n, p, d[p]), Single(n, q, d[q]), Single(n, s, d[s]);
    ThreeSingles(d, p, q, s);
    F.AddSelf(0);
    XorSeqSize(x, y);
    ValueLinear(r, 0, 0, x, y);
    ValueLinear(r, 0, 0, XorSeq(x, y), z);
    ValueSingle(r, n, p, d[p]);
    ValueSingle(r, n, q, d[q]);
    ValueSingle(r, n, s, d[s]);
  }

  lemma XorSeqSize(x: seq<bv5>, y: seq<bv5>)
    requires |x| == |y|
    ensures |XorSeq(x, y)| == |x|
  {
  }

  /** Two different powers below 1023 agree only on zero. */
  lemma SamePower(a: nat, b: nat, v: bv10)
    requires a < 1023 && b < 1023 && a != b && F.Pow(a, v) == F.Pow(b, v)
    ensures v == 0
  {
    hide F.Add, F.Pow;
    var lo, k := if a < b then a else b, if a < b then b - a else a - b;
    F.PowAdd(lo, k, v);
    F.PowLinear(lo, F.Pow(k, v), v);
    F.AddSelf(F.Pow(lo, v));
    F.PowNonZero(lo, F.Add(F.Pow(k, v), v));
    F.AddZero(F.Pow(k, v), v);
    F.FixedIsZero(k, v);
  }

  lemma Commute(a: nat, b: nat, v: bv10)
    ensures F.Pow(a, F.Pow(b, v)) == F.Pow(b, F.Pow(a, v))
  {
    hide F.Pow;
    F.PowAdd(a, b, v);
    F.PowAdd(b, a, v);
    assert a + b == b + a;
  }

  lemma Regroup(u: bv10, v: bv10, x: bv10, y: bv10)
    requires F.Add(F.Add(u, v), F.Add(x, y)) == 0
    ensures F.Add(u, x) == F.Add(v, y)
  {
    hide F.Add;
    F.Exchange(u, v, x, y);
    F.AddZero(F.Add(u, x), F.Add(v, y));
  }

  /** Taking c times one equation from the next removes the third unknown. */
  lemma WithoutThird(c: nat, x: bv10, y: bv10, z: bv10, x1: bv10, y1: bv10)
    requires F.Add(F.Add(x, y), z) == 0 && F.Add(F.Add(x1, y1), F.Pow(c, z)) == 0
    ensures F.Add(x1, F.Pow(c, x)) == F.Add(y1, F.Pow(c, y))
  {
    hide F.Add, F.Pow;
    F.AddZero(F.Add(x, y), z);
    F.PowLinear(c, x, y);
    Regroup(x1, y1, F.Pow(c, x), F.Pow(c, y));
  }

  lemma Factor(a: nat, c: nat, x: bv10)
    ensures F.Add(F.Pow(a, F.Pow(a, x)), F.Pow(c, F.Pow(a, x))) == F.Pow(a, F.Add(F.Pow(a, x), F.Pow(c, x)))
  {
    hide F.Add, F.Pow;
    Commute(c, a, x);
    F.PowLinear(a, F.Pow(a, x), F.Pow(c, x));
  }

  lemma Factored(a: nat, b: nat, c: nat, x1: bv10, y1: bv10, z1: bv10, x: bv10, y: bv10)
    requires x1 == F.Pow(a, x) && y1 == F.Pow(b, y)
    requires F.Add(F.Add(x1, y1), z1) == 0
    requires F.Add(F.Add(F.Pow(a, x1), F.Pow(b, y1)), F.Pow(c, z1)) == 0
    ensures F.Pow(a, F.Add(x1, F.Pow(c, x))) == F.Pow(b, F.Add(y1, F.Pow(c, y)))
  {
    hide F.Add, F.Pow;
    WithoutThird(c, x1, y1, z1, F.Pow(a, x1), F.Pow(b, y1));
    Factor(a, c, x);
    Factor(b, c, y);
  }

  lemma Finish(a: nat, b: nat, c: nat, x: bv10, u: bv10, w: bv10)
    requires a < 1023 && b < 1023 && c < 1023 && a != b && a != c
    requires u == F.Add(F.Pow(a, x), F.Pow(c, x)) && u == w && F.Pow(a, u) == F.Pow(b, w)
    ensures x == 0
  {
    hide F.Add, F.Pow;
    SamePower(a, b, u);
    F.AddZero(F.Pow(a, x), F.Pow(c, x));
    SamePower(a, c, x);
  }

  /** Three different powers, three equations: only zero solves them. */
  lemma Eliminate(a: nat, b: nat, c: nat, x: bv10, y: bv10, z: bv10, x1: bv10, y1: bv10, z1: bv10)
    requires a < 1023 && b < 1023 && c < 1023 && a != b && a != c
    requires x1 == F.Pow(a, x) && y1 == F.Pow(b, y) && z1 == F.Pow(c, z)
    requires F.Add(F.Add(x, y), z) == 0
    requires F.Add(F.Add(x1, y1), z1) == 0
    requires F.Add(F.Add(F.Pow(a, x1), F.Pow(b, y1)), F.Pow(c, z1)) == 0
    ensures x == 0
  {
    hide *;
    WithoutThird(c, x, y, z, x1, y1);
    Factored(a, b, c, x1, y1, z1, x, y);
    Finish(a, b, c, x, F.Add(x1, F.Pow(c, x)), F.Add(y1, F.Pow(c, y)));
  }

  lemma NextPowers(n: nat, v: bv10)
    ensures F.Pow(998 * n, v) == F.Pow(n, F.Pow(997 * n, v))
    ensures F.Pow(999 * n, v) == F.Pow(n, F.Pow(n, F.Pow(997 * n, v)))
  {
    hide F.Pow;
    F.PowAdd(n, 997 * n, v);
    F.PowAdd(n, 998 * n, v);
  }

  // ---- Up to three errors ----

  lemma VanishesAt(r: nat, d: seq<bv5>)
    requires IsRoot(r) && Fold(0, d) == 0
    ensures Value(r, 0, d) == 0
  {
    hide F.Add, F.Pow, At, Value, Fold, IsRoot;
    assert Bits30(0);
    FoldValue(r, 0, d);
    AtZero(r);
  }

  lemma NoThreeTerms(d: seq<bv5>, p: nat, q: nat, s: nat)
    requires |d| <= 1023 && p < |d| && q < |d| && s < |d| && p != q && p != s && q != s
    requires OnlyAt(d, p, q, s) && Fold(0, d) == 0
    ensures d[p] == 0
  {
    hide F.Add, F.Pow, Wider, Value, Fold, OnlyAt;
    VanishesAt(997, d);
    VanishesAt(998, d);
    VanishesAt(999, d);
    ValueThree(997, d, p, q, s);
    ValueThree(998, d, p, q, s);
    ValueThree(999, d, p, q, s);
    var a, b, c := |d| - 1 - p, |d| - 1 - q, |d| - 1 - s;
    NextPowers(a, Wider(d[p]));
    NextPowers(b, Wider(d[q]));
    NextPowers(c, Wider(d[s]));
    var x, y, z := F.Pow(997 * a, Wider(d[p])), F.Pow(997 * b, Wider(d[q])), F.Pow(997 * c, Wider(d[s]));
    Eliminate(a, b, c, x, y, z, F.Pow(a, x), F.Pow(b, y), F.Pow(c, z));
    F.PowNonZero(997 * a, Wider(d[p]));
    WiderNonZero(d[p]);
  }

  /** The sequences agree outside three places. */
  ghost predicate AgreeBut(x: seq<bv5>, y: seq<bv5>, i: int, j: int, k: int)
    requires |x| == |y|
  {
    forall m | 0 <= m < |x| && m != i && m != j && m != k :: x[m] == y[m]
  }

  /** Sequences of at most 1023 symbols that differ, but in at most three places,
      never lead to the same state. */
  lemma ThreeErrorsDetected(c: bv32, x: seq<bv5>, y: seq<bv5>, i: int, j: int, k: int)
    requires |x| == |y| <= 1023 && x != y && AgreeBut(x, y, i, j, k)
    ensures Fold(c, x) != Fold(c, y)
  {
    hide Xor, Step, Fold, XorSeq;
    var p :| 0 <= p < |x| && x[p] != y[p];
    if |x| < 3 {
      BurstDetected(c, x, y, 0);
    } else {
      var q, s := Others(|x|, p, i, j, k);
      var d := XorSeq(x, y);
      Difference(x, y, p, q, s);
      XorSelf(c);
      FoldLinear(c, c, x, y);
      XorZero(Fold(c, x), Fold(c, y));
      if Fold(0, d) == 0 {
        NoThreeTerms(d, p, q, s);
      }
    }
  }

  /** Two places that, with `p`, cover the three given ones. */
  lemma Others(n: nat, p: nat, i: int, j: int, k: int) returns (q: nat, s: nat)
    requires n >= 3 && p < n && (p == i || p == j || p == k)
    ensures q < n && s < n && p != q && p != s && q != s
    ensures i < 0 || i >= n || i == p || i == q || i == s
    ensures j < 0 || j >= n || j == p || j == q || j == s
    ensures k < 0 || k >= n || k == p || k == q || k == s
  {
    var u, v := if p == i then j else i, if p == k then j else k;
    var free := if p != 0 && v != 0 then 0 else if p != 1 && v != 1 then 1 else 2;
    q := if 0 <= u < n && u != p then u else free;
    var open := if p != 0 && q != 0 then 0 else if p != 1 && q != 1 then 1 else 2;
    s := if 0 <= v < n && v != p && v != q then v else open;
  }

  lemma Difference(x: seq<bv5>, y: seq<bv5>, p: nat, q: nat, s: nat)
    requires |x| == |y| && p < |x| && x[p] != y[p] && AgreeBut(x, y, p, q, s)
    ensures |XorSeq(x, y)| == |x| && XorSeq(x, y)[p] != 0 && OnlyAt(XorSeq(x, y), p, q, s)
  {
    hide XorSymbol;
    SymbolsDiffer(x[p], y[p]);
    forall m | 0 <= m < |x| && x[m] == y[m] ensures XorSymbol(x[m], y[m]) == 0 {
      SymbolsDiffer(x[m], y[m]);
    }
  }
}
