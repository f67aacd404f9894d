/** Powers of the element `e` of GF(1024) that the Bech32 generator is built
    from: e^2 = 9e + 23 over GF(32).  A field element is ten bits, hi * e + lo,
    and multiplication by a power of `e` is a linear map on them. */
module Gf1024 {
  import opened NatArith

  function Add(a: bv10, b: bv10): bv10 {
    a ^ b
  }

  lemma AddAssoc(a: bv10, b: bv10, c: bv10)
    ensures Add(Add(a, b), c) == Add(a, Add(b, c))
  {
  }

  lemma AddComm(a: bv10, b: bv10)
    ensures Add(a, b) == Add(b, a)
  {
  }

  lemma AddSelf(a: bv10)
    ensures Add(a, a) == 0 && Add(a, 0) == a && Add(0, a) == a
  {
  }

  lemma AddZero(a: bv10, b: bv10)
    ensures Add(a, b) == 0 <==> a == b
  {
    hide Add;
    AddSelf(a);
    AddSelf(b);
    AddAssoc(a, b, b);
  }

  lemma Exchange(a: bv10, b: bv10, c: bv10, d: bv10)
    ensures Add(Add(a, b), Add(c, d)) == Add(Add(a, c), Add(b, d))
  {
    hide Add;
    AddAssoc(a, b, Add(c, d));
    AddAssoc(b, c, d);
    AddComm(b, c);
    AddAssoc(c, b, d);
    AddAssoc(a, c, Add(b, d));
  }

  // ---- Linear maps ----

  /** A linear map, by the images of the ten bits. */
  datatype Lin = Lin(c0: bv10, c1: bv10, c2: bv10, c3: bv10, c4: bv10, c5: bv10, c6: bv10, c7: bv10, c8: bv10, c9: bv10)

  function Pick(v: bv10, bit: bv10, c: bv10): bv10 {
    if v & bit != 0 then c else 0
  }

  function Toggle(x: bv10, v: bv10, bit: bv10, c: bv10): bv10 {
    if v & bit != 0 then x ^ c else x
  }

  function Apply(t: Lin, v: bv10): bv10 {
    Toggle(Toggle(Toggle(Toggle(Toggle(Toggle(Toggle(Toggle(Toggle(Toggle(0,
      v, 1, t.c0), v, 2, t.c1), v, 4, t.c2), v, 8, t.c3), v, 16, t.c4),
      v, 32, t.c5), v, 64, t.c6), v, 128, t.c7), v, 256, t.c8), v, 512, t.c9)
  }

  lemma ToggleAdds(x: bv10, v: bv10, bit: bv10, c: bv10)
    ensures Toggle(x, v, bit, c) == Add(x, Pick(v, bit, c))
  {
  }

  /** The map as a sum of the images of the bits. */
  lemma Terms(t: Lin, v: bv10)
    ensures Apply(t, v) == Add(Add(Add(Add(Add(Add(Add(Add(Add(
      Pick(v, 1, t.c0), Pick(v, 2, t.c1)), Pick(v, 4, t.c2)), Pick(v, 8, t.c3)), Pick(v, 16, t.c4)),
      Pick(v, 32, t.c5)), Pick(v, 64, t.c6)), Pick(v, 128, t.c7)), Pick(v, 256, t.c8)), Pick(v, 512, t.c9))
  {
    hide Add, Pick, Toggle;
    ToggleAdds(0, v, 1, t.c0);
    AddSelf(Pick(v, 1, t.c0));
    var x0 := Toggle(0, v, 1, t.c0);
    ToggleAdds(x0, v, 2, t.c1);
    var x1 := Toggle(x0, v, 2, t.c1);
    ToggleAdds(x1, v, 4, t.c2);
    var x2 := Toggle(x1, v, 4, t.c2);
    ToggleAdds(x2, v, 8, t.c3);
    var x3 := Toggle(x2, v, 8, t.c3);
    ToggleAdds(x3, v, 16, t.c4);
    var x4 := Toggle(x3, v, 16, t.c4);
    ToggleAdds(x4, v, 32, t.c5);
    var x5 := Toggle(x4, v, 32, t.c5);
    ToggleAdds(x5, v, 64, t.c6);
    var x6 := Toggle(x5, v, 64, t.c6);
    ToggleAdds(x6, v, 128, t.c7);
    var x7 := Toggle(x6, v, 128, t.c7);
    ToggleAdds(x7, v, 256, t.c8);
    var x8 := Toggle(x7, v, 256, t.c8);
    ToggleAdds(x8, v, 512, t.c9);
  }

  predicate LowBit(bit: bv10) {
    bit == 1 || bit == 2 || bit == 4 || bit == 8 || bit == 16
  }

  predicate HighBit(bit: bv10) {
    bit == 32 || bit == 64 || bit == 128 || bit == 256 || bit == 512
  }

  predicate IsBit(bit: bv10) {
    LowBit(bit) || HighBit(bit)
  }

  lemma LowBitAdd(u: bv10, v: bv10, bit: bv10)
    requires LowBit(bit)
    ensures (Add(u, v) & bit != 0) <==> ((u & bit != 0) != (v & bit != 0))
  {
  }

  lemma HighBitAdd(u: bv10, v: bv10, bit: bv10)
    requires HighBit(bit)
    ensures (Add(u, v) & bit != 0) <==> ((u & bit != 0) != (v & bit != 0))
  {
  }

  lemma PickLinear(u: bv10, v: bv10, bit: bv10, c: bv10)
    requires IsBit(bit)
    ensures Pick(Add(u, v), bit, c) == Add(Pick(u, bit, c), Pick(v, bit, c))
  {
    hide Add, LowBit, HighBit;
    if LowBit(bit) {
      LowBitAdd(u, v, bit);
    } else {
      HighBitAdd(u, v, bit);
    }
    AddSelf(c);
    AddSelf(0);
  }

  /** One more term of a sum of two images. */
  lemma PickStep(x: bv10, y: bv10, u: bv10, v: bv10, bit: bv10, c: bv10)
    requires IsBit(bit)
    ensures Add(Add(x, y), Pick(Add(u, v), bit, c)) == Add(Add(x, Pick(u, bit, c)), Add(y, Pick(v, bit, c)))
  {
    hide Add, Pick;
    PickLinear(u, v, bit, c);
    Exchange(x, y, Pick(u, bit, c), Pick(v, bit, c));
  }

  lemma ApplyLinear(t: Lin, u: bv10, v: bv10)
    ensures Apply(t, Add(u, v)) == Add(Apply(t, u), Apply(t, v))
  {
    hide Add, Pick, Apply;
    Terms(t, Add(u, v));
    Terms(t, u);
    Terms(t, v);
    PickLinear(u, v, 1, t.c0);
    var x0, y0 := Pick(u, 1, t.c0), Pick(v, 1, t.c0);
    PickStep(x0, y0, u, v, 2, t.c1);
    var x1, y1 := Add(x0, Pick(u, 2, t.c1)), Add(y0, Pick(v, 2, t.c1));
    PickStep(x1, y1, u, v, 4, t.c2);
    var x2, y2 := Add(x1, Pick(u, 4, t.c2)), Add(y1, Pick(v, 4, t.c2));
    PickStep(x2, y2, u, v, 8, t.c3);
    var x3, y3 := Add(x2, Pick(u, 8, t.c3)), Add(y2, Pick(v, 8, t.c3));
    PickStep(x3, y3, u, v, 16, t.c4);
    var x4, y4 := Add(x3, Pick(u, 16, t.c4)), Add(y3, Pick(v, 16, t.c4));
    PickStep(x4, y4, u, v, 32, t.c5);
    var x5, y5 := Add(x4, Pick(u, 32, t.c5)), Add(y4, Pick(v, 32, t.c5));
    PickStep(x5, y5, u, v, 64, t.c6);
    var x6, y6 := Add(x5, Pick(u, 64, t.c6)), Add(y5, Pick(v, 64, t.c6));
    PickStep(x6, y6, u, v, 128, t.c7);
    var x7, y7 := Add(x6, Pick(u, 128, t.c7)), Add(y6, Pick(v, 128, t.c7));
    PickStep(x7, y7, u, v, 256, t.c8);
    var x8, y8 := Add(x7, Pick(u, 256, t.c8)), Add(y7, Pick(v, 256, t.c8));
    PickStep(x8, y8, u, v, 512, t.c9);
  }

  lemma ApplyZero(t: Lin)
    ensures Apply(t, 0) == 0
  {
    hide Add, Apply;
    AddSelf(0);
    ApplyLinear(t, 0, 0);
    AddSelf(Apply(t, 0));
  }

  /** The map that applies `b` first. */
  function Times(a: Lin, b: Lin): Lin {
    Lin(Apply(a, b.c0), Apply(a, b.c1), Apply(a, b.c2), Apply(a, b.c3), Apply(a, b.c4),
        Apply(a, b.c5), Apply(a, b.c6), Apply(a, b.c7), Apply(a, b.c8), Apply(a, b.c9))
  }

  lemma ApplyPick(a: Lin, x: bv10, v: bv10, bit: bv10, c: bv10)
    ensures Apply(a, Add(x, Pick(v, bit, c))) == Add(Apply(a, x), Pick(v, bit, Apply(a, c)))
  {
    hide Apply, Add;
    ApplyLinear(a, x, Pick(v, bit, c));
    ApplyZero(a);
  }

  lemma TimesApplies(a: Lin, b: Lin, v: bv10)
    ensures Apply(Times(a, b), v) == Apply(a, Apply(b, v))
  {
    Terms(Times(a, b), v);
    Terms(b, v);
    hide Apply, Add, Pick;
    AddSelf(Pick(v, 1, b.c0));
    AddSelf(Pick(v, 1, Apply(a, b.c0)));
    ApplyZero(a);
    ApplyPick(a, 0, v, 1, b.c0);
    var x0 := Pick(v, 1, b.c0);
    ApplyPick(a, x0, v, 2, b.c1);
    var x1 := Add(x0, Pick(v, 2, b.c1));
    ApplyPick(a, x1, v, 4, b.c2);
    var x2 := Add(x1, Pick(v, 4, b.c2));
    ApplyPick(a, x2, v, 8, b.c3);
    var x3 := Add(x2, Pick(v, 8, b.c3));
    ApplyPick(a, x3, v, 16, b.c4);
    var x4 := Add(x3, Pick(v, 16, b.c4));
    ApplyPick(a, x4, v, 32, b.c5);
    var x5 := Add(x4, Pick(v, 32, b.c5));
    ApplyPick(a, x5, v, 64, b.c6);
    var x6 := Add(x5, Pick(v, 64, b.c6));
    ApplyPick(a, x6, v, 128, b.c7);
    var x7 := Add(x6, Pick(v, 128, b.c7));
    ApplyPick(a, x7, v, 256, b.c8);
    var x8 := Add(x7, Pick(v, 256, b.c8));
    ApplyPick(a, x8, v, 512, b.c9);
  }

  // ---- Powers of e ----

  /** Multiplication by `e`: hi * e + lo becomes (9 * hi + lo) * e + 23 * hi, as
      TimesE says. */
  const E := Lin(0x20, 0x40, 0x80, 0x100, 0x200, 0x137, 0x247, 0x1ae, 0x35c, 0x3b1)

  /** Multiplication in GF(32) by `a`, where a^5 = a^3 + 1. */
  function TimesA(h: bv5): bv5 {
    (h << 1) ^ (if h & 16 != 0 then 9 else 0)
  }

  /** {9} is a^3 + 1. */
  function Times9(h: bv5): bv5 {
    TimesA(TimesA(TimesA(h))) ^ h
  }

  /** {23} is a^4 + a^2 + a + 1. */
  function Times23(h: bv5): bv5 {
    TimesA(TimesA(TimesA(TimesA(h)))) ^ TimesA(TimesA(h)) ^ TimesA(h) ^ h
  }

  lemma TimesE(hi: bv5, lo: bv5)
    ensures Apply(E, ((hi as bv10) << 5) | (lo as bv10)) == (((Times9(hi) ^ lo) as bv10) << 5) | (Times23(hi) as bv10)
  {
  }

  /** Multiplication by e^n. */
  function Pow(n: nat, v: bv10): bv10 {
    if n == 0 then v else Apply(E, Pow(n - 1, v))
  }

  lemma {:induction false} PowAdd(m: nat, n: nat, v: bv10)
    ensures Pow(m + n, v) == Pow(m, Pow(n, v))
    decreases m
  {
    hide Apply;
    if m > 0 {
      PowAdd(m - 1, n, v);
    }
  }

  lemma {:induction false} PowLinear(n: nat, u: bv10, v: bv10)
    ensures Pow(n, Add(u, v)) == Add(Pow(n, u), Pow(n, v))
  {
    hide Apply, Add;
    if n > 0 {
      PowLinear(n - 1, u, v);
      ApplyLinear(E, Pow(n - 1, u), Pow(n - 1, v));
    }
  }

  lemma {:induction false} PowZero(n: nat)
    ensures Pow(n, 0) == 0
  {
    hide Apply;
    if n > 0 {
      PowZero(n - 1);
      ApplyZero(E);
    }
  }

  lemma ENonZero(v: bv10)
    requires Apply(E, v) == 0
    ensures v == 0
  {
  }

  lemma {:induction false} PowNonZero(n: nat, v: bv10)
    requires Pow(n, v) == 0
    ensures v == 0
  {
    if n > 0 {
      ENonZero(Pow(n - 1, v));
      hide Apply;
      PowNonZero(n - 1, v);
    }
  }

  /** `t` is the table of multiplication by e^n. */
  ghost predicate IsPow(n: nat, t: Lin) {
    forall v :: Pow(n, v) == Apply(t, v)
  }

  lemma TablesMultiply(m: nat, a: Lin, n: nat, b: Lin)
    requires IsPow(m, a) && IsPow(n, b)
    ensures IsPow(m + n, Times(a, b))
  {
    hide Apply, Pow, Times;
    forall v ensures Pow(m + n, v) == Apply(Times(a, b), v) {
      PowAdd(m, n, v);
      TimesApplies(a, b, v);
    }
  }

  const E2 := Lin(0x137, 0x247, 0x1ae, 0x35c, 0x3b1, 0x8b, 0x116, 0x205, 0x12a, 0x254)
  const E3 := Lin(0x8b, 0x116, 0x205, 0x12a, 0x254, 0xce, 0x19c, 0x311, 0x32b, 0x376)
  const E6 := Lin(0x3a6, 0x26c, 0x1f8, 0x3d9, 0x2bb, 0xb4, 0x141, 0x282, 0x24, 0x48)
  const E12 := Lin(0x1ce, 0x39c, 0x231, 0x16b, 0x2d6, 0x175, 0x2c3, 0xa6, 0x14c, 0x298)
  const E24 := Lin(0x3ef, 0x2fe, 0xf5, 0x1c3, 0x386, 0x3d3, 0x2af, 0x7e, 0xd5, 0x183)
  const E30 := Lin(0xf0, 0x1c9, 0x392, 0x22d, 0x17a, 0xde, 0x195, 0x303, 0x326, 0x36c)
  const E31 := Lin(0xde, 0x195, 0x303, 0x326, 0x36c, 0x29, 0x52, 0x8d, 0x11a, 0x21d)
  const E33 := Lin(0x17, 0x7, 0xe, 0x1c, 0x11, 0x2e0, 0xe0, 0x1c0, 0x380, 0x220)
  const E62 := Lin(0x203, 0x126, 0x24c, 0x1b8, 0x359, 0x3d1, 0x2ab, 0x76, 0xc5, 0x18a)
  const E93 := Lin(0x356, 0x3a5, 0x26a, 0x1f4, 0x3c1, 0x6a, 0xd4, 0x181, 0x302, 0x324)
  const E99 := Lin(0x2, 0x4, 0x8, 0x10, 0x9, 0x40, 0x80, 0x100, 0x200, 0x120)
  const E186 := Lin(0x2fc, 0xf1, 0x1cb, 0x396, 0x225, 0x2ef, 0xfe, 0x1d5, 0x383, 0x226)
  const E279 := Lin(0x244, 0x1a8, 0x350, 0x3a9, 0x272, 0x176, 0x2c5, 0xaa, 0x154, 0x281)
  const E310 := Lin(0x14c, 0x298, 0x39, 0x5b, 0x9f, 0x9b, 0x11f, 0x217, 0x127, 0x24e)
  const E341 := Lin(0x16d, 0x2da, 0xbd, 0x153, 0x28f, 0x18c, 0x318, 0x339, 0x37b, 0x3ff)
  const E682 := Lin(0x16c, 0x2d8, 0xb9, 0x15b, 0x29f, 0x1ac, 0x358, 0x3b9, 0x27b, 0x1ff)
  const E992 := Lin(0xc1, 0x182, 0x304, 0x328, 0x370, 0x3c9, 0x2b2, 0x6d, 0xda, 0x19d)
  const E995 := Lin(0x206, 0x12c, 0x258, 0x1b9, 0x35b, 0x371, 0x3eb, 0x2f6, 0xe5, 0x1ca)
  const E997 := Lin(0x1bd, 0x353, 0x3af, 0x27e, 0x1f5, 0x65, 0xca, 0x194, 0x301, 0x322)
  const E998 := Lin(0x65, 0xca, 0x194, 0x301, 0x322, 0x3d0, 0x2a9, 0x72, 0xcd, 0x19a)
  const E999 := Lin(0x3d0, 0x2a9, 0x72, 0xcd, 0x19a, 0x104, 0x208, 0x130, 0x249, 0x1b2)
  const E1023 := Lin(0x1, 0x2, 0x4, 0x8, 0x10, 0x20, 0x40, 0x80, 0x100, 0x200)

  lemma TableOne()
    ensures IsPow(1, E)
  {
    hide Apply;
    forall v ensures Pow(1, v) == Apply(E, v) {
      assert Pow(0, v) == v;
    }
  }

  lemma Product2()
    ensures Times(E, E) == E2
  {
  }

  lemma Product3()
    ensures Times(E2, E) == E3
  {
  }

  lemma Product6()
    ensures Times(E3, E3) == E6
  {
  }

  lemma Product12()
    ensures Times(E6, E6) == E12
  {
  }

  lemma Product24()
    ensures Times(E12, E12) == E24
  {
  }

  lemma Product30()
    ensures Times(E24, E6) == E30
  {
  }

  lemma Product31()
    ensures Times(E30, E) == E31
  {
  }

  lemma Product33()
    ensures Times(E31, E2) == E33
  {
  }

  lemma Product62()
    ensures Times(E31, E31) == E62
  {
  }

  lemma Product93()
    ensures Times(E62, E31) == E93
  {
  }

  lemma Product99()
    ensures Times(E93, E6) == E99
  {
  }

  lemma Product186()
    ensures Times(E93, E93) == E186
  {
  }

  lemma Product279()
    ensures Times(E186, E93) == E279
  {
  }

  lemma Product310()
    ensures Times(E279, E31) == E310
  {
  }

  lemma Product341()
    ensures Times(E310, E31) == E341
  {
  }

  lemma Product682()
    ensures Times(E341, E341) == E682
  {
  }

  lemma Product992()
    ensures Times(E682, E310) == E992
  {
  }

  lemma Product995()
    ensures Times(E992, E3) == E995
  {
  }

  lemma Product997()
    ensures Times(E995, E2) == E997
  {
  }

  lemma Product998()
    ensures Times(E997, E) == E998
  {
  }

  lemma Product999()
    ensures Times(E998, E) == E999
  {
  }

  lemma Product1023()
    ensures Times(E682, E341) == E1023
  {
  }

  lemma SmallTables()
    ensures IsPow(1, E) && IsPow(2, E2) && IsPow(3, E3) && IsPow(31, E31) && IsPow(33, E33)
    ensures IsPow(93, E93) && IsPow(99, E99)
  {
    TableOne();
    hide *;
    Product2();
    TablesMultiply(1, E, 1, E);
    Product3();
    TablesMultiply(2, E2, 1, E);
    Product6();
    TablesMultiply(3, E3, 3, E3);
    Product12();
    TablesMultiply(6, E6, 6, E6);
    Product24();
    TablesMultiply(12, E12, 12, E12);
    Product30();
    TablesMultiply(24, E24, 6, E6);
    Product31();
    TablesMultiply(30, E30, 1, E);
    Product33();
    TablesMultiply(31, E31, 2, E2);
    Product62();
    TablesMultiply(31, E31, 31, E31);
    Product93();
    TablesMultiply(62, E62, 31, E31);
    Product99();
    TablesMultiply(93, E93, 6, E6);
  }

  lemma MiddleTables()
    ensures IsPow(310, E310) && IsPow(341, E341) && IsPow(682, E682)
  {
    SmallTables();
    hide *;
    Product186();
    TablesMultiply(93, E93, 93, E93);
    Product279();
    TablesMultiply(186, E186, 93, E93);
    Product310();
    TablesMultiply(279, E279, 31, E31);
    Product341();
    TablesMultiply(310, E310, 31, E31);
    Product682();
    TablesMultiply(341, E341, 341, E341);
  }

  lemma LargeTables()
    ensures IsPow(997, E997) && IsPow(998, E998) && IsPow(999, E999) && IsPow(1023, E1023)
  {
    SmallTables();
    MiddleTables();
    hide *;
    Product992();
    TablesMultiply(682, E682, 310, E310);
    Product995();
    TablesMultiply(992, E992, 3, E3);
    Product997();
    TablesMultiply(995, E995, 2, E2);
    Product998();
    TablesMultiply(997, E997, 1, E);
    Product999();
    TablesMultiply(998, E998, 1, E);
    Product1023();
    TablesMultiply(682, E682, 341, E341);
  }

  // ---- The order of e is 1023 ----

  lemma IdentityTable(v: bv10)
    ensures Apply(E1023, v) == v
  {
  }

  lemma NoFixed33(v: bv10)
    requires Apply(E33, v) == v
    ensures v == 0
  {
  }

  lemma NoFixed93(v: bv10)
    requires Apply(E93, v) == v
    ensures v == 0
  {
  }

  lemma NoFixed341(v: bv10)
    requires Apply(E341, v) == v
    ensures v == 0
  {
  }

  lemma FullTurn(v: bv10)
    ensures Pow(1023, v) == v
  {
    LargeTables();
    IdentityTable(v);
    hide Apply, Pow;
  }

  lemma {:induction false} Turns(n: nat, k: nat, v: bv10)
    requires Pow(n, v) == v
    ensures Pow(n * k, v) == v
    decreases k
  {
    hide Pow;
    if k == 0 {
      PowNothing(v);
      assert n * k == 0;
    } else {
      Turns(n, k - 1, v);
      assert n * k == n * (k - 1) + n;
      PowAdd(n * (k - 1), n, v);
    }
  }

  lemma PowNothing(v: bv10)
    ensures Pow(0, v) == v
  {
  }

  predicate PrimeOf1023(p: nat, q: nat) {
    (p == 3 && q == 341) || (p == 11 && q == 93) || (p == 31 && q == 33)
  }

  lemma NoDivisor(p: nat, q: nat, r: nat)
    requires PrimeOf1023(p, q) && 1 < r < p
    ensures p % r != 0
  {
    var m := p / r;
    DivModFacts(p, r);
    if r >= 6 && m >= 6 {
      MulMono(6, m, r);
    }
  }

  /** If e^(q * r) fixes `v`, and p * q = 1023 turns do, then so does e^q. */
  lemma {:induction false} Descend(p: nat, q: nat, r: nat, v: bv10)
    requires PrimeOf1023(p, q) && 0 < r < p && Pow(q * r, v) == v
    ensures Pow(q, v) == v
    decreases r
  {
    hide Pow;
    if r > 1 {
      NoDivisor(p, q, r);
      var m, rest := p / r, p % r;
      DivModFacts(p, r);
      assert p * q == (q * r) * m + q * rest;
      FullTurn(v);
      Turns(q * r, m, v);
      PowAdd(q * rest, (q * r) * m, v);
      Descend(p, q, rest, v);
    }
  }

  /** If e^k fixes `v` and the prime `p` of 1023 does not divide `k`, then
      e^(1023 / p) fixes `v`. */
  lemma PrimeTurn(p: nat, q: nat, k: nat, v: bv10)
    requires PrimeOf1023(p, q) && Pow(k, v) == v && k % p != 0
    ensures Pow(q, v) == v
  {
    hide Pow;
    var s, r := k / p, k % p;
    DivModFacts(k, p);
    assert k * q == (p * q) * s + q * r;
    Turns(k, q, v);
    FullTurn(v);
    Turns(1023, s, v);
    PowAdd(q * r, 1023 * s, v);
    Descend(p, q, r, v);
  }

  /** Only a multiple of 1023 turns gives back a non-zero element. */
  lemma FixedIsZero(k: nat, v: bv10)
    requires 0 < k < 1023 && Pow(k, v) == v
    ensures v == 0
  {
    SmallTables();
    MiddleTables();
    hide Apply, Pow;
    if k % 3 != 0 {
      PrimeTurn(3, 341, k, v);
      NoFixed341(v);
    } else if k % 11 != 0 {
      PrimeTurn(11, 93, k, v);
      NoFixed93(v);
    } else {
      PrimeTurn(31, 33, k, v);
      NoFixed33(v);
    }
  }
}
