/** Bech32: the checksum of BIP 173 (section "Bech32", subsection "Checksum").
    Symbols are 5-bit values; a state is six coefficients packed in 30 bits. */
module Bech32Checksum {
  const MASK30: bv32 := 0x3fff_ffff

  function Xor(a: bv32, b: bv32): bv32 {
    a ^ b
  }

  lemma XorAssoc(a: bv32, b: bv32, c: bv32)
    ensures Xor(Xor(a, b), c) == Xor(a, Xor(b, c))
  {
  }

  lemma XorComm(a: bv32, b: bv32)
    ensures Xor(a, b) == Xor(b, a)
  {
  }

  lemma XorSelf(a: bv32)
    ensures Xor(a, a) == 0 && Xor(a, 0) == a && Xor(0, a) == a
  {
  }

  lemma XorZero(a: bv32, b: bv32)
    ensures Xor(a, b) == 0 <==> a == b
  {
    hide Xor;
    XorSelf(a);
    XorSelf(b);
    XorAssoc(a, b, b);
  }

  lemma Exchange(a: bv32, b: bv32, c: bv32, d: bv32)
    ensures Xor(Xor(a, b), Xor(c, d)) == Xor(Xor(a, c), Xor(b, d))
  {
    hide Xor;
    XorAssoc(a, b, Xor(c, d));
    XorAssoc(b, c, d);
    XorComm(b, c);
    XorAssoc(c, b, d);
    XorAssoc(a, c, Xor(b, d));
  }

  // ---- One step ----

  function Pick(c0: bv32, bit: bv32, k: bv32): bv32 {
    if c0 & bit != 0 then k else 0
  }

  function Shifted(c: bv32): bv32 {
    (c & 0x1ff_ffff) << 5
  }

  function Top(c: bv32): bv32 {
    c >> 25
  }

  function Wide(v: bv5): bv32 {
    v as bv32
  }

  /** Add the generator multiples that the top coefficient calls for. */
  function Reduce(c: bv32, c0: bv32): bv32 {
    Xor(Xor(Xor(Xor(Xor(c,
      Pick(c0, 1, 0x3b6a57b2)),
      Pick(c0, 2, 0x26508e6d)),
      Pick(c0, 4, 0x1ea119fa)),
      Pick(c0, 8, 0x3d4233dd)),
      Pick(c0, 16, 0x2a1462b3))
  }

  /** One symbol: c(x) * x + v modulo the generator. */
  function Step(c: bv32, v: bv5): bv32 {
    Reduce(Xor(Shifted(c), Wide(v)), Top(c))
  }

  lemma BitXor(a: bv32, b: bv32, bit: bv32)
    requires bit == 1 || bit == 2 || bit == 4 || bit == 8 || bit == 16
    ensures (Xor(a, b) & bit != 0) <==> ((a & bit != 0) != (b & bit != 0))
  {
  }

  lemma PickLinear(a: bv32, b: bv32, bit: bv32, k: bv32)
    requires bit == 1 || bit == 2 || bit == 4 || bit == 8 || bit == 16
    ensures Pick(Xor(a, b), bit, k) == Xor(Pick(a, bit, k), Pick(b, bit, k))
  {
    hide Xor;
    BitXor(a, b, bit);
    XorSelf(k);
    XorSelf(0);
  }

  lemma PickStep(c: bv32, d: bv32, a: bv32, b: bv32, bit: bv32, k: bv32)
    requires bit == 1 || bit == 2 || bit == 4 || bit == 8 || bit == 16
    ensures Xor(Xor(c, d), Pick(Xor(a, b), bit, k)) == Xor(Xor(c, Pick(a, bit, k)), Xor(d, Pick(b, bit, k)))
  {
    hide Xor, Pick;
    PickLinear(a, b, bit, k);
    Exchange(c, d, Pick(a, bit, k), Pick(b, bit, k));
  }

  lemma ReduceLinear(c: bv32, d: bv32, a: bv32, b: bv32)
    ensures Reduce(Xor(c, d), Xor(a, b)) == Xor(Reduce(c, a), Reduce(d, b))
  {
    hide Xor, Pick;
    PickStep(c, d, a, b, 1, 0x3b6a57b2);
    var c1, d1 := Xor(c, Pick(a, 1, 0x3b6a57b2)), Xor(d, Pick(b, 1, 0x3b6a57b2));
    PickStep(c1, d1, a, b, 2, 0x26508e6d);
    var c2, d2 := Xor(c1, Pick(a, 2, 0x26508e6d)), Xor(d1, Pick(b, 2, 0x26508e6d));
    PickStep(c2, d2, a, b, 4, 0x1ea119fa);
    var c3, d3 := Xor(c2, Pick(a, 4, 0x1ea119fa)), Xor(d2, Pick(b, 4, 0x1ea119fa));
    PickStep(c3, d3, a, b, 8, 0x3d4233dd);
    var c4, d4 := Xor(c3, Pick(a, 8, 0x3d4233dd)), Xor(d3, Pick(b, 8, 0x3d4233dd));
    PickStep(c4, d4, a, b, 16, 0x2a1462b3);
  }

  lemma ShiftLinear(c: bv32, d: bv32)
    ensures Shifted(Xor(c, d)) == Xor(Shifted(c), Shifted(d)) && Top(Xor(c, d)) == Xor(Top(c), Top(d))
  {
  }

  lemma WideLinear(v: bv5, w: bv5)
    ensures Wide(v ^ w) == Xor(Wide(v), Wide(w))
  {
  }

  lemma StepLinear(c: bv32, d: bv32, v: bv5, w: bv5)
    ensures Step(Xor(c, d), v ^ w) == Xor(Step(c, v), Step(d, w))
  {
    hide Xor, Shifted, Wide, Top, Reduce;
    ShiftLinear(c, d);
    WideLinear(v, w);
    Exchange(Shifted(c), Shifted(d), Wide(v), Wide(w));
    ReduceLinear(Xor(Shifted(c), Wide(v)), Xor(Shifted(d), Wide(w)), Top(c), Top(d));
  }

  predicate Bits30(c: bv32) {
    c & MASK30 == c
  }

  lemma XorBits(a: bv32, b: bv32)
    requires Bits30(a) && Bits30(b)
    ensures Bits30(Xor(a, b))
  {
  }

  lemma PickBits(c0: bv32, bit: bv32, k: bv32)
    requires Bits30(k)
    ensures Bits30(Pick(c0, bit, k))
  {
  }

  lemma PartBits(c: bv32, v: bv5)
    ensures Bits30(Shifted(c)) && Bits30(Wide(v))
    ensures Bits30(0x3b6a57b2) && Bits30(0x26508e6d) && Bits30(0x1ea119fa) && Bits30(0x3d4233dd) && Bits30(0x2a1462b3)
  {
  }

  lemma StepBits(c: bv32, v: bv5)
    ensures Bits30(Step(c, v))
  {
    hide Xor, Shifted, Wide, Top, Pick, Bits30;
    PartBits(c, v);
    var c0, c1 := Top(c), Xor(Shifted(c), Wide(v));
    XorBits(Shifted(c), Wide(v));
    PickBits(c0, 1, 0x3b6a57b2);
    PickBits(c0, 2, 0x26508e6d);
    PickBits(c0, 4, 0x1ea119fa);
    PickBits(c0, 8, 0x3d4233dd);
    PickBits(c0, 16, 0x2a1462b3);
    var c2 := Xor(c1, Pick(c0, 1, 0x3b6a57b2));
    XorBits(c1, Pick(c0, 1, 0x3b6a57b2));
    var c3 := Xor(c2, Pick(c0, 2, 0x26508e6d));
    XorBits(c2, Pick(c0, 2, 0x26508e6d));
    var c4 := Xor(c3, Pick(c0, 4, 0x1ea119fa));
    XorBits(c3, Pick(c0, 4, 0x1ea119fa));
    XorBits(c4, Pick(c0, 8, 0x3d4233dd));
    XorBits(Xor(c4, Pick(c0, 8, 0x3d4233dd)), Pick(c0, 16, 0x2a1462b3));
  }

  /** The lowest coefficients of the five generator multiples are independent. */
  lemma Independent(c: bv32)
    requires Bits30(c)
    requires (((c & 0x1ff_ffff) << 5)
        ^ (if (c >> 25) & 1 != 0 then 0x3b6a57b2 else 0)
        ^ (if (c >> 25) & 2 != 0 then 0x26508e6d else 0)
        ^ (if (c >> 25) & 4 != 0 then 0x1ea119fa else 0)
        ^ (if (c >> 25) & 8 != 0 then 0x3d4233dd else 0)
        ^ (if (c >> 25) & 16 != 0 then 0x2a1462b3 else 0)) == 0
    ensures c == 0
  {
  }

  lemma XorIs(a: bv32, b: bv32)
    ensures Xor(a, b) == a ^ b
  {
  }

  /** Only the zero state goes to zero: a difference never dies out. */
  lemma StepInjective(c: bv32)
    requires Bits30(c) && Step(c, 0) == 0
    ensures c == 0
  {
    assert Wide(0) == 0;
    hide Xor, Wide;
    var c0 := Top(c);
    var c1 := Shifted(c);
    XorSelf(c1);
    var p1, p2, p3 := Pick(c0, 1, 0x3b6a57b2), Pick(c0, 2, 0x26508e6d), Pick(c0, 4, 0x1ea119fa);
    var p4, p5 := Pick(c0, 8, 0x3d4233dd), Pick(c0, 16, 0x2a1462b3);
    var c2 := Xor(c1, p1);
    var c3 := Xor(c2, p2);
    var c4 := Xor(c3, p3);
    var c5 := Xor(c4, p4);
    XorIs(c1, p1);
    XorIs(c2, p2);
    XorIs(c3, p3);
    XorIs(c4, p4);
    XorIs(c5, p5);
    Independent(c);
  }

  // ---- Sequences of symbols ----

  function Fold(c: bv32, s: seq<bv5>): bv32
    decreases |s|
  {
    if s == [] then c else Fold(Step(c, s[0]), s[1..])
  }

  function XorSymbol(v: bv5, w: bv5): bv5 {
    v ^ w
  }

  function XorSeq(x: seq<bv5>, y: seq<bv5>): (z: seq<bv5>)
    requires |x| == |y|
  {
    seq(|x|, i requires 0 <= i < |x| => XorSymbol(x[i], y[i]))
  }

  lemma {:induction false} FoldLinear(c: bv32, d: bv32, x: seq<bv5>, y: seq<bv5>)
    requires |x| == |y|
    ensures Fold(Xor(c, d), XorSeq(x, y)) == Xor(Fold(c, x), Fold(d, y))
    decreases |x|
  {
    hide Xor, Step;
    if x != [] {
      StepLinear(c, d, x[0], y[0]);
      assert XorSeq(x, y)[1..] == XorSeq(x[1..], y[1..]);
      FoldLinear(Step(c, x[0]), Step(d, y[0]), x[1..], y[1..]);
    }
  }

  lemma {:induction false} FoldAppend(c: bv32, x: seq<bv5>, y: seq<bv5>)
    ensures Fold(c, x + y) == Fold(Fold(c, x), y)
    decreases |x|
  {
    hide Step;
    if x == [] {
      assert x + y == y;
    } else {
      assert (x + y)[1..] == x[1..] + y;
      FoldAppend(Step(c, x[0]), x[1..], y);
    }
  }

  function Zeroes(n: nat): (s: seq<bv5>)
    ensures |s| == n
  {
    seq(n, _ => 0)
  }

  lemma {:induction false} FoldZeroes(c: bv32, n: nat)
    requires Bits30(c) && c != 0
    ensures Bits30(Fold(c, Zeroes(n))) && Fold(c, Zeroes(n)) != 0
    decreases n
  {
    if n > 0 {
      StepBits(c, 0);
      if Step(c, 0) == 0 {
        StepInjective(c);
      }
      hide Step, Bits30;
      assert Zeroes(n)[1..] == Zeroes(n - 1);
      FoldZeroes(Step(c, 0), n - 1);
    }
  }

  lemma {:induction false} FoldNothing(n: nat)
    ensures Fold(0, Zeroes(n)) == 0
  {
    if n > 0 {
      assert Step(0, 0) == 0 by {
        SmallStep(0, 0);
      }
      hide Step;
      assert Zeroes(n)[1..] == Zeroes(n - 1);
      FoldNothing(n - 1);
    }
  }

  // ---- Six symbols fill a state exactly ----

  function Append(c: bv32, v: bv5): bv32 {
    (c << 5) | (v as bv32)
  }

  lemma SmallTop(c: bv32, v: bv5)
    requires c & 0x1ff_ffff == c
    ensures Top(c) == 0 && Xor(Shifted(c), Wide(v)) == Append(c, v)
  {
  }

  /** Below 25 bits nothing is reduced. */
  lemma SmallStep(c: bv32, v: bv5)
    requires c & 0x1ff_ffff == c
    ensures Step(c, v) == Append(c, v)
  {
    hide Top, Shifted, Wide, Xor, Append, Reduce;
    SmallTop(c, v);
    NoReduction(Append(c, v));
  }

  lemma NoReduction(x: bv32)
    ensures Reduce(x, 0) == x
  {
    assert Pick(0, 1, 0x3b6a57b2) == 0 && Pick(0, 2, 0x26508e6d) == 0 && Pick(0, 4, 0x1ea119fa) == 0
        && Pick(0, 8, 0x3d4233dd) == 0 && Pick(0, 16, 0x2a1462b3) == 0;
    hide Xor, Pick;
    XorSelf(x);
  }

  function Pack(e0: bv5, e1: bv5, e2: bv5, e3: bv5, e4: bv5, e5: bv5): bv32 {
    Append(Append(Append(Append(Append(Append(0, e0), e1), e2), e3), e4), e5)
  }

  lemma SmallPacks(e0: bv5, e1: bv5, e2: bv5, e3: bv5, e4: bv5)
    ensures var p1 := Append(0, e0);
            var p2 := Append(p1, e1);
            var p3 := Append(p2, e2);
            var p4 := Append(p3, e3);
            var p5 := Append(p4, e4);
            && p1 & 0x1ff_ffff == p1 && p2 & 0x1ff_ffff == p2 && p3 & 0x1ff_ffff == p3
            && p4 & 0x1ff_ffff == p4 && p5 & 0x1ff_ffff == p5
  {
  }

  /** The i-th 5-bit group of a state, the highest first. */
  function Group(c: bv32, i: nat): (g: bv5)
    requires i < 6
  {
    match i
    case 0 => ((c >> 25) & 31) as bv5
    case 1 => ((c >> 20) & 31) as bv5
    case 2 => ((c >> 15) & 31) as bv5
    case 3 => ((c >> 10) & 31) as bv5
    case 4 => ((c >> 5) & 31) as bv5
    case _ => (c & 31) as bv5
  }

  function Groups(c: bv32): (s: seq<bv5>)
    ensures |s| == 6
  {
    [Group(c, 0), Group(c, 1), Group(c, 2), Group(c, 3), Group(c, 4), Group(c, 5)]
  }

  lemma PackGroups(c: bv32)
    requires Bits30(c)
    ensures Pack(Group(c, 0), Group(c, 1), Group(c, 2), Group(c, 3), Group(c, 4), Group(c, 5)) == c
  {
  }

  lemma GroupsPack(e0: bv5, e1: bv5, e2: bv5, e3: bv5, e4: bv5, e5: bv5)
    ensures var c := Pack(e0, e1, e2, e3, e4, e5);
            && Bits30(c) && Group(c, 0) == e0 && Group(c, 1) == e1 && Group(c, 2) == e2
            && Group(c, 3) == e3 && Group(c, 4) == e4 && Group(c, 5) == e5
  {
  }

  lemma SmallSteps(e0: bv5, e1: bv5, e2: bv5, e3: bv5, e4: bv5, e5: bv5)
    ensures Step(Step(Step(Step(Step(Step(0, e0), e1), e2), e3), e4), e5) == Pack(e0, e1, e2, e3, e4, e5)
  {
    hide Step, Append;
    SmallPacks(e0, e1, e2, e3, e4);
    var p1 := Append(0, e0);
    var p2 := Append(p1, e1);
    var p3 := Append(p2, e2);
    var p4 := Append(p3, e3);
    var p5 := Append(p4, e4);
    SmallStep(0, e0);
    SmallStep(p1, e1);
    SmallStep(p2, e2);
    SmallStep(p3, e3);
    SmallStep(p4, e4);
    SmallStep(p5, e5);
  }

  lemma FoldSix(s: seq<bv5>)
    requires |s| == 6
    ensures Fold(0, s) == Pack(s[0], s[1], s[2], s[3], s[4], s[5])
  {
    hide Step, Pack;
    SmallSteps(s[0], s[1], s[2], s[3], s[4], s[5]);
    assert s[1..][1..] == s[2..] && s[2..][1..] == s[3..] && s[3..][1..] == s[4..] && s[4..][1..] == s[5..];
    var c1 := Step(0, s[0]);
    assert Fold(0, s) == Fold(c1, s[1..]);
    var c2 := Step(c1, s[1]);
    assert Fold(c1, s[1..]) == Fold(c2, s[2..]);
    var c3 := Step(c2, s[2]);
    assert Fold(c2, s[2..]) == Fold(c3, s[3..]);
    var c4 := Step(c3, s[3]);
    assert Fold(c3, s[3..]) == Fold(c4, s[4..]);
    var c5 := Step(c4, s[4]);
    assert Fold(c4, s[4..]) == Fold(c5, s[5..]);
    var c6 := Step(c5, s[5]);
    assert s[5..][1..] == [];
    assert Fold(c5, s[5..]) == Fold(c6, []);
  }

  // ---- Creating and verifying ----

  /** The six symbols that complete `enc`. */
  function Checksum(enc: seq<bv5>): (r: seq<bv5>)
    ensures |r| == 6
  {
    Groups(Xor(Fold(1, enc + Zeroes(6)), 1))
  }

  lemma {:induction false} FoldBits(c: bv32, s: seq<bv5>)
    requires Bits30(c)
    ensures Bits30(Fold(c, s))
    decreases |s|
  {
    hide Step, Bits30;
    if s != [] {
      StepBits(c, s[0]);
      FoldBits(Step(c, s[0]), s[1..]);
    }
  }

  /** What six last symbols do is an exclusive or with their packed value. */
  lemma LastSix(enc: seq<bv5>, r: seq<bv5>)
    requires |r| == 6
    ensures Fold(1, enc + r) == Xor(Fold(1, enc + Zeroes(6)), Pack(r[0], r[1], r[2], r[3], r[4], r[5]))
  {
    hide Xor, Step, Pack;
    var c := Fold(1, enc);
    FoldAppend(1, enc, r);
    FoldAppend(1, enc, Zeroes(6));
    XorSelf(c);
    ZeroesNeutral(r);
    FoldLinear(c, 0, Zeroes(6), r);
    FoldSix(r);
  }

  lemma ZeroesNeutral(r: seq<bv5>)
    ensures XorSeq(Zeroes(|r|), r) == r
  {
    forall i | 0 <= i < |r|
      ensures XorSeq(Zeroes(|r|), r)[i] == r[i]
    {
      NeutralSymbol(r[i]);
    }
  }

  lemma NeutralSymbol(v: bv5)
    ensures 0 ^ v == v && v ^ v == 0
  {
  }

  lemma SymbolsDiffer(v: bv5, w: bv5)
    ensures XorSymbol(v, w) == 0 <==> v == w
  {
  }

  lemma OneBits()
    ensures Bits30(1)
  {
  }

  lemma ChecksumBits(enc: seq<bv5>)
    ensures Bits30(Xor(Fold(1, enc + Zeroes(6)), 1))
  {
    hide Xor, Step, Bits30;
    OneBits();
    FoldBits(1, enc + Zeroes(6));
    XorBits(Fold(1, enc + Zeroes(6)), 1);
  }

  /** A created checksum verifies. */
  lemma ChecksumVerifies(enc: seq<bv5>)
    ensures Fold(1, enc + Checksum(enc)) == 1
  {
    hide Xor, Step, Pack, Bits30, Group, Fold;
    var m := Fold(1, enc + Zeroes(6));
    ChecksumBits(enc);
    PackGroups(Xor(m, 1));
    LastSix(enc, Checksum(enc));
    XorAssoc(m, m, 1);
    XorSelf(m);
    XorSelf(1);
  }

  /** No other six symbols verify. */
  lemma ChecksumUnique(enc: seq<bv5>, r: seq<bv5>)
    requires |r| == 6 && Fold(1, enc + r) == 1
    ensures r == Checksum(enc)
  {
    hide Xor, Step, Pack, Bits30, Group, Fold;
    var m := Fold(1, enc + Zeroes(6));
    var p := Pack(r[0], r[1], r[2], r[3], r[4], r[5]);
    LastSix(enc, r);
    XorAssoc(m, m, p);
    XorSelf(m);
    XorSelf(p);
    GroupsPack(r[0], r[1], r[2], r[3], r[4], r[5]);
  }

  // ---- Detecting errors ----

  /** Every change confined to six consecutive symbols changes the checksum, for
      sequences of any length and from any start. */
  lemma BurstDetected(c: bv32, x: seq<bv5>, y: seq<bv5>, i: nat)
    requires |x| == |y| && x != y && i <= |x|
    requires forall j | 0 <= j < |x| && !(i <= j < i + 6) :: x[j] == y[j]
    ensures Fold(c, x) != Fold(c, y)
  {
    hide Xor, Step, Fold, XorSeq, Zeroes;
    var e := if i + 6 <= |x| then i + 6 else |x|;
    var mid := ErrorWindow(x, y, i, e);
    XorSelf(c);
    FoldLinear(c, c, x, y);
    XorZero(Fold(c, x), Fold(c, y));
    FoldAppend(0, Zeroes(i), mid + Zeroes(|x| - e));
    FoldNothing(i);
    FoldAppend(0, mid, Zeroes(|x| - e));
    ShortNonZero(mid);
    FoldZeroes(Fold(0, mid), |x| - e);
  }

  /** The difference of two sequences that agree outside a window. */
  lemma ErrorWindow(x: seq<bv5>, y: seq<bv5>, i: nat, e: nat) returns (mid: seq<bv5>)
    requires |x| == |y| && x != y && i <= e <= |x|
    requires forall j | 0 <= j < |x| && !(i <= j < e) :: x[j] == y[j]
    ensures XorSeq(x, y) == Zeroes(i) + (mid + Zeroes(|x| - e))
    ensures |mid| == e - i && mid != Zeroes(e - i)
  {
    var d := XorSeq(x, y);
    mid := d[i..e];
    SeqsDiffer(x, y);
    hide XorSeq;
    Split(d, 0, i, e, Zeroes(i), Zeroes(e - i), Zeroes(|x| - e));
  }

  lemma SeqsDiffer(x: seq<bv5>, y: seq<bv5>)
    requires |x| == |y|
    ensures |XorSeq(x, y)| == |x|
    ensures forall j | 0 <= j < |x| :: XorSeq(x, y)[j] == 0 <==> x[j] == y[j]
    ensures x != y ==> exists j :: 0 <= j < |x| && XorSeq(x, y)[j] != 0
  {
    forall j | 0 <= j < |x|
      ensures XorSeq(x, y)[j] == 0 <==> x[j] == y[j]
    {
      SymbolsDiffer(x[j], y[j]);
    }
  }

  lemma Split<T>(d: seq<T>, z: T, i: nat, e: nat, left: seq<T>, mid: seq<T>, right: seq<T>)
    requires i <= e <= |d| && |left| == i && |mid| == e - i && |right| == |d| - e
    requires (forall j | 0 <= j < i :: d[j] == z) && (forall j | e <= j < |d| :: d[j] == z)
    requires exists j :: 0 <= j < |d| && d[j] != z
    requires (forall j | 0 <= j < i :: left[j] == z) && (forall j | 0 <= j < e - i :: mid[j] == z)
    requires forall j | 0 <= j < |right| :: right[j] == z
    ensures d == left + (d[i..e] + right) && d[i..e] != mid
  {
    var j :| 0 <= j < |d| && d[j] != z;
    assert d[i..e][j - i] == d[j];
    assert d[..i] == left && d[e..] == right;
  }

  lemma SixNonZero(t: seq<bv5>)
    requires |t| == 6 && t != Zeroes(6)
    ensures Fold(0, t) != 0 && Bits30(Fold(0, t))
  {
    hide Step, Bits30, Pack, Group, Fold;
    FoldSix(t);
    GroupsPack(t[0], t[1], t[2], t[3], t[4], t[5]);
    var c := Fold(0, t);
    assert t == Groups(c);
    ZeroGroups();
    var six := Zeroes(6);
    assert c == 0 ==> Groups(c) == six;
  }

  /** At most six symbols, not all zero, leave a non-zero state. */
  lemma ShortNonZero(s: seq<bv5>)
    requires |s| <= 6 && s != Zeroes(|s|)
    ensures Fold(0, s) != 0 && Bits30(Fold(0, s))
  {
    hide Step, Bits30, Fold;
    var z := 6 - |s|;
    var t := Zeroes(z) + s;
    FoldAppend(0, Zeroes(z), s);
    FoldNothing(z);
    assert s == t[z..] && Zeroes(6)[z..] == Zeroes(|s|);
    SixNonZero(t);
  }

  lemma ZeroGroups()
    ensures Group(0, 0) == 0 && Group(0, 1) == 0 && Group(0, 2) == 0
    ensures Group(0, 3) == 0 && Group(0, 4) == 0 && Group(0, 5) == 0
  {
  }

  lemma FoldSnoc(c: bv32, s: seq<bv5>, k: nat)
    requires k < |s|
    ensures Fold(c, s[..k + 1]) == Step(Fold(c, s[..k]), s[k])
  {
    hide Step;
    assert s[..k + 1] == s[..k] + [s[k]];
    FoldAppend(c, s[..k], [s[k]]);
    assert [s[k]][1..] == [];
  }

  /** The loop body of PolyMod, conditional on the bits of the top coefficient. */
  method StepInPlace(c: bv32, v: bv5) returns (r: bv32)
    ensures r == Step(c, v)
  {
    hide Xor;
    var c0 := c >> 25;
    r := ((c & 0x1ff_ffff) << 5) ^ (v as bv32);
    XorIs(Shifted(c), Wide(v));
    r := Conditional(r, c0, 1, 0x3b6a57b2);
    r := Conditional(r, c0, 2, 0x26508e6d);
    r := Conditional(r, c0, 4, 0x1ea119fa);
    r := Conditional(r, c0, 8, 0x3d4233dd);
    r := Conditional(r, c0, 16, 0x2a1462b3);
  }

  /** `if (c0 & bit) c ^= k;` */
  method Conditional(c: bv32, c0: bv32, bit: bv32, k: bv32) returns (r: bv32)
    ensures r == Xor(c, Pick(c0, bit, k))
  {
    r := c;
    if c0 & bit != 0 {
      r := r ^ k;
    }
    XorSelf(c);
  }

  method PolyMod(v: seq<bv5>) returns (c: bv32)
    ensures c == Fold(1, v)
  {
    hide Step, Fold;
    c := 1;
    var i := 0;
    FoldNone(1, v);
    while i < |v|
      invariant 0 <= i <= |v| && c == Fold(1, v[..i])
    {
      FoldSnoc(1, v, i);
      c := StepInPlace(c, v[i]);
      i := i + 1;
    }
    assert v[..i] == v;
  }

  lemma FoldNone(c: bv32, v: seq<bv5>)
    ensures Fold(c, v[..0]) == c
  {
  }
}

/** The string codec. */
module Bech32 {
  import opened Options
  import opened Bech32Checksum
  import opened Bech32Errors

  /** A byte of a string. */
  type octet = c: char | c <= '\U{ff}'

  /** The character set for encoding, eight symbols at a time. */
  function Charset(v: bv5): (c: octet) {
    if v < 8 then Charset0(v) else if v < 16 then Charset1(v) else if v < 24 then Charset2(v) else Charset3(v)
  }

  function Charset0(v: bv5): (c: octet) {
    if v == 0 then 'q' else if v == 1 then 'p' else if v == 2 then 'z' else if v == 3 then 'r'
    else if v == 4 then 'y' else if v == 5 then '9' else if v == 6 then 'x' else '8'
  }

  function Charset1(v: bv5): (c: octet) {
    if v == 8 then 'g' else if v == 9 then 'f' else if v == 10 then '2' else if v == 11 then 't'
    else if v == 12 then 'v' else if v == 13 then 'd' else if v == 14 then 'w' else '0'
  }

  function Charset2(v: bv5): (c: octet) {
    if v == 16 then 's' else if v == 17 then '3' else if v == 18 then 'j' else if v == 19 then 'n'
    else if v == 20 then '5' else if v == 21 then '4' else if v == 22 then 'k' else 'h'
  }

  function Charset3(v: bv5): (c: octet) {
    if v == 24 then 'c' else if v == 25 then 'e' else if v == 26 then '6' else if v == 27 then 'm'
    else if v == 28 then 'u' else if v == 29 then 'a' else if v == 30 then '7' else 'l'
  }

  /** Convert to lower case. */
  function LowerCase(c: octet): (l: octet) {
    if 'A' <= c <= 'Z' then (c as int - 'A' as int + 'a' as int) as char else c
  }

  /** The character set for decoding, which takes both cases. */
  function CharsetRev(c: octet): (r: Option<bv5>) {
    RevLower(LowerCase(c))
  }

  function RevLower(l: octet): (r: Option<bv5>) {
    if Rev0(l).Some? then Rev0(l) else if Rev1(l).Some? then Rev1(l)
    else if Rev2(l).Some? then Rev2(l) else Rev3(l)
  }

  function Rev0(l: octet): (r: Option<bv5>) {
    if l == 'q' then Some(0) else if l == 'p' then Some(1) else if l == 'z' then Some(2)
    else if l == 'r' then Some(3) else if l == 'y' then Some(4) else if l == '9' then Some(5)
    else if l == 'x' then Some(6) else if l == '8' then Some(7) else None
  }

  function Rev1(l: octet): (r: Option<bv5>) {
    if l == 'g' then Some(8) else if l == 'f' then Some(9) else if l == '2' then Some(10)
    else if l == 't' then Some(11) else if l == 'v' then Some(12) else if l == 'd' then Some(13)
    else if l == 'w' then Some(14) else if l == '0' then Some(15) else None
  }

  function Rev2(l: octet): (r: Option<bv5>) {
    if l == 's' then Some(16) else if l == '3' then Some(17) else if l == 'j' then Some(18)
    else if l == 'n' then Some(19) else if l == '5' then Some(20) else if l == '4' then Some(21)
    else if l == 'k' then Some(22) else if l == 'h' then Some(23) else None
  }

  function Rev3(l: octet): (r: Option<bv5>) {
    if l == 'c' then Some(24) else if l == 'e' then Some(25) else if l == '6' then Some(26)
    else if l == 'm' then Some(27) else if l == 'u' then Some(28) else if l == 'a' then Some(29)
    else if l == '7' then Some(30) else if l == 'l' then Some(31) else None
  }

  predicate Printable(c: octet) {
    '!' <= c <= '~'
  }

  predicate IsUpper(c: octet) {
    'A' <= c <= 'Z'
  }

  lemma Inverse0(v: bv5)
    requires v < 8
    ensures RevLower(Charset0(v)) == Some(v)
    ensures Charset0(v) != '1' && Printable(Charset0(v)) && !IsUpper(Charset0(v))
  {
  }

  lemma Back0(l: octet)
    requires Rev0(l).Some?
    ensures Charset(Rev0(l).value) == l && l != '1'
  {
  }

  lemma Inverse1(v: bv5)
    requires 8 <= v < 16
    ensures RevLower(Charset1(v)) == Some(v)
    ensures Charset1(v) != '1' && Printable(Charset1(v)) && !IsUpper(Charset1(v))
  {
  }

  lemma Back1(l: octet)
    requires Rev1(l).Some?
    ensures Charset(Rev1(l).value) == l && l != '1'
  {
  }

  lemma Inverse2(v: bv5)
    requires 16 <= v < 24
    ensures RevLower(Charset2(v)) == Some(v)
    ensures Charset2(v) != '1' && Printable(Charset2(v)) && !IsUpper(Charset2(v))
  {
  }

  lemma Back2(l: octet)
    requires Rev2(l).Some?
    ensures Charset(Rev2(l).value) == l && l != '1'
  {
  }

  lemma Inverse3(v: bv5)
    requires 24 <= v
    ensures RevLower(Charset3(v)) == Some(v)
    ensures Charset3(v) != '1' && Printable(Charset3(v)) && !IsUpper(Charset3(v))
  {
  }

  lemma Back3(l: octet)
    requires Rev3(l).Some?
    ensures Charset(Rev3(l).value) == l && l != '1'
  {
  }

  lemma CharsetInverse(v: bv5)
    ensures CharsetRev(Charset(v)) == Some(v)
    ensures Charset(v) != '1' && Printable(Charset(v)) && !IsUpper(Charset(v))
  {
    hide Charset0, Charset1, Charset2, Charset3, RevLower;
    if v < 8 {
      Inverse0(v);
    } else if v < 16 {
      Inverse1(v);
    } else if v < 24 {
      Inverse2(v);
    } else {
      Inverse3(v);
    }
  }

  lemma RevInverse(c: octet)
    requires CharsetRev(c).Some?
    ensures Charset(CharsetRev(c).value) == LowerCase(c) && c != '1'
  {
    hide Charset, Rev0, Rev1, Rev2, Rev3;
    var l := LowerCase(c);
    if Rev0(l).Some? {
      Back0(l);
    } else if Rev1(l).Some? {
      Back1(l);
    } else if Rev2(l).Some? {
      Back2(l);
    } else {
      Back3(l);
    }
  }

  // ---- What is computed ----

  function HighBits(c: octet): bv5 {
    (c as int / 32) as bv5
  }

  function LowBits(c: octet): bv5 {
    (c as int % 32) as bv5
  }

  /** The human-readable part as checksum input: high bits, a zero, low bits. */
  function Expanded(hrp: seq<octet>): (r: seq<bv5>)
    ensures |r| == 2 * |hrp| + 1
  {
    seq(|hrp|, i requires 0 <= i < |hrp| => HighBits(hrp[i])) + [0]
    + seq(|hrp|, i requires 0 <= i < |hrp| => LowBits(hrp[i]))
  }

  lemma FiveBits(n: nat)
    requires n < 32
    ensures (n as bv5) as int == n
  {
  }

  lemma SameCharacter(c: octet, d: octet)
    requires HighBits(c) == HighBits(d) && LowBits(c) == LowBits(d)
    ensures c == d
  {
    FiveBits(c as int / 32);
    FiveBits(d as int / 32);
    FiveBits(c as int % 32);
    FiveBits(d as int % 32);
  }

  /** Different human-readable parts give different checksum input. */
  lemma ExpandedInjective(g: seq<octet>, h: seq<octet>)
    requires Expanded(g) == Expanded(h)
    ensures g == h
  {
    hide HighBits, LowBits;
    var n := |g|;
    forall i | 0 <= i < n
      ensures g[i] == h[i]
    {
      assert Expanded(g)[i] == Expanded(h)[i];
      assert Expanded(g)[n + 1 + i] == Expanded(h)[n + 1 + i];
      SameCharacter(g[i], h[i]);
    }
  }

  predicate Verified(hrp: seq<octet>, values: seq<bv5>) {
    Fold(1, Expanded(hrp) + values) == 1
  }

  function Chars(values: seq<bv5>): (s: seq<octet>)
    ensures |s| == |values| && forall i | 0 <= i < |s| :: s[i] == Charset(values[i])
  {
    seq(|values|, i requires 0 <= i < |values| => Charset(values[i]))
  }

  function Encoded(hrp: seq<octet>, values: seq<bv5>): (s: seq<octet>) {
    hrp + ['1'] + Chars(values + Checksum(Expanded(hrp) + values))
  }

  function Lower(s: seq<octet>): (l: seq<octet>)
    ensures |l| == |s| && forall i | 0 <= i < |s| :: l[i] == LowerCase(s[i])
  {
    seq(|s|, i requires 0 <= i < |s| => LowerCase(s[i]))
  }

  predicate IsLower(c: octet) {
    'a' <= c <= 'z'
  }

  /** The position of the last '1', -1 if there is none. */
  function LastOne(s: seq<octet>): (p: int)
    ensures -1 <= p < |s| && (p >= 0 ==> s[p] == '1') && forall i | p < i < |s| :: s[i] != '1'
  {
    if s == [] then -1 else if s[|s| - 1] == '1' then |s| - 1 else LastOne(s[..|s| - 1])
  }

  predicate OneCase(s: seq<octet>) {
    !((exists i | 0 <= i < |s| :: IsLower(s[i])) && (exists i | 0 <= i < |s| :: IsUpper(s[i])))
  }

  /** Printable characters of one case, at most 90, and a separator with a
      non-empty part before it and at least six characters after it. */
  predicate Framed(s: seq<octet>) {
    && (forall i | 0 <= i < |s| :: Printable(s[i]))
    && OneCase(s)
    && |s| <= 90
    && 0 < LastOne(s) && LastOne(s) + 7 <= |s|
  }

  predicate AllSymbols(s: seq<octet>) {
    forall i | 0 <= i < |s| :: CharsetRev(s[i]).Some?
  }

  function Values(s: seq<octet>): (v: seq<bv5>)
    requires AllSymbols(s)
    ensures |v| == |s| && forall i | 0 <= i < |s| :: v[i] == CharsetRev(s[i]).value
  {
    seq(|s|, i requires 0 <= i < |s| => CharsetRev(s[i]).value)
  }

  /** The human-readable part and the data of an accepted string. */
  function Decoded(s: seq<octet>): (r: Option<(seq<octet>, seq<bv5>)>) {
    if !Framed(s) then None else
      var p := LastOne(s);
      var hrp, tail := Lower(s[..p]), s[p + 1..];
      if !AllSymbols(tail) || !Verified(hrp, Values(tail)) then None
      else Some((hrp, Values(tail)[..|tail| - 6]))
  }

  // ---- Round trips and errors ----

  lemma {:induction false} LastOneIs(s: seq<octet>, p: nat)
    requires p < |s| && s[p] == '1' && forall i | p < i < |s| :: s[i] != '1'
    ensures LastOne(s) == p
  {
  }

  /** A human-readable part the standard allows, in lower case. */
  predicate ValidHrp(hrp: seq<octet>) {
    hrp != [] && forall i | 0 <= i < |hrp| :: Printable(hrp[i]) && !IsUpper(hrp[i])
  }

  lemma CharsFacts(v: seq<bv5>)
    ensures AllSymbols(Chars(v)) && Values(Chars(v)) == v
    ensures forall i | 0 <= i < |v| :: Chars(v)[i] != '1' && Printable(Chars(v)[i]) && !IsUpper(Chars(v)[i])
  {
    hide Charset, CharsetRev, IsUpper, Printable;
    forall i | 0 <= i < |v|
      ensures CharsetRev(Chars(v)[i]) == Some(v[i])
      ensures Chars(v)[i] != '1' && Printable(Chars(v)[i]) && !IsUpper(Chars(v)[i])
    {
      CharsetInverse(v[i]);
    }
  }

  /** Decoding inverts encoding, up to 90 characters in all. */
  lemma DecodeEncode(hrp: seq<octet>, values: seq<bv5>)
    requires ValidHrp(hrp) && |hrp| + 1 + |values| + 6 <= 90
    ensures Decoded(Encoded(hrp, values)) == Some((hrp, values))
  {
    hide Charset, CharsetRev, Checksum, Expanded, Fold;
    var enc := Expanded(hrp) + values;
    var v := values + Checksum(enc);
    var s := Encoded(hrp, values);
    CharsFacts(v);
    LastOneIs(s, |hrp|);
    assert s[..|hrp|] == hrp && s[|hrp| + 1..] == Chars(v);
    assert Lower(hrp) == hrp;
    assert forall i | 0 <= i < |s| :: Printable(s[i]) && !IsUpper(s[i]);
    ChecksumVerifies(enc);
    assert enc + Checksum(enc) == Expanded(hrp) + v;
    assert v[..|v| - 6] == values;
  }

  /** Encoding what was decoded gives the string back in lower case. */
  lemma EncodeDecode(s: seq<octet>)
    requires Decoded(s).Some?
    ensures var (hrp, values) := Decoded(s).value; Encoded(hrp, values) == Lower(s) && ValidHrp(hrp)
  {
    hide Charset, CharsetRev, Checksum, Expanded, Fold;
    var p := LastOne(s);
    var hrp, tail := Lower(s[..p]), s[p + 1..];
    var v := Values(tail);
    var n := |v| - 6;
    assert v == v[..n] + v[n..];
    assert Expanded(hrp) + v == (Expanded(hrp) + v[..n]) + v[n..];
    ChecksumUnique(Expanded(hrp) + v[..n], v[n..]);
    forall i | 0 <= i < |tail|
      ensures Charset(v[i]) == LowerCase(tail[i])
    {
      RevInverse(tail[i]);
    }
    LowerHrp(s[..p]);
    assert Encoded(hrp, v[..n]) == hrp + ['1'] + Chars(v);
    assert Lower(s) == hrp + ['1'] + Chars(v);
  }

  lemma LowerHrp(h: seq<octet>)
    requires h != [] && forall i | 0 <= i < |h| :: Printable(h[i])
    ensures ValidHrp(Lower(h))
  {
  }

  /** A change confined to six consecutive data symbols never verifies. */
  lemma BurstRejected(hrp: seq<octet>, x: seq<bv5>, y: seq<bv5>, i: nat)
    requires Verified(hrp, x) && |x| == |y| && x != y && i <= |x|
    requires forall j | 0 <= j < |x| && !(i <= j < i + 6) :: x[j] == y[j]
    ensures !Verified(hrp, y)
  {
    hide Fold, Expanded;
    var e := Expanded(hrp);
    assert x == (e + x)[|e|..] && y == (e + y)[|e|..];
    BurstDetected(1, e + x, e + y, |e| + i);
  }

  /** The same for strings: with the separator in place, a changed run of six
      data characters is refused, unless only their case changed. */
  lemma BurstRefused(s: seq<octet>, t: seq<octet>, i: nat)
    requires Decoded(s).Some? && |t| == |s| && 0 <= LastOne(t) == LastOne(s) < i <= |s|
    requires Lower(t) != Lower(s)
    requires forall j | 0 <= j < |s| && !(i <= j < i + 6) :: t[j] == s[j]
    ensures Decoded(t).None?
  {
    var p := LastOne(s);
    var x, y := s[p + 1..], t[p + 1..];
    hide *;
    SameHead(s, t, p);
    Parts(s);
    Parts(t);
    SameTail(s, t, p);
    if AllSymbols(y) {
      SameValues(x, y);
      SameOutside(s, t, p, i);
      BurstRejected(Lower(s[..p]), Values(x), Values(y), i - p - 1);
    }
  }

  /** Any three wrong data symbols are detected, up to a length of 1023. */
  lemma ErrorsRejected(hrp: seq<octet>, x: seq<bv5>, y: seq<bv5>, i: int, j: int, k: int)
    requires Verified(hrp, x) && |x| == |y| && x != y && AgreeBut(x, y, i, j, k)
    requires |Expanded(hrp)| + |x| <= 1023
    ensures !Verified(hrp, y)
  {
    hide Fold, Expanded;
    var e := Expanded(hrp);
    assert x == (e + x)[|e|..] && y == (e + y)[|e|..];
    ThreeErrorsDetected(1, e + x, e + y, |e| + i, |e| + j, |e| + k);
  }

  /** The same for strings, whose length Decode limits to 90: with the separator
      in place, three changed data characters are refused, unless only their
      case changed. */
  lemma ErrorsRefused(s: seq<octet>, t: seq<octet>, i: nat, j: nat, k: nat)
    requires Decoded(s).Some? && |t| == |s| && 0 <= LastOne(t) == LastOne(s)
    requires LastOne(s) < i && LastOne(s) < j && LastOne(s) < k && Lower(t) != Lower(s)
    requires forall m | 0 <= m < |s| && m != i && m != j && m != k :: t[m] == s[m]
    ensures Decoded(t).None?
  {
    var p := LastOne(s);
    var x, y := s[p + 1..], t[p + 1..];
    DecodedSize(s);
    hide *;
    SameHead(s, t, p);
    Parts(s);
    Parts(t);
    SameTail(s, t, p);
    if AllSymbols(y) {
      SameValues(x, y);
      SameBut(s, t, p, i, j, k);
      ErrorsRejected(Lower(s[..p]), Values(x), Values(y), i - p - 1, j - p - 1, k - p - 1);
    }
  }

  lemma DecodedSize(s: seq<octet>)
    requires Decoded(s).Some?
    ensures var p := LastOne(s); |Expanded(Lower(s[..p]))| + |s| - p - 1 <= 1023
  {
    hide Charset, CharsetRev, Fold, LowerCase, AllSymbols;
  }

  lemma SameBut(s: seq<octet>, t: seq<octet>, p: nat, i: nat, j: nat, k: nat)
    requires |s| == |t| && p < |s| && p < i && p < j && p < k && AllSymbols(s[p + 1..]) && AllSymbols(t[p + 1..])
    requires forall m | 0 <= m < |s| && m != i && m != j && m != k :: t[m] == s[m]
    ensures var (v, w) := (Values(s[p + 1..]), Values(t[p + 1..]));
      |v| == |w| == |s| - p - 1 && AgreeBut(v, w, i - p - 1, j - p - 1, k - p - 1)
  {
    hide CharsetRev;
    var x, y := s[p + 1..], t[p + 1..];
    forall m | 0 <= m < |x| && m != i - p - 1 && m != j - p - 1 && m != k - p - 1 ensures Values(x)[m] == Values(y)[m] {
      assert x[m] == s[p + 1 + m] && y[m] == t[p + 1 + m];
    }
  }

  lemma Parts(s: seq<octet>)
    requires LastOne(s) >= 0
    ensures var p := LastOne(s);
            var tail := s[p + 1..];
            Decoded(s).Some? ==> AllSymbols(tail) && Verified(Lower(s[..p]), Values(tail))
  {
    hide Charset, CharsetRev, Fold, Expanded, LowerCase, AllSymbols;
  }

  lemma SameHead(s: seq<octet>, t: seq<octet>, p: nat)
    requires |s| == |t| && p < |s| && forall j | 0 <= j <= p :: t[j] == s[j]
    ensures s[..p] == t[..p] && s[..p + 1] == t[..p + 1]
  {
  }

  lemma SameOutside(s: seq<octet>, t: seq<octet>, p: nat, i: nat)
    requires |s| == |t| && p < |s| && p < i && AllSymbols(s[p + 1..]) && AllSymbols(t[p + 1..])
    requires forall j | 0 <= j < |s| && !(i <= j < i + 6) :: t[j] == s[j]
    ensures var (v, w) := (Values(s[p + 1..]), Values(t[p + 1..]));
      |v| == |w| == |s| - p - 1 && forall j | 0 <= j < |v| && !(i - p - 1 <= j < i - p - 1 + 6) :: v[j] == w[j]
  {
    hide CharsetRev;
    var x, y := s[p + 1..], t[p + 1..];
    forall j | 0 <= j < |x| && !(i - p - 1 <= j < i - p - 1 + 6) ensures Values(x)[j] == Values(y)[j] {
      assert x[j] == s[p + 1 + j] && y[j] == t[p + 1 + j];
    }
  }

  lemma SameTail(s: seq<octet>, t: seq<octet>, p: nat)
    requires |s| == |t| && p < |s| && s[..p + 1] == t[..p + 1]
    ensures Lower(s[p + 1..]) == Lower(t[p + 1..]) ==> Lower(s) == Lower(t)
  {
    hide LowerCase;
    if Lower(s[p + 1..]) == Lower(t[p + 1..]) {
      forall j | 0 <= j < |s|
        ensures LowerCase(s[j]) == LowerCase(t[j])
      {
        if j <= p {
          assert s[..p + 1][j] == t[..p + 1][j];
        } else {
          assert Lower(s[p + 1..])[j - p - 1] == Lower(t[p + 1..])[j - p - 1];
        }
      }
    }
  }

  lemma SameValues(x: seq<octet>, y: seq<octet>)
    requires AllSymbols(x) && AllSymbols(y)
    ensures Values(x) == Values(y) ==> Lower(x) == Lower(y)
  {
    hide Charset, CharsetRev;
    if Values(x) == Values(y) {
      forall i | 0 <= i < |x|
        ensures LowerCase(x[i]) == LowerCase(y[i])
      {
        RevInverse(x[i]);
        RevInverse(y[i]);
        assert Values(x)[i] == Values(y)[i];
      }
    }
  }

  // ---- The operations ----

  method ExpandHRP(hrp: seq<octet>) returns (r: seq<bv5>)
    ensures r == Expanded(hrp)
  {
    hide HighBits, LowBits;
    var n := |hrp|;
    var ret := new bv5[2 * n + 1](_ => 0);
    var i := 0;
    while i < n
      invariant 0 <= i <= n
      invariant forall k | 0 <= k < i :: ret[k] == HighBits(hrp[k]) && ret[k + n + 1] == LowBits(hrp[k])
    {
      ret[i] := HighBits(hrp[i]);
      ret[i + n + 1] := LowBits(hrp[i]);
      i := i + 1;
    }
    ret[n] := 0;
    r := ret[..];
    forall k | 0 <= k < 2 * n + 1
      ensures r[k] == Expanded(hrp)[k]
    {
      if k > n {
        assert ret[(k - n - 1) + n + 1] == LowBits(hrp[k - n - 1]);
      }
    }
  }

  method VerifyChecksum(hrp: seq<octet>, values: seq<bv5>) returns (ok: bool)
    ensures ok <==> Verified(hrp, values)
  {
    var enc := ExpandHRP(hrp);
    var c := PolyMod(enc + values);
    ok := c == 1;
  }

  method CreateChecksum(hrp: seq<octet>, values: seq<bv5>) returns (r: seq<bv5>)
    ensures r == Checksum(Expanded(hrp) + values)
  {
    hide Fold, Expanded, Group, Xor;
    var enc := ExpandHRP(hrp);
    enc := enc + values;
    var c := PolyMod(enc + Zeroes(6));
    XorIs(c, 1);
    var mod := c ^ 1;
    r := [];
    for i := 0 to 6
      invariant |r| == i && forall k: nat | k < i :: r[k] == Group(mod, k)
    {
      r := r + [Group(mod, i)];
    }
    assert r == Groups(mod);
  }

  /** Encode: the source asserts that the human-readable part has no capitals. */
  method Encode(hrp: seq<octet>, values: seq<bv5>) returns (s: seq<octet>)
    requires forall i | 0 <= i < |hrp| :: !IsUpper(hrp[i])
    ensures s == Encoded(hrp, values)
  {
    hide Checksum, Expanded, Charset;
    var checksum := CreateChecksum(hrp, values);
    var combined := values + checksum;
    s := hrp + ['1'];
    for i := 0 to |combined|
      invariant s == hrp + ['1'] + Chars(combined[..i])
    {
      s := s + [Charset(combined[i])];
      assert Chars(combined[..i + 1]) == Chars(combined[..i]) + [Charset(combined[i])];
    }
    assert combined[..|combined|] == combined;
  }

  /** The first loop of Decode. */
  method CheckCharacters(s: seq<octet>) returns (ok: bool)
    ensures ok <==> (forall i | 0 <= i < |s| :: Printable(s[i])) && OneCase(s)
  {
    var lower, upper := false, false;
    for i := 0 to |s|
      invariant forall k | 0 <= k < i :: Printable(s[k])
      invariant lower <==> exists k | 0 <= k < i :: IsLower(s[k])
      invariant upper <==> exists k | 0 <= k < i :: IsUpper(s[k])
    {
      var c := s[i];
      if 'a' <= c <= 'z' {
        assert IsLower(s[i]);
        lower := true;
      } else if 'A' <= c <= 'Z' {
        assert IsUpper(s[i]);
        upper := true;
      } else if c < '!' || c > '~' {
        return false;
      }
    }
    ok := !(lower && upper);
  }

  method Decode(s: seq<octet>) returns (r: Option<(seq<octet>, seq<bv5>)>)
    ensures r == Decoded(s)
  {
    hide CharsetRev, LowerCase, Fold, Expanded, OneCase, Printable;
    var ok := CheckCharacters(s);
    if !ok {
      return None;
    }
    var pos := LastOne(s);
    if |s| > 90 || pos == -1 || pos == 0 || pos + 7 > |s| {
      return None;
    }
    var tail := s[pos + 1..];
    var values: seq<bv5> := [];
    for i := 0 to |tail|
      invariant AllSymbols(tail[..i]) && values == Values(tail[..i])
    {
      var rev := CharsetRev(tail[i]);
      if rev.None? {
        return None;
      }
      values := values + [rev.value];
      assert tail[..i + 1] == tail[..i] + [tail[i]];
    }
    assert tail[..|tail|] == tail;
    var hrp: seq<octet> := [];
    for i := 0 to pos
      invariant hrp == Lower(s[..i])
    {
      hrp := hrp + [LowerCase(s[i])];
      assert Lower(s[..i + 1]) == Lower(s[..i]) + [LowerCase(s[i])];
    }
    var verified := VerifyChecksum(hrp, values);
    if !verified {
      return None;
    }
    r := Some((hrp, values[..|values| - 6]));
  }
}
