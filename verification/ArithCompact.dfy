/** The "compact" 32-bit floating format of difficulty targets, and block proofs. */
module Compact {
  import opened NatArith
  import opened Limbs
  import opened BigUint
  import opened BigShift
  import opened BigDivide

  function P256(n: nat): (r: nat)
    ensures r > 0
  {
    PowPos(256, n);
    Pow(256, n)
  }

  lemma Bytes(n: nat)
    ensures P256(n) == Pow2(8 * n) && P256(n + 1) == 256 * P256(n)
  {
    assert Pow(2, 8) == 256 by {
      assert Pow(2, 4) == 16;
      PowAdd(2, 4, 4);
    }
    PowPow(2, 8, n);
  }

  lemma SmallBytes()
    ensures P256(0) == 1 && P256(1) == 256 && P256(2) == 0x1_0000 && P256(3) == 0x100_0000
    ensures Pow2(0) == 1 && Pow2(8) == 256 && Pow2(16) == 0x1_0000 && Pow2(24) == 0x100_0000
  {
    Bytes(0);
    Bytes(1);
    Bytes(2);
    Bytes(3);
  }

  /** 2^256, the modulus of eight limbs. */
  function Modulus(): (m: nat) {
    BPow(8)
  }

  lemma ModulusBytes()
    ensures Modulus() == P256(32)
  {
    Bytes(32);
    BitsThenLimbs(0, 8);
    SmallBytes();
  }

  // ---- The number a compact word denotes ----

  function Mantissa(c: u32): (w: nat)
    ensures w < 0x80_0000
  {
    c % 0x80_0000
  }

  function Exponent(c: u32): (e: nat)
    ensures e < 256
  {
    c / 0x100_0000
  }

  predicate SignBit(c: u32) {
    (c / 0x80_0000) % 2 == 1
  }

  /** mantissa * 256^(exponent - 3), rounded down. */
  function Scaled(w: nat, e: nat): (v: nat) {
    if e <= 3 then w / P256(3 - e) else w * P256(e - 3)
  }

  function CompactValue(c: u32): (v: nat) {
    Scaled(Mantissa(c), Exponent(c))
  }

  /** The three-way overflow test is exactly "the number needs more than 256 bits". */
  lemma OverflowExact(w: nat, e: nat)
    requires w < 0x80_0000
    ensures Scaled(w, e) >= Modulus() <==>
            w != 0 && e > 3 && (e > 34 || (w > 0xff && e > 33) || (w > 0xffff && e > 32))
  {
    ModulusBytes();
    hide Modulus;
    SmallBytes();
    if e <= 3 {
      Quotient256(w, 3 - e);
      PowMono(256, 3, 32);
    } else {
      var k := e - 3;
      hide P256, Pow2;
      if k >= 32 {
        Grow(32, k);
        if w > 0 {
          MulMono(1, w, P256(k));
        }
      } else {
        PowersMultiply(k, 32 - k);
        CompareScaled(w, P256(k), P256(32 - k));
        if k <= 29 {
          Grow(3, 32 - k);
        }
      }
    }
  }

  lemma Quotient256(w: nat, n: nat)
    ensures w / P256(n) <= w
  {
    DivModFacts(w, P256(n));
    MulMono(1, P256(n), w / P256(n));
  }

  lemma Grow(m: nat, n: nat)
    requires m <= n
    ensures P256(m) <= P256(n)
  {
    PowMono(256, m, n);
  }

  lemma PowersMultiply(m: nat, n: nat)
    ensures P256(m + n) == P256(m) * P256(n)
  {
    PowAdd(256, m, n);
  }

  lemma CompareScaled(w: nat, p: nat, q: nat)
    requires p > 0
    ensures w * p >= p * q <==> w >= q
  {
    if w >= q {
      MulMono(q, w, p);
    } else {
      MulStrict(w, q, p);
    }
  }

  // ---- SetCompact ----

  /** operator= from a 64-bit number */
  method Assign64(a: array<u32>, v: nat)
    requires a.Length >= 2 && v < 0x1_0000_0000_0000_0000
    modifies a
    ensures Val(a[..]) == v
  {
    a[0] := v % B;
    a[1] := v / B;
    var i := 2;
    while i < a.Length
      invariant 2 <= i <= a.Length && a[0] == v % B && a[1] == v / B
      invariant forall m | 2 <= m < i :: a[m] == 0
    {
      a[i] := 0;
      i := i + 1;
    }
    assert a[..][1..][1..] == a[2..];
    ValZero(a[2..]);
  }

  method SetCompact(a: array<u32>, compact: u32) returns (negative: bool, overflow: bool)
    requires a.Length == 8
    modifies a
    ensures Val(a[..]) == CompactValue(compact) % Modulus()
    ensures negative <==> CompactValue(compact) != 0 && SignBit(compact)
    ensures overflow <==> CompactValue(compact) >= Modulus()
  {
    hide Val, Pow, Pow2, BPow, P256;
    var size, word := Exponent(compact), Mantissa(compact);
    OverflowExact(word, size);
    if size <= 3 {
      Bytes(3 - size);
      Quotient256(word, 3 - size);
      SmallModulus(word / P256(3 - size));
      word := word / Pow2(8 * (3 - size));
      Assign64(a, word);
    } else {
      Bytes(size - 3);
      MulZero(word, P256(size - 3));
      Assign64(a, word);
      ShiftLeft(a, 8 * (size - 3));
    }
    negative := word != 0 && SignBit(compact);
    overflow := word != 0 && (size > 34 || (word > 0xff && size > 33) || (word > 0xffff && size > 32));
  }

  lemma MulZero(w: nat, p: nat)
    requires p > 0
    ensures w * p == 0 <==> w == 0
  {
    if w > 0 {
      MulStrict(0, w, p);
    }
  }

  lemma SmallModulus(v: nat)
    requires v < 0x80_0000
    ensures v % Modulus() == v
  {
    ModulusBytes();
    SmallBytes();
    Grow(3, 32);
    ModEqual(v, v, Modulus(), 0);
  }

  // ---- GetCompact ----

  /** The number of bytes a number needs. */
  function ByteLen(x: nat): (n: nat) {
    if x == 0 then 0 else 1 + ByteLen(x / 256)
  }

  lemma {:induction false} ByteLenBounds(x: nat)
    ensures x < P256(ByteLen(x)) && (x > 0 ==> P256(ByteLen(x) - 1) <= x)
    decreases x
  {
    if x > 0 {
      ByteLenBounds(x / 256);
      if x / 256 > 0 {
        Bytes(ByteLen(x / 256) - 1);
      }
    }
  }

  lemma {:induction false} ByteLenIs(x: nat, n: nat)
    requires n > 0 && P256(n - 1) <= x < P256(n)
    ensures ByteLen(x) == n
  {
    ByteLenBounds(x);
    hide P256, ByteLen;
    var m := ByteLen(x);
    if x > 0 && m < n {
      Grow(m, n - 1);
    } else if x > 0 && n < m {
      Grow(n, m - 1);
    }
  }

  /** The three leading bytes of a number, as a 24-bit word. */
  function Leading(x: nat): (w: nat) {
    var n := ByteLen(x);
    if n <= 3 then x * P256(3 - n) else x / P256(n - 3)
  }

  lemma LeadingBounds(x: nat)
    ensures Leading(x) < 0x100_0000 && (x > 0 ==> Leading(x) >= 0x1_0000)
  {
    ByteLenBounds(x);
    SmallBytes();
    hide P256, ByteLen, Pow2;
    var n := ByteLen(x);
    if n <= 3 {
      PowersMultiply(n, 3 - n);
      MulStrict(x, P256(n), P256(3 - n));
      if x > 0 {
        NonZeroLen(x);
        PowersMultiply(n - 1, 3 - n);
        MulMono(P256(n - 1), x, P256(3 - n));
      }
    } else {
      PowersMultiply(n - 3, 3);
      PowersMultiply(n - 3, 2);
      DivUpper(x, P256(n - 3), 0xff_ffff);
      if x > 0 {
        DivLower(x, P256(n - 3), 0x1_0000);
      }
    }
  }

  lemma NonZeroLen(x: nat)
    ensures ByteLen(x) > 0 <==> x > 0
  {
  }

  /** Exponent and mantissa chosen for a number: the mantissa keeps clear of the
      sign bit. */
  function Encode(x: nat): (r: (nat, nat)) {
    if Leading(x) >= 0x80_0000 then (ByteLen(x) + 1, Leading(x) / 256) else (ByteLen(x), Leading(x))
  }

  /** A mantissa either holds the number exactly or is normalised. */
  predicate Normal(x: nat, e: nat, w: nat) {
    && w < 0x80_0000
    && (e <= 3 ==> w == x * P256(3 - e))
    && (e > 3 ==> w == x / P256(e - 3) && w >= 0x8000)
  }

  lemma EncodeIsNormal(x: nat)
    ensures Normal(x, Encode(x).0, Encode(x).1)
  {
    hide P256, ByteLen;
    LeadingBounds(x);
    NonZeroLen(x);
    if ByteLen(x) < 3 {
      NextByteLow(x, ByteLen(x));
    } else {
      NextByteHigh(x, ByteLen(x));
    }
  }

  lemma NextByteLow(x: nat, n: nat)
    requires n < 3
    ensures (x * P256(3 - n)) / 256 == x * P256(2 - n)
  {
    Bytes(2 - n);
    hide *;
    var p := P256(2 - n);
    assert x * (256 * p) == (x * p) * 256;
    DivModUnique(x * (256 * p), 256, x * p, 0);
  }

  lemma NextByteHigh(x: nat, n: nat)
    requires n >= 3
    ensures P256(0) == 1 && (x / P256(n - 3)) / 256 == x / P256(n - 2)
  {
    Bytes(n - 3);
    assert P256(0) == 1;
    hide *;
    DivDiv(x, P256(n - 3), 256);
  }

  /** Decoding an encoded number rounds down by less than one part in 2^15. */
  lemma RoundsDown(x: nat)
    ensures var y := Scaled(Encode(x).1, Encode(x).0);
            y <= x && (x - y) * 0x8000 <= x
  {
    EncodeIsNormal(x);
    hide Encode;
    var e, w := Encode(x).0, Encode(x).1;
    if e <= 3 {
      DivModUnique(w, P256(3 - e), x, 0);
    } else {
      hide P256;
      var p := P256(e - 3);
      DivModFacts(x, p);
      MulMono(0x8000, w, p);
    }
  }

  lemma DecodeExact(x: nat)
    requires Encode(x).0 <= 3
    ensures Scaled(Encode(x).1, Encode(x).0) == x
  {
    EncodeIsNormal(x);
    hide Encode;
    DivModUnique(Encode(x).1, P256(3 - Encode(x).0), x, 0);
  }

  /** No other compact word comes closer from below. */
  lemma NearestBelow(x: nat, w: nat, e: nat)
    requires w < 0x80_0000 && Scaled(w, e) <= x
    ensures Scaled(w, e) <= Scaled(Encode(x).1, Encode(x).0)
  {
    EncodeIsNormal(x);
    var e', w' := Encode(x).0, Encode(x).1;
    if e' <= 3 {
      DecodeExact(x);
    } else if e >= e' {
      hide Encode, P256;
      PowersMultiply(e - e', e' - 3);
      MulAssoc(w, P256(e - e'), P256(e' - 3));
      DivLower(x, P256(e' - 3), w * P256(e - e'));
      MulMono(w * P256(e - e'), w', P256(e' - 3));
    } else {
      ShorterIsSmaller(w, e, e');
      hide Encode, P256;
      MulMono(0x8000, w', P256(e' - 3));
    }
  }

  /** A smaller exponent cannot reach a normalised mantissa. */
  lemma ShorterIsSmaller(w: nat, e: nat, f: nat)
    requires w < 0x80_0000 && e < f && f > 3
    ensures Scaled(w, e) <= 0x8000 * P256(f - 3)
  {
    SmallBytes();
    if e <= 3 {
      Quotient256(w, 3 - e);
      Grow(1, f - 3);
    } else {
      Bytes(e - 3);
      Grow(e - 2, f - 3);
      MulMono(w, 0x80_0000, P256(e - 3));
    }
  }

  /** Encoding what was decoded changes nothing. */
  lemma ReencodeIsStable(x: nat)
    ensures Encode(Scaled(Encode(x).1, Encode(x).0)) == Encode(x)
  {
    EncodeIsNormal(x);
    var e, w := Encode(x).0, Encode(x).1;
    if e <= 3 {
      DecodeExact(x);
    } else {
      hide Encode;
      StableNormal(w, e);
    }
  }

  lemma StableNormal(w: nat, e: nat)
    requires 0x8000 <= w < 0x80_0000 && e > 3
    ensures Encode(w * P256(e - 3)) == (e, w)
  {
    SmallBytes();
    var p := P256(e - 3);
    var y := w * p;
    PowersMultiply(e - 3, 3);
    PowersMultiply(e - 3, 2);
    MulMono(0x8000, w, p);
    MulMono(w, 0x80_0000, p);
    Bytes(e - 4);
    if w >= 0x1_0000 {
      MulMono(0x1_0000, w, p);
      ByteLenIs(y, e);
      DivModUnique(y, p, w, 0);
    } else {
      MulStrict(w, 0x1_0000, p);
      PowersMultiply(e - 4, 2);
      hide ByteLen;
      ByteLenIs(y, e - 1);
      var q := P256(e - 4);
      assert y == (w * 256) * q by {
        MulAssoc(w, 256, q);
      }
      DivModUnique(y, q, w * 256, 0);
      assert Leading(y) == w * 256;
    }
  }

  lemma {:induction false} OrClearBit(x: nat, n: nat)
    requires (x / Pow2(n)) % 2 == 0
    ensures Or(x, Pow2(n)) == x + Pow2(n)
    decreases n
  {
    if n == 0 {
      OrComm(x / 2, 0);
      OrZero(x / 2);
    } else {
      DivDiv(x, 2, Pow2(n - 1));
      OrClearBit(x / 2, n - 1);
    }
  }

  /** GetLow64 */
  function Low64(s: seq<u32>): (v: nat)
    requires |s| >= 2
  {
    Or(s[0], s[1] * B)
  }

  lemma Low64IsValue(s: seq<u32>)
    requires |s| >= 2
    ensures Low64(s) == Val(s) % 0x1_0000_0000_0000_0000
  {
    LimbIs32Bits();
    DivModUnique(s[1] * B, B, s[1], 0);
    OrIsAdd(s[0], s[1] * B, 32);
    TwoLimbs(s);
    hide Or, Pow2, Val;
    var low: nat := s[0] + s[1] * B;
    ModEqual(Val(s), low, 0x1_0000_0000_0000_0000, Val(s[2..]));
  }

  lemma TwoLimbs(s: seq<u32>)
    requires |s| >= 2
    ensures Val(s) == s[0] + s[1] * B + Val(s[2..]) * 0x1_0000_0000_0000_0000
  {
    assert s[1..][1..] == s[2..];
    assert Val(s[1..]) == s[1] + B * Val(s[2..]);
  }

  lemma ByteCount(x: nat, n: nat)
    requires x < Pow2(n) && (if x == 0 then n == 0 else n > 0 && Pow2(n - 1) <= x)
    ensures ByteLen(x) == (n + 7) / 8
  {
    if x > 0 {
      var m := (n + 7) / 8;
      Bytes(m);
      Bytes(m - 1);
      PowMono(2, n, 8 * m);
      PowMono(2, 8 * (m - 1), n - 1);
      ByteLenIs(x, m);
    }
  }

  /** Packing exponent, sign and mantissa by OR keeps the three fields apart. */
  lemma Pack(w: nat, e: nat, negative: bool)
    requires w < 0x80_0000 && e < 256
    ensures var c := Or(w, e * 0x100_0000);
            var d := Or(c, if negative && c % 0x80_0000 != 0 then 0x80_0000 else 0);
            d < B && Mantissa(d) == w && Exponent(d) == e && (SignBit(d) <==> negative && w != 0)
  {
    SmallPower23();
    OrIsAdd(w, e * 0x100_0000, 24);
    var c := w + e * 0x100_0000;
    assert c / 0x80_0000 == 2 * e && c % 0x80_0000 == w;
    OrClearBit(c, 23);
    OrComm(c, 0);
    OrZero(c);
    hide Or, Pow2;
    Fields(w, e);
  }

  lemma Fields(w: nat, e: nat)
    requires w < 0x80_0000 && e < 256
    ensures var c := w + e * 0x100_0000;
            c < B && Mantissa(c) == w && Exponent(c) == e && !SignBit(c)
    ensures var d := w + e * 0x100_0000 + 0x80_0000;
            d < B && Mantissa(d) == w && Exponent(d) == e && SignBit(d)
  {
  }

  /** The first half of GetCompact: size and leading word. */
  method LeadingWord(a: array<u32>) returns (size: nat, word: nat)
    requires a.Length == 8
    ensures size == ByteLen(Val(a[..])) && word == Leading(Val(a[..])) && size <= 32
  {
    hide Val, Pow, Pow2, BPow, P256, ByteLen, Or, Leading;
    ghost var x := Val(a[..]);
    var bits := Bits(a);
    ByteCount(x, bits);
    size := (bits + 7) / 8;
    ValBound(a[..]);
    SizeFits(x, size);
    if size <= 3 {
      LowLeading(a[..], size);
      word := (Low64(a[..]) * Pow2(8 * (3 - size))) % B;
    } else {
      var bn := new u32[8](i requires 0 <= i < 8 reads a => a[i]);
      assert bn[..] == a[..];
      ShiftRight(bn, 8 * (size - 3));
      HighLeading(a[..], bn[..], size);
      word := Low64(bn[..]) % B;
    }
  }

  method GetCompact(a: array<u32>, negative: bool) returns (c: u32)
    requires a.Length == 8
    ensures var x := Val(a[..]);
            && (Exponent(c), Mantissa(c)) == Encode(x)
            && (SignBit(c) <==> negative && Mantissa(c) != 0)
  {
    hide Val, Pow2, ByteLen, Or, Bit, Encode, Leading, Exponent, Mantissa, SignBit;
    ghost var x := Val(a[..]);
    var size, compact := LeadingWord(a);
    LeadingBounds(x);
    SmallPower23();
    TopBit(compact, 23);
    EncodeCases(x);
    if Bit(compact, 23) {
      compact := compact / 256;
      size := size + 1;
    }
    assert compact < 0x80_0000 && size < 256;
    Pack(compact, size, negative);
    compact := Or(compact, size * 0x100_0000);
    compact := Or(compact, if negative && compact % 0x80_0000 != 0 then 0x80_0000 else 0);
    c := compact;
  }

  lemma SmallPower23()
    ensures Pow2(23) == 0x80_0000 && Pow2(24) == 0x100_0000
  {
    SmallBytes();
    assert Pow2(24) == 2 * Pow2(23);
  }

  lemma LowWord(x: nat)
    requires ByteLen(x) <= 3
    ensures x < 0x100_0000 && x * P256(3 - ByteLen(x)) == Leading(x)
  {
    ByteLenBounds(x);
    SmallBytes();
    Grow(ByteLen(x), 3);
  }

  lemma HighWord(x: nat)
    requires ByteLen(x) > 3
    ensures x / P256(ByteLen(x) - 3) == Leading(x)
  {
  }

  lemma SmallWord(x: nat)
    requires x < 0x100_0000
    ensures B > 0 && x % B == x && x % 0x1_0000_0000_0000_0000 == x
  {
  }

  /** A short number is shifted up within 64 bits. */
  lemma LowLeading(s: seq<u32>, size: nat)
    requires |s| == 8 && size == ByteLen(Val(s)) <= 3
    ensures (Low64(s) * Pow2(8 * (3 - size))) % B == Leading(Val(s))
  {
    hide *;
    var x := Val(s);
    Bytes(3 - size);
    LowWord(x);
    LeadingBounds(x);
    Low64IsValue(s);
    SmallWord(x);
    SmallWord(Leading(x));
  }

  /** A long one is shifted down over all limbs, and the low word read. */
  lemma HighLeading(s: seq<u32>, t: seq<u32>, size: nat)
    requires |t| == 8 && size == ByteLen(Val(s)) > 3
    requires Val(t) == Val(s) / Pow2(8 * (size - 3))
    ensures Low64(t) % B == Leading(Val(s))
  {
    hide *;
    var x := Val(s);
    Bytes(size - 3);
    HighWord(x);
    LeadingBounds(x);
    Low64IsValue(t);
    SmallWord(Leading(x));
  }

  lemma EncodeCases(x: nat)
    ensures Leading(x) >= 0x80_0000 ==> Encode(x) == (ByteLen(x) + 1, Leading(x) / 256)
    ensures Leading(x) < 0x80_0000 ==> Encode(x) == (ByteLen(x), Leading(x))
  {
  }

  lemma SizeFits(x: nat, size: nat)
    requires x < BPow(8) && size == ByteLen(x)
    ensures size <= 32
  {
    ModulusBytes();
    ByteLenBounds(x);
    if size > 32 {
      Grow(32, size - 1);
    }
  }

  /** What GetCompact and SetCompact do to a number together: the result is the
      greatest representable number not above it, off by less than one part in
      2^15, and encoding it again gives the same word. */
  lemma CompactRoundTrip(x: nat, c: u32)
    requires (Exponent(c), Mantissa(c)) == Encode(x)
    ensures CompactValue(c) <= x && (x - CompactValue(c)) * 0x8000 <= x
    ensures forall d: u32 :: CompactValue(d) <= x ==> CompactValue(d) <= CompactValue(c)
    ensures Encode(CompactValue(c)) == (Exponent(c), Mantissa(c))
  {
    RoundsDown(x);
    ReencodeIsStable(x);
    forall d: u32 | CompactValue(d) <= x
      ensures CompactValue(d) <= CompactValue(c)
    {
      NearestBelow(x, Mantissa(d), Exponent(d));
    }
  }

  // ---- GetBlockProof ----

  /** EqualTo */
  method EqualTo(a: array<u32>, b: nat) returns (same: bool)
    requires a.Length >= 2 && b < 0x1_0000_0000_0000_0000
    ensures same <==> Val(a[..]) == b
  {
    TwoLimbs(a[..]);
    assert a[..][2..] == a[2..];
    ValZero(a[2..]);
    var i := a.Length - 1;
    while i >= 2
      invariant 1 <= i < a.Length
      invariant forall m | i < m < a.Length :: a[m] == 0
    {
      if a[i] != 0 {
        assert a[2..][i - 2] != 0;
        return false;
      }
      i := i - 1;
    }
    return a[1] == b / B && a[0] == b % B;
  }

  /** No compact word denotes 2^256 - 1, so adding one to a target never wraps. */
  lemma TargetPlusOne(c: u32)
    requires CompactValue(c) < Modulus()
    ensures CompactValue(c) + 1 < Modulus()
  {
    ModulusBytes();
    SmallBytes();
    Bytes(31);
    Grow(3, 32);
    hide Modulus;
    var w, e := Mantissa(c), Exponent(c);
    if e <= 3 {
      Quotient256(w, 3 - e);
    } else {
      Bytes(e - 4);
      hide P256;
      assert w * (256 * P256(e - 4)) == 256 * (w * P256(e - 4)) by {
        MulAssoc(w, 256, P256(e - 4));
        MulAssoc(256, w, P256(e - 4));
      }
      NotOneBelow(w * P256(e - 4), P256(31));
    }
  }

  lemma NotOneBelow(x: nat, y: nat)
    ensures 256 * x < 256 * y ==> 256 * x + 1 < 256 * y
  {
  }

  lemma ProofFormula(m: nat, t: nat)
    requires 0 < t && t + 1 < m
    ensures (m - 1 - t) / (t + 1) + 1 == m / (t + 1)
    ensures m / (t + 1) < m
  {
    var d := t + 1;
    DivModFacts(m, d);
    var q: nat := m / d;
    DivLower(m, d, 1);
    MulDist(d, q - 1, 1);
    DivModUnique(m - d, d, q - 1, m % d);
    MulGap(1, d, q);
  }

  /** The expected number of hashes for a block: 2^256 / (target + 1). */
  method GetBlockProof(bits: u32) returns (r: array<u32>)
    ensures fresh(r) && r.Length == 8
    ensures var t := CompactValue(bits);
            Val(r[..]) == if t == 0 || SignBit(bits) || t >= Modulus() then 0 else Modulus() / (t + 1)
  {
    hide Val, BPow, CompactValue, SignBit;
    var target := new u32[8](_ => 0);
    var negative, overflow := SetCompact(target, bits);
    var zero := EqualTo(target, 0);
    ghost var t := CompactValue(bits);
    r := new u32[8](_ => 0);
    ValZero(r[..]);
    if t < Modulus() {
      ModEqual(t, t, Modulus(), 0);
    }
    if negative || overflow || zero {
      return;
    }
    TargetPlusOne(bits);
    ProofFormula(Modulus(), t);
    r := Complement(target);
    var one := new u32[8](_ => 0);
    Assign64(one, 1);
    Add(target, one);
    ModEqual(t + 1, t + 1, Modulus(), 0);
    var ok := Divide(r, target);
    ModEqual(Modulus() / (t + 1), Modulus() / (t + 1), Modulus(), 0);
    Add(r, one);
  }
}
