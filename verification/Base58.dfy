/** Base58 encoding and decoding. */
module Base58 {
  import opened Options
  import opened NatArith
  import opened Radix

  type byte = x: nat | x < 256

  /** The alphabet: digits and letters without 0, I, O and l. */
  function Symbol(d: nat): (c: char)
    requires d < 58
  {
    if d < 9 then ('1' as int + d) as char
    else if d < 17 then ('A' as int + d - 9) as char
    else if d < 22 then ('J' as int + d - 17) as char
    else if d < 33 then ('P' as int + d - 22) as char
    else if d < 44 then ('a' as int + d - 33) as char
    else ('m' as int + d - 44) as char
  }

  /** The decoding table: the digit of a character, -1 for all others. */
  function MapBase58(c: char): (d: int)
    ensures -1 <= d < 58
  {
    if '1' <= c <= '9' then c as int - '1' as int
    else if 'A' <= c <= 'H' then c as int - 'A' as int + 9
    else if 'J' <= c <= 'N' then c as int - 'J' as int + 17
    else if 'P' <= c <= 'Z' then c as int - 'P' as int + 22
    else if 'a' <= c <= 'k' then c as int - 'a' as int + 33
    else if 'm' <= c <= 'z' then c as int - 'm' as int + 44
    else -1
  }

  predicate IsSpace(c: char) {
    c == ' ' || c == '\U{0c}' || c == '\n' || c == '\r' || c == '\t' || c == '\U{0b}'
  }

  /** Table and alphabet are inverse to each other. */
  lemma TableInverse(d: nat)
    requires d < 58
    ensures MapBase58(Symbol(d)) == d
  {
  }

  lemma AlphabetInverse(c: char)
    requires MapBase58(c) != -1
    ensures Symbol(MapBase58(c)) == c && !IsSpace(c) && c != '\0'
    ensures c == '1' <==> MapBase58(c) == 0
  {
  }

  // ---- What the two directions compute ----

  /** The number of leading elements equal to `x`. */
  function Leading<T(==)>(s: seq<T>, x: T): (n: nat)
    ensures n <= |s| && (forall i | 0 <= i < n :: s[i] == x) && (n < |s| ==> s[n] != x)
  {
    if s != [] && s[0] == x then 1 + Leading(s[1..], x) else 0
  }

  lemma {:induction false} LeadingIs<T>(s: seq<T>, x: T, n: nat)
    requires n <= |s| && (forall i | 0 <= i < n :: s[i] == x) && (n < |s| ==> s[n] != x)
    ensures Leading(s, x) == n
  {
    if n > 0 {
      LeadingIs(s[1..], x, n - 1);
    }
  }

  function Repeat<T>(x: T, n: nat): (s: seq<T>)
    ensures |s| == n && forall i | 0 <= i < n :: s[i] == x
  {
    seq(n, _ => x)
  }

  function Symbols(ds: seq<nat>): (s: string)
    requires DigitsOk(58, ds)
    ensures |s| == |ds| && forall i | 0 <= i < |s| :: s[i] == Symbol(ds[i])
  {
    seq(|ds|, i requires 0 <= i < |ds| => Symbol(ds[i]))
  }

  predicate AllSymbols(s: string) {
    forall i | 0 <= i < |s| :: MapBase58(s[i]) != -1
  }

  function Values(s: string): (ds: seq<nat>)
    requires AllSymbols(s)
    ensures |ds| == |s| && DigitsOk(58, ds) && forall i | 0 <= i < |s| :: ds[i] == MapBase58(s[i])
  {
    seq(|s|, i requires 0 <= i < |s| => MapBase58(s[i]))
  }

  /** One '1' for each leading zero byte, then the number in base 58. */
  function Encoded(b: seq<byte>): (s: string) {
    DigitsFacts(58, Val(256, b));
    Repeat('1', Leading(b, 0)) + Symbols(Digits(58, Val(256, b)))
  }

  function TrimLeft(s: string): (r: string) {
    if s != [] && IsSpace(s[0]) then TrimLeft(s[1..]) else s
  }

  function TrimRight(s: string): (r: string) {
    if s != [] && IsSpace(s[|s| - 1]) then TrimRight(s[..|s| - 1]) else s
  }

  /** The string without surrounding spaces. */
  function Trim(s: string): string {
    TrimRight(TrimLeft(s))
  }

  /** The bytes a trimmed string stands for. */
  function DecodedBytes(core: string): (b: seq<byte>)
    requires AllSymbols(core)
  {
    DigitsFacts(256, Val(58, Values(core)));
    Repeat(0, Leading(core, '1')) + Digits(256, Val(58, Values(core)))
  }

  /** A string is accepted when it is free of NUL, has only symbols between
      surrounding spaces, and the bytes are not more than `maxLen`. */
  function Decoded(s: string, maxLen: int): (r: Option<seq<byte>>) {
    if '\0' in s then None else DecodedCore(Trim(s), maxLen)
  }

  function DecodedCore(core: string, maxLen: int): (r: Option<seq<byte>>) {
    if !AllSymbols(core) then None else
      var b := DecodedBytes(core);
      if b != [] && |b| > maxLen then None else Some(b)
  }

  // ---- Round trips ----

  /** Leading zeroes and the remaining digits are told apart again. */
  lemma LeadingOfZeroes<T>(x: T, n: nat, t: seq<T>)
    requires t != [] ==> t[0] != x
    ensures Leading(Repeat(x, n) + t, x) == n
  {
    LeadingIs(Repeat(x, n) + t, x, n);
  }

  lemma StripZeroes(base: nat, s: seq<nat>)
    requires base > 1 && DigitsOk(base, s)
    ensures s == Repeat(0, Leading(s, 0)) + Digits(base, Val(base, s))
  {
    hide Val, Digits;
    var n := Leading(s, 0);
    assert s == s[..n] + s[n..];
    ValZeroes(base, s[..n], s[n..]);
    assert DigitsOk(base, s[n..]);
    DigitsUnique(base, s[n..]);
    assert s[..n] == Repeat(0, n);
  }

  lemma {:induction false} TrimNothing(s: string)
    requires AllSymbols(s)
    ensures Trim(s) == s
  {
    if s != [] {
      AlphabetInverse(s[0]);
      AlphabetInverse(s[|s| - 1]);
    }
  }

  /** The encoding is made of symbols, and their digits are zeroes and the number. */
  lemma EncodedShape(b: seq<byte>)
    ensures AllSymbols(Encoded(b)) && '\0' !in Encoded(b)
    ensures Values(Encoded(b)) == Repeat(0, Leading(b, 0)) + Digits(58, Val(256, b))
    ensures Leading(Encoded(b), '1') == Leading(b, 0)
  {
    var v := Val(256, b);
    DigitsFacts(58, v);
    var ds := Digits(58, v);
    var n := Leading(b, 0);
    assert Encoded(b) == Repeat('1', n) + Symbols(ds);
    SymbolFacts(0);
    forall i | 0 <= i < |ds| ensures MapBase58(Symbols(ds)[i]) == ds[i] && Symbols(ds)[i] != '\0' {
      SymbolFacts(ds[i]);
    }
    if ds != [] {
      SymbolFacts(ds[0]);
    }
    hide Symbol, MapBase58, Val, Digits;
    LeadingOfZeroes('1', n, Symbols(ds));
  }

  lemma SymbolFacts(d: nat)
    requires d < 58
    ensures MapBase58(Symbol(d)) == d && Symbol(d) != '\0' && (Symbol(d) == '1' <==> d == 0)
  {
    TableInverse(d);
    AlphabetInverse(Symbol(d));
  }

  /** decode(encode(b)) is b, unless b exceeds the length limit. */
  lemma DecodeEncode(b: seq<byte>, maxLen: int)
    ensures Decoded(Encoded(b), maxLen) == if b != [] && |b| > maxLen then None else Some(b)
  {
    hide Encoded, Val, Digits, Leading, MapBase58, AllSymbols, Trim;
    EncodedShape(b);
    TrimNothing(Encoded(b));
    var v := Val(256, b);
    DigitsFacts(58, v);
    ValZeroes(58, Repeat(0, Leading(b, 0)), Digits(58, v));
    BytesAreDigits(b);
    StripZeroes(256, b);
  }

  /** encode(decode(s)) is s without the surrounding spaces. */
  lemma EncodeDecode(s: string, maxLen: int)
    requires Decoded(s, maxLen).Some?
    ensures Encoded(Decoded(s, maxLen).value) == Trim(s)
  {
    EncodeCore(Trim(s));
  }

  lemma EncodeCore(core: string)
    requires AllSymbols(core)
    ensures Encoded(DecodedBytes(core)) == core
  {
    var v, n := Val(58, Values(core)), Leading(core, '1');
    DigitsFacts(58, v);
    CoreNumber(core);
    assert Encoded(DecodedBytes(core)) == Repeat('1', n) + Symbols(Digits(58, v));
    hide Val, Digits, Symbol, MapBase58;
    SameLeading(core);
    StripZeroes(58, Values(core));
    SymbolsOfValues(core, Digits(58, v), n);
  }

  lemma CoreNumber(core: string)
    requires AllSymbols(core)
    ensures Val(256, DecodedBytes(core)) == Val(58, Values(core))
    ensures Leading(DecodedBytes(core), 0) == Leading(core, '1')
  {
    var v, n := Val(58, Values(core)), Leading(core, '1');
    DigitsFacts(256, v);
    hide Val, Digits, MapBase58;
    NoDigits();
    LeadingOfZeroes(0, n, Digits(256, v));
    ValZeroes(256, Repeat(0, n), Digits(256, v));
  }

  lemma NoDigits()
    ensures Digits(256, 0) == []
  {
  }

  lemma SymbolsOfValues(core: string, ds: seq<nat>, n: nat)
    requires AllSymbols(core) && DigitsOk(58, ds) && Values(core) == Repeat(0, n) + ds
    ensures core == Repeat('1', n) + Symbols(ds)
  {
    forall i | 0 <= i < |core|
      ensures core[i] == (Repeat('1', n) + Symbols(ds))[i]
    {
      AlphabetInverse(core[i]);
      assert (Repeat(0, n) + ds)[i] == Values(core)[i];
    }
  }

  lemma SameLeading(core: string)
    requires AllSymbols(core)
    ensures Leading(Values(core), 0) == Leading(core, '1')
  {
    var n := Leading(core, '1');
    forall i | 0 <= i < |core|
      ensures Values(core)[i] == 0 <==> core[i] == '1'
    {
      AlphabetInverse(core[i]);
    }
    LeadingIs(Values(core), 0, n);
  }

  // ---- The buffers are large enough ----

  lemma PowSwap(a: nat, m: nat, q: nat)
    ensures Pow(Pow(a, m), q) == Pow(Pow(a, q), m)
  {
    PowPow(a, m, q);
    PowPow(a, q, m);
    assert m * q == q * m;
  }

  /** If a^q <= b^p then m digits in base a fit `size` digits in base b as soon as
      p/q of m is below size. */
  lemma RatioFits(a: nat, b: nat, p: nat, q: nat, m: nat, size: nat)
    requires b > 1 && Pow(a, q) <= Pow(b, p) && p * m < size * q
    ensures Pow(a, m) < Pow(b, size)
  {
    hide Pow;
    var x: nat, y: nat := p * m, size * q;
    assert Pow(Pow(a, m), q) <= Pow(b, x) by {
      PowSwap(a, m, q);
      PowBase(Pow(a, q), Pow(b, p), m);
      PowPow(b, p, m);
    }
    assert Pow(b, x) < Pow(Pow(b, size), q) by {
      PowStrict(b, x, y);
      PowPow(b, size, q);
    }
    PowBaseStrict(Pow(a, m), Pow(b, size), q);
  }

  lemma EncodeFits(n: nat)
    ensures Pow(256, n) < Pow(58, n * 138 / 100 + 1)
  {
    assert Pow(256, 8) <= Pow(58, 11);
    RatioFits(256, 58, 11, 8, n, n * 138 / 100 + 1);
  }

  lemma DecodeFits(n: nat)
    ensures Pow(58, n) < Pow(256, n * 733 / 1000 + 1)
  {
    DecodeRatio();
    RatioFits(58, 256, 52, 71, n, n * 733 / 1000 + 1);
  }

  lemma DecodeRatio()
    ensures Pow(58, 71) <= Pow(256, 52)
  {
    assert Pow(58, 9) == 7427658739644928;
    assert Pow(58, 8) == 128063081718016;
    assert Pow(256, 13) == 0x1_0000_0000_0000_0000_0000_0000_00;
    hide Pow;
    PowAdd(58, 9, 9);
    PowAdd(58, 18, 18);
    PowAdd(58, 9, 8);
    PowAdd(58, 18, 17);
    PowAdd(58, 36, 35);
    PowAdd(256, 13, 13);
    PowAdd(256, 26, 26);
  }

  lemma PrefixFits(base: nat, other: nat, s: seq<nat>, k: nat, size: nat)
    requires base > 0 && DigitsOk(base, s) && k <= |s| && Pow(base, |s|) < Pow(other, size)
    ensures Val(base, s[..k]) < Pow(other, size)
  {
    ValBound(base, s[..k]);
    PowMono(base, k, |s|);
  }

  // ---- Encoding ----

  lemma SpellsZero(base: nat, buf: seq<nat>)
    requires base > 1 && forall i | 0 <= i < |buf| :: buf[i] == 0
    ensures Spells(base, buf, 0, 0)
  {
  }

  lemma ValStep(base: nat, s: seq<nat>, k: nat)
    requires k < |s|
    ensures Val(base, s[..k + 1]) == Val(base, s[..k]) * base + s[k]
  {
    assert s[..k + 1][..k] == s[..k];
  }

  /** The conversion loop of EncodeBase58. */
  method ToBase58(rest: seq<byte>) returns (digits: seq<nat>, length: nat)
    ensures Spells(58, digits, length, Val(256, rest))
  {
    hide Spells, Pow, Val, Digits, DigitsOk;
    var size := |rest| * 138 / 100 + 1;
    EncodeFits(|rest|);
    var b58 := new nat[size](_ => 0);
    SpellsZero(58, b58[..]);
    BytesAreDigits(rest);
    length := 0;
    var pos := 0;
    NoValue(256, rest);
    while pos < |rest|
      invariant 0 <= pos <= |rest| && Spells(58, b58[..], length, Val(256, rest[..pos]))
    {
      PrefixFits(256, 58, rest, pos + 1, size);
      ValStep(256, rest, pos);
      length := MulAdd(b58, 58, length, 256, rest[pos], Val(256, rest[..pos]));
      pos := pos + 1;
    }
    assert rest[..pos] == rest;
    digits := b58[..];
  }

  method EncodeBase58(input: seq<byte>) returns (str: string)
    ensures str == Encoded(input)
  {
    var zeroes := 0;
    while zeroes < |input| && input[zeroes] == 0
      invariant 0 <= zeroes <= |input| && forall i | 0 <= i < zeroes :: input[i] == 0
    {
      zeroes := zeroes + 1;
    }
    hide Spells, Pow, Val, Digits, Leading, DigitsOk;
    LeadingIs(input, 0, zeroes);
    var rest := input[zeroes..];
    assert input == input[..zeroes] + rest;
    ValZeroes(256, input[..zeroes], rest);
    var b58, length := ToBase58(rest);
    str := WriteSymbols(b58, length, zeroes, Val(256, rest));
  }

  lemma BytesAreDigits(b: seq<byte>)
    ensures DigitsOk(256, b)
  {
  }

  lemma NoValue(base: nat, s: seq<nat>)
    ensures Val(base, s[..0]) == 0
  {
  }

  lemma NoLeadingZero(b58: seq<nat>, length: nat, v: nat, it: nat)
    requires Spells(58, b58, length, v) && |b58| - length <= it <= |b58|
    requires forall k | |b58| - length <= k < it :: b58[k] == 0
    ensures it == |b58| - length && DigitsOk(58, b58) && DigitsOk(58, Digits(58, v))
    ensures b58[it..] == Digits(58, v)
  {
    DigitsFacts(58, v);
    SpellsFacts(58, b58, length, v);
    assert length > 0 ==> b58[|b58| - length..][0] == b58[|b58| - length];
  }

  /** The tail of EncodeBase58: skip zero digits, then translate the others. */
  method WriteSymbols(b58: seq<nat>, length: nat, zeroes: nat, ghost v: nat) returns (str: string)
    requires Spells(58, b58, length, v)
    ensures DigitsOk(58, Digits(58, v))
    ensures str == Repeat('1', zeroes) + Symbols(Digits(58, v))
  {
    SpellsShape(58, b58, length, v);
    ghost var first := |b58| - length;
    var it := |b58| - length;
    hide Digits, Spells, Symbol;
    while it < |b58| && b58[it] == 0
      invariant first <= it <= |b58| && forall k | first <= k < it :: b58[k] == 0
    {
      it := it + 1;
    }
    NoLeadingZero(b58, length, v, it);
    ghost var ds := Digits(58, v);
    str := Repeat('1', zeroes);
    while it < |b58|
      invariant first <= it <= |b58| && |str| == zeroes + (it - first)
      invariant forall i | 0 <= i < |str| :: str[i] == if i < zeroes then '1' else Symbol(ds[i - zeroes])
    {
      str := str + [Symbol(b58[it])];
      it := it + 1;
    }
    assert str == Repeat('1', zeroes) + Symbols(ds);
  }

  // ---- Decoding ----

  lemma {:induction false} TrimRightPrefix(t: string)
    ensures |TrimRight(t)| <= |t| && TrimRight(t) == t[..|TrimRight(t)|]
    ensures forall i | |TrimRight(t)| <= i < |t| :: IsSpace(t[i])
    ensures TrimRight(t) != [] ==> !IsSpace(t[|TrimRight(t)| - 1])
  {
    if t != [] && IsSpace(t[|t| - 1]) {
      TrimRightPrefix(t[..|t| - 1]);
    }
  }

  /** A character that is no space is kept, with everything before it. */
  lemma KeptByTrim(t: string, k: nat)
    requires k < |t| && !IsSpace(t[k])
    ensures k < |TrimRight(t)| && TrimRight(t)[..k + 1] == t[..k + 1]
  {
    TrimRightPrefix(t);
  }

  lemma RejectCharacter(t: string, k: nat, maxLen: int)
    requires k < |t| && MapBase58(t[k]) == -1 && (exists j :: k <= j < |t| && !IsSpace(t[j]))
    ensures DecodedCore(TrimRight(t), maxLen) == None
  {
    var j :| k <= j < |t| && !IsSpace(t[j]);
    KeptByTrim(t, j);
    assert TrimRight(t)[..j + 1][k] == t[..j + 1][k];
  }

  lemma {:induction false} DigitsGrow(base: nat, v: nat, w: nat)
    requires base > 1 && v <= w
    ensures |Digits(base, v)| <= |Digits(base, w)|
    decreases w
  {
    if v > 0 {
      DivSmaller(w, base);
      DivModFacts(v, base);
      DivLower(w, base, v / base);
      DigitsGrow(base, v / base, w / base);
    }
  }

  lemma {:induction false} ValPrefixGrows(base: nat, s: seq<nat>, k: nat)
    requires base > 0 && k <= |s|
    ensures Val(base, s[..k]) <= Val(base, s)
  {
    if k == |s| {
      assert s[..k] == s;
    } else {
      var n := |s| - 1;
      ValPrefixGrows(base, s[..n], k);
      assert s[..n][..k] == s[..k];
      MulMono(1, base, Val(base, s[..n]));
    }
  }

  /** A longer string of symbols stands for no fewer bytes. */
  lemma MoreBytes(core: string, k: nat)
    requires AllSymbols(core) && k <= |core|
    ensures AllSymbols(core[..k]) && |DecodedBytes(core[..k])| <= |DecodedBytes(core)|
  {
    assert Values(core[..k]) == Values(core)[..k];
    ValPrefixGrows(58, Values(core), k);
    DigitsGrow(256, Val(58, Values(core[..k])), Val(58, Values(core)));
    hide Val, Digits;
    LeadingPrefix(core, '1', k);
  }

  lemma LeadingPrefix<T>(s: seq<T>, x: T, k: nat)
    requires k <= |s|
    ensures Leading(s[..k], x) <= Leading(s, x)
  {
    var n, m := Leading(s[..k], x), Leading(s, x);
    assert m < k ==> s[..k][m] == s[m];
  }

  lemma RejectLong(t: string, k: nat, maxLen: int)
    requires 0 < k <= |t| && AllSymbols(t[..k]) && |DecodedBytes(t[..k])| > maxLen && DecodedBytes(t[..k]) != []
    ensures DecodedCore(TrimRight(t), maxLen) == None
  {
    hide Val, Digits, DecodedBytes;
    assert t[..k][k - 1] == t[k - 1];
    AlphabetInverse(t[k - 1]);
    KeptByTrim(t, k - 1);
    if AllSymbols(TrimRight(t)) {
      MoreBytes(TrimRight(t), k);
    }
  }

  /** Only spaces follow the symbols: the trimmed string ends where they end. */
  lemma TrimEndsAt(t: string, e: nat)
    requires e <= |t| && AllSymbols(t[..e]) && forall i | e <= i < |t| :: IsSpace(t[i])
    ensures TrimRight(t) == t[..e]
  {
    TrimRightPrefix(t);
    if e > 0 {
      assert t[..e][e - 1] == t[e - 1];
      AlphabetInverse(t[e - 1]);
      KeptByTrim(t, e - 1);
    }
  }

  /** After the characters before `k`: `zeroes` of them are leading ones and the
      buffer spells their number. */
  ghost predicate Decoding(t: string, k: nat, zeroes: nat, length: nat, b: seq<nat>) {
    && zeroes <= k <= |t| && AllSymbols(t[..k])
    && Leading(t[..k], '1') == zeroes
    && Spells(256, b, length, Val(58, Values(t[..k])))
  }

  lemma DecodingBytes(t: string, k: nat, zeroes: nat, length: nat, b: seq<nat>)
    requires Decoding(t, k, zeroes, length, b)
    ensures length <= |b| && AllSymbols(t[..k])
    ensures DecodedBytes(t[..k]) == Repeat(0, zeroes) + b[|b| - length..]
  {
    hide MapBase58, Val, Digits;
  }

  /** Leading ones are worth nothing. */
  lemma OnlyOnes(t: string, n: nat)
    requires n <= |t| && forall i | 0 <= i < n :: t[i] == '1'
    ensures AllSymbols(t[..n]) && Val(58, Values(t[..n])) == 0
    ensures Leading(t[..n], '1') == n && |DecodedBytes(t[..n])| == n
  {
    var ones := t[..n];
    forall i | 0 <= i < n
      ensures ones[i] == '1' && MapBase58(ones[i]) == 0
    {
    }
    ValZeroes(58, Values(ones), []);
    assert Values(ones) + [] == Values(ones);
    NoDigits();
    LeadingIs(ones, '1', n);
  }

  lemma DecodingStart(t: string, n: nat, b: seq<nat>)
    requires n <= |t| && (forall i | 0 <= i < n :: t[i] == '1') && (forall i | 0 <= i < |b| :: b[i] == 0)
    ensures Decoding(t, n, n, 0, b)
  {
    OnlyOnes(t, n);
    SpellsZero(256, b);
  }

  /** One more symbol: what it makes of the number, and that this fits. */
  lemma DecodingStep(t: string, k: nat, zeroes: nat, length: nat, b: seq<nat>)
    requires Decoding(t, k, zeroes, length, b) && k < |t| && MapBase58(t[k]) != -1
    requires zeroes < |t| ==> t[zeroes] != '1'
    requires |b| == (|t| - zeroes) * 733 / 1000 + 1
    ensures AllSymbols(t[..k + 1]) && Leading(t[..k + 1], '1') == zeroes
    ensures var d: nat := MapBase58(t[k]);
            0 < Val(58, Values(t[..k])) * 58 + d == Val(58, Values(t[..k + 1])) < Pow(256, |b|)
  {
    hide Val, Spells, Pow, MapBase58, Leading, Digits, AllSymbols;
    NextSymbol(t, k, zeroes);
    var ds, d := Values(t[..k + 1]), MapBase58(t[k]);
    ValStep(58, ds, k);
    assert ds[..k] == Values(t[..k]) && ds[..k + 1] == ds;
    DigitsOfRest(ds, zeroes);
    DecodeFits(|t| - zeroes);
    PowMono(58, k + 1 - zeroes, |t| - zeroes);
  }

  lemma NextSymbol(t: string, k: nat, zeroes: nat)
    requires zeroes <= k < |t| && AllSymbols(t[..k]) && Leading(t[..k], '1') == zeroes
    requires MapBase58(t[k]) != -1 && t[zeroes] != '1'
    ensures AllSymbols(t[..k + 1]) && Leading(t[..k + 1], '1') == zeroes
    ensures Values(t[..k + 1]) == Values(t[..k]) + [MapBase58(t[k])]
    ensures Leading(Values(t[..k + 1]), 0) == zeroes
  {
    var u := t[..k + 1];
    forall i | 0 <= i < |u|
      ensures MapBase58(u[i]) != -1 && (i < zeroes ==> u[i] == '1')
    {
      assert i < k ==> u[i] == t[..k][i];
    }
    hide MapBase58;
    LeadingIs(u, '1', zeroes);
    SameLeading(u);
  }

  lemma DigitsOfRest(ds: seq<nat>, n: nat)
    requires DigitsOk(58, ds) && n <= |ds| && forall i | 0 <= i < n :: ds[i] == 0
    ensures Val(58, ds) < Pow(58, |ds| - n)
    ensures n < |ds| && ds[n] != 0 ==> Val(58, ds) > 0
  {
    assert ds == ds[..n] + ds[n..];
    ValZeroes(58, ds[..n], ds[n..]);
    ValBound(58, ds[n..]);
    if n < |ds| && ds[n] != 0 {
      NonZero(58, ds[n..]);
    }
  }

  lemma SpaceIsNoSymbol(c: char)
    requires IsSpace(c)
    ensures MapBase58(c) == -1
  {
  }

  /** DecodeBase58 after the leading spaces. */
  method DecodeTrimmed(t: string, maxLen: int) returns (r: Option<seq<byte>>)
    ensures r == DecodedCore(TrimRight(t), maxLen)
  {
    hide Val, Digits, Spells, Pow, MapBase58, DecodedBytes, Decoding, TrimRight;
    var zeroes := 0;
    while zeroes < |t| && t[zeroes] == '1'
      invariant 0 <= zeroes <= |t| && forall i | 0 <= i < zeroes :: t[i] == '1'
      invariant zeroes > 0 ==> zeroes <= maxLen
    {
      zeroes := zeroes + 1;
      if zeroes > maxLen {
        OnlyOnes(t, zeroes);
        RejectLong(t, zeroes, maxLen);
        return None;
      }
    }
    r := DecodeDigits(t, zeroes, maxLen);
  }

  method DecodeDigits(t: string, zeroes: nat, maxLen: int) returns (r: Option<seq<byte>>)
    requires zeroes <= |t| && (forall i | 0 <= i < zeroes :: t[i] == '1')
    requires (zeroes < |t| ==> t[zeroes] != '1') && (zeroes > 0 ==> zeroes <= maxLen)
    ensures r == DecodedCore(TrimRight(t), maxLen)
  {
    hide Val, Digits, Spells, Pow, MapBase58, DecodedBytes, Decoding, TrimRight, IsSpace;
    var size := (|t| - zeroes) * 733 / 1000 + 1;
    var b256 := new nat[size](_ => 0);
    var length, k := 0, zeroes;
    DecodingStart(t, zeroes, b256[..]);
    while k < |t| && !IsSpace(t[k])
      invariant zeroes <= k <= |t| && Decoding(t, k, zeroes, length, b256[..])
      invariant zeroes + length == 0 || zeroes + length <= maxLen
    {
      var digit := MapBase58(t[k]);
      if digit == -1 {
        RejectCharacter(t, k, maxLen);
        return None;
      }
      length := AddDigit(b256, t, k, zeroes, length);
      k := k + 1;
      DecodingBytes(t, k, zeroes, length, b256[..]);
      if length + zeroes > maxLen {
        RejectLong(t, k, maxLen);
        return None;
      }
    }
    ghost var e := k;
    while k < |t| && IsSpace(t[k])
      invariant e <= k <= |t| && forall i | e <= i < k :: IsSpace(t[i])
    {
      k := k + 1;
    }
    if k < |t| {
      SpaceIsNoSymbol(t[e]);
      RejectCharacter(t, e, maxLen);
      return None;
    }
    DecodingBytes(t, e, zeroes, length, b256[..]);
    TrimEndsAt(t, e);
    r := Some(Repeat(0, zeroes) + b256[size - length..]);
  }

  lemma SomeDigits(b: seq<nat>, length: nat, v: nat)
    requires Spells(256, b, length, v) && v > 0
    ensures length > 0
  {
    DigitsFacts(256, v);
  }

  /** The carry loop for one character. */
  method AddDigit(b256: array<nat>, t: string, k: nat, zeroes: nat, length: nat) returns (length': nat)
    requires Decoding(t, k, zeroes, length, b256[..]) && k < |t| && MapBase58(t[k]) != -1
    requires zeroes < |t| ==> t[zeroes] != '1'
    requires b256.Length == (|t| - zeroes) * 733 / 1000 + 1
    modifies b256
    ensures Decoding(t, k + 1, zeroes, length', b256[..]) && length' > 0
  {
    hide MapBase58, Val, Digits, Spells, Pow, Leading;
    DecodingStep(t, k, zeroes, length, b256[..]);
    length' := MulAdd(b256, 256, length, 58, MapBase58(t[k]), Val(58, Values(t[..k])));
    SomeDigits(b256[..], length', Val(58, Values(t[..k + 1])));
  }

  /** DecodeBase58 */
  method DecodeBase58(s: string, maxLen: int) returns (r: Option<seq<byte>>)
    ensures r == Decoded(s, maxLen)
  {
    hide DecodedCore, TrimRight;
    if '\0' in s {
      return None;
    }
    var pos := 0;
    assert s[0..] == s;
    while pos < |s| && IsSpace(s[pos])
      invariant 0 <= pos <= |s| && TrimLeft(s[pos..]) == TrimLeft(s)
    {
      assert s[pos..][1..] == s[pos + 1..];
      pos := pos + 1;
    }
    assert TrimLeft(s[pos..]) == s[pos..];
    r := DecodeTrimmed(s[pos..], maxLen);
  }

  // ---- Base58Check, over any 32-byte hash ----

  function EncodedCheck(hash: seq<byte> -> seq<byte>, b: seq<byte>): (s: string)
    requires |hash(b)| == 32
  {
    Encoded(b + hash(b)[..4])
  }

  const INT_MAX := 0x7fff_ffff

  function DecodedCheck(hash: seq<byte> -> seq<byte>, s: string, maxLen: int): (r: Option<seq<byte>>)
    requires forall b :: |hash(b)| == 32
  {
    var d := Decoded(s, if maxLen > INT_MAX - 4 then INT_MAX else maxLen + 4);
    if d.None? || |d.value| < 4 then None else
      var body := d.value[..|d.value| - 4];
      if hash(body)[..4] != d.value[|d.value| - 4..] then None else Some(body)
  }

  /** A checked string decodes to what was encoded, within the length limit. */
  lemma CheckRoundTrip(hash: seq<byte> -> seq<byte>, b: seq<byte>, maxLen: int)
    requires (forall c :: |hash(c)| == 32) && |b| <= maxLen <= INT_MAX && |b| + 4 <= INT_MAX
    ensures DecodedCheck(hash, EncodedCheck(hash, b), maxLen) == Some(b)
  {
    var full := b + hash(b)[..4];
    DecodeEncode(full, if maxLen > INT_MAX - 4 then INT_MAX else maxLen + 4);
    assert full[..|full| - 4] == b && full[|full| - 4..] == hash(b)[..4];
  }

  /** Every accepted string carries the right checksum. */
  lemma CheckSound(hash: seq<byte> -> seq<byte>, s: string, maxLen: int)
    requires (forall c :: |hash(c)| == 32) && DecodedCheck(hash, s, maxLen).Some?
    ensures EncodedCheck(hash, DecodedCheck(hash, s, maxLen).value) == Trim(s)
  {
    var m := if maxLen > INT_MAX - 4 then INT_MAX else maxLen + 4;
    var d := Decoded(s, m).value;
    EncodeDecode(s, m);
    assert d == d[..|d| - 4] + d[|d| - 4..];
  }
}
