/** `bit_packed_atomic_flags`: eight discard flags to a byte. */
module BitFlags {
  const U32 := 0x1_0000_0000

  /** The bytes the source allocates for `size` flags: size + 7 is a 32-bit sum. */
  function FlagBytes(size: nat): (n: nat) {
    ((size + 7) % U32) / 8
  }

  /** The allocation holds all flags exactly up to size 2^32 - 8. */
  lemma FlagsCover(size: nat)
    requires size < U32
    ensures size <= 8 * FlagBytes(size) <==> size <= U32 - 8
  {
  }

  /** From size 2^32 - 7 on there is not a single flag, although the class comment
      allows up to 2^32 - 2 elements. */
  lemma NoFlagsAtAll(size: nat)
    requires U32 - 7 <= size < U32
    ensures FlagBytes(size) == 0
  {
  }

  /** `1 << (s & 7)` */
  function Bit(k: nat): (b: bv8)
    requires k < 8
    ensures b != 0
  {
    match k
    case 0 => 0x01 case 1 => 0x02 case 2 => 0x04 case 3 => 0x08
    case 4 => 0x10 case 5 => 0x20 case 6 => 0x40 case 7 => 0x80
  }

  lemma BitsApart(j: nat, k: nat)
    requires j < 8 && k < 8 && j != k
    ensures Bit(j) & Bit(k) == 0
  {
  }

  lemma OrBit(m: bv8, a: bv8, b: bv8)
    ensures a & b == 0 ==> (m | a) & b == m & b
    ensures (m | a) & a == a
  {
  }

  lemma AndNotBit(m: bv8, a: bv8, b: bv8)
    ensures a & b == 0 ==> (m & !a) & b == m & b
    ensures (m & !a) & a == 0
  {
  }

  predicate Test(m: bv8, k: nat)
    requires k < 8
  {
    m & Bit(k) != 0
  }

  lemma SetByte(m: bv8, k: nat, j: nat)
    requires k < 8 && j < 8
    ensures Test(m | Bit(k), j) == (j == k || Test(m, j))
  {
    OrBit(m, Bit(k), Bit(j));
    if j != k {
      BitsApart(k, j);
    }
  }

  lemma ClearByte(m: bv8, k: nat, j: nat)
    requires k < 8 && j < 8
    ensures Test(m & !Bit(k), j) == (j != k && Test(m, j))
  {
    AndNotBit(m, Bit(k), Bit(j));
    if j != k {
      BitsApart(k, j);
    }
  }

  lemma OnesByte(j: nat)
    requires j < 8
    ensures Test(0xFF, j)
  {
  }

  lemma SamePlace(s: nat, t: nat)
    ensures s == t <==> s / 8 == t / 8 && s % 8 == t % 8
  {
  }

  class Flags {
    const mem: array<bv8>

    /** All flags there are start set; there is one for each of `size` entries
        unless the 32-bit sum wraps. */
    constructor (size: nat)
      requires size < U32
      ensures fresh(mem) && mem.Length == FlagBytes(size)
      ensures size <= 8 * mem.Length <==> size <= U32 - 8
      ensures forall s: nat | s < 8 * mem.Length :: IsSet(s)
    {
      mem := new bv8[FlagBytes(size)](_ => 0xFF);
      new;
      FlagsCover(size);
      forall s: nat | s < 8 * mem.Length ensures IsSet(s) {
        OnesByte(s % 8);
      }
    }

    predicate IsSet(s: nat)
      requires s < 8 * mem.Length
      reads mem
    {
      Test(mem[s / 8], s % 8)
    }

    method BitSet(s: nat)
      requires s < 8 * mem.Length
      modifies mem
      ensures forall t: nat | t < 8 * mem.Length :: IsSet(t) == (t == s || old(IsSet(t)))
    {
      hide Test, Bit;
      ghost var was := mem[s / 8];
      mem[s / 8] := mem[s / 8] | Bit(s % 8);
      forall t: nat | t < 8 * mem.Length ensures IsSet(t) == (t == s || old(IsSet(t))) {
        SamePlace(s, t);
        SetByte(was, s % 8, t % 8);
      }
    }

    method BitUnset(s: nat)
      requires s < 8 * mem.Length
      modifies mem
      ensures forall t: nat | t < 8 * mem.Length :: IsSet(t) == (t != s && old(IsSet(t)))
    {
      hide Test, Bit;
      ghost var was := mem[s / 8];
      mem[s / 8] := mem[s / 8] & !Bit(s % 8);
      forall t: nat | t < 8 * mem.Length ensures IsSet(t) == (t != s && old(IsSet(t))) {
        SamePlace(s, t);
        ClearByte(was, s % 8, t % 8);
      }
    }
  }
}

/** `CuckooCache::cache`: eight candidate slots per element, lazy discarding and
    two live epochs.  The hash and the depth limit are arbitrary. */
module CuckooCache {
  import opened BitFlags
  import NatArith

  lemma DivLess(a: nat, n: nat)
    requires a < U32 * n
    ensures a / U32 < n
  {
  }

  /** `r` is to `n` as the 32-bit number `x` is to 2^32, rounded down. */
  predicate Scaled(x: nat, n: nat, r: nat) {
    r * U32 <= x * n < (r + 1) * U32
  }

  /** Maps a 32-bit hash onto [0, n) without a division. */
  function FastRange32(x: nat, n: nat): (r: nat)
    requires x < U32 && n > 0
    ensures r < n && Scaled(x, n, r)
  {
    NatArith.MulStrict(x, U32, n);
    DivLess(x * n, n);
    DivScaled(x * n);
    x * n / U32
  }

  lemma DivScaled(a: nat)
    ensures (a / U32) * U32 <= a < (a / U32 + 1) * U32
  {
  }

  function Loc<E>(hash: (nat, E) -> nat, size: nat, e: E, i: nat): (l: nat)
    requires size > 0
    ensures l < size && Scaled(hash(i, e) % U32, size, l)
  {
    FastRange32(hash(i, e) % U32, size)
  }

  /** The i-th location is where the i-th hash falls. */
  lemma LocsAre<E>(hash: (nat, E) -> nat, size: nat, e: E, i: nat)
    requires size > 0 && i < 8
    ensures Scaled(hash(i, e) % U32, size, Locs(hash, size, e)[i])
  {
    hide Loc, Scaled;
  }

  function Locs<E>(hash: (nat, E) -> nat, size: nat, e: E): (ls: seq<nat>)
    requires size > 0
    ensures |ls| == 8 && forall i | 0 <= i < 8 :: ls[i] < size
  {
    [Loc(hash, size, e, 0), Loc(hash, size, e, 1), Loc(hash, size, e, 2), Loc(hash, size, e, 3),
     Loc(hash, size, e, 4), Loc(hash, size, e, 5), Loc(hash, size, e, 6), Loc(hash, size, e, 7)]
  }

  // ---- Live slots of the current epoch ----

  function B(b: bool): int { if b then 1 else 0 }

  function Live(epoch: seq<bool>, collected: seq<bool>): nat
    requires |epoch| == |collected|
  {
    if epoch == [] then 0 else
      B(epoch[|epoch| - 1] && !collected[|epoch| - 1]) + Live(epoch[..|epoch| - 1], collected[..|epoch| - 1])
  }

  lemma {:induction false} LiveUpdate(epoch: seq<bool>, collected: seq<bool>, i: nat, e: bool, c: bool)
    requires |epoch| == |collected| && i < |epoch|
    ensures Live(epoch[i := e], collected[i := c])
         == Live(epoch, collected) - B(epoch[i] && !collected[i]) + B(e && !c)
  {
    var n := |epoch| - 1;
    if i < n {
      LiveUpdate(epoch[..n], collected[..n], i, e, c);
      assert epoch[i := e][..n] == epoch[..n][i := e] && collected[i := c][..n] == collected[..n][i := c];
    } else {
      assert epoch[i := e][..n] == epoch[..n] && collected[i := c][..n] == collected[..n];
    }
  }

  lemma {:induction false} LiveMonotone(a: seq<bool>, b: seq<bool>, epoch: seq<bool>)
    requires |a| == |b| == |epoch| && forall i | 0 <= i < |a| :: a[i] ==> b[i]
    ensures Live(epoch, b) <= Live(epoch, a)
  {
    if epoch != [] {
      var n := |epoch| - 1;
      LiveMonotone(a[..n], b[..n], epoch[..n]);
    }
  }

  lemma {:induction false} LiveNone(epoch: seq<bool>, collected: seq<bool>)
    requires |epoch| == |collected| && forall i | 0 <= i < |epoch| :: epoch[i] ==> collected[i]
    ensures Live(epoch, collected) == 0
  {
    if epoch != [] {
      LiveNone(epoch[..|epoch| - 1], collected[..|epoch| - 1]);
    }
  }

  function Max(a: nat, b: nat): nat {
    if a < b then b else a
  }

  /** How far the live count may run past the epoch size. */
  function Slack(epochSize: nat): nat {
    Max(1, epochSize / 16)
  }

  // ---- What the table means ----

  ghost function Stored<E(!new)>(dflt: E, t: seq<E>): set<E> {
    set e | e in t && e != dflt
  }

  /** Every stored element is in exactly one slot, one of its own eight, and a
      slot that is not discardable holds an element. */
  ghost predicate TableOk<E(!new)>(dflt: E, hash: (nat, E) -> nat, t: seq<E>, collected: seq<bool>)
  {
    && |t| > 0 && |collected| == |t|
    && (forall i | 0 <= i < |t| && t[i] != dflt :: i in Locs(hash, |t|, t[i]))
    && (forall i, j | 0 <= i < j < |t| && t[i] != dflt :: t[i] != t[j])
    && (forall i | 0 <= i < |t| && !collected[i] :: t[i] != dflt)
  }

  lemma MoreCollected<E(!new)>(dflt: E, hash: (nat, E) -> nat, t: seq<E>, c: seq<bool>, d: seq<bool>)
    requires TableOk(dflt, hash, t, c) && |d| == |c| && forall i | 0 <= i < |c| :: c[i] ==> d[i]
    ensures TableOk(dflt, hash, t, d)
  {
  }

  /** Putting an element that is not in the table into one of its slots. */
  lemma PutKeepsTable<E(!new)>(dflt: E, hash: (nat, E) -> nat, t: seq<E>, c: seq<bool>, loc: nat, x: E, d: seq<bool>)
    requires TableOk(dflt, hash, t, c) && loc < |t| && x != dflt && x !in t && loc in Locs(hash, |t|, x)
    requires |d| == |c| && forall i | 0 <= i < |c| && i != loc :: d[i] == c[i]
    ensures TableOk(dflt, hash, t[loc := x], d)
    ensures t[loc] != dflt ==> t[loc] !in t[loc := x]
    ensures Stored(dflt, t[loc := x]) == Stored(dflt, t) + {x} - (if t[loc] == dflt then {} else {t[loc]})
  {
    var u := t[loc := x];
    assert u[loc] == x;
    forall e | e in Stored(dflt, t) + {x} && (t[loc] == dflt || e != t[loc]) ensures e in Stored(dflt, u) {
      if e != x {
        var i :| 0 <= i < |t| && t[i] == e;
        assert u[i] == e;
      }
    }
    forall e | e in Stored(dflt, u) ensures e in Stored(dflt, t) + {x} && (t[loc] == dflt || e != t[loc]) {
      var i :| 0 <= i < |u| && u[i] == e;
      if i != loc {
        assert t[i] == e;
      }
    }
  }

  /** The eight slots are enough to look: `contains` is membership. */
  lemma FoundInLocs<E(!new)>(dflt: E, hash: (nat, E) -> nat, t: seq<E>, c: seq<bool>, e: E)
    requires TableOk(dflt, hash, t, c) && e != dflt
    ensures e in t <==> exists k :: 0 <= k < 8 && t[Locs(hash, |t|, e)[k]] == e
  {
    var ls := Locs(hash, |t|, e);
    if e in t {
      var i :| 0 <= i < |t| && t[i] == e;
      assert i in ls;
      var k :| 0 <= k < 8 && ls[k] == i;
      assert t[ls[k]] == e;
    }
  }

  class Cache<E(==,!new)> {
    const dflt: E
    const hash: (nat, E) -> nat
    const size: nat
    const table: array<E>
    const flags: Flags
    const epochFlags: array<bool>
    var counter: nat
    const epochSize: nat
    const depthLimit: nat

    ghost predicate Shaped() {
      && 0 < size < U32 && table.Length == size && epochFlags.Length == size && size <= 8 * flags.mem.Length
      && table as object != epochFlags && table as object != flags.mem && epochFlags as object != flags.mem
      && epochSize >= 1 && depthLimit >= 1
    }

    /** The discard flags, one per slot. */
    ghost function Collected(): (c: seq<bool>)
      requires Shaped()
      reads flags.mem
      ensures |c| == size && forall i: nat | i < size :: c[i] == flags.IsSet(i)
    {
      seq(size, (i: nat) requires i < size && size <= 8 * flags.mem.Length reads flags.mem => flags.IsSet(i))
    }

    ghost function LiveCount(): nat
      requires Shaped()
      reads flags.mem, epochFlags
    {
      Live(epochFlags[..], Collected())
    }

    ghost predicate Valid()
      reads this, table, epochFlags, flags.mem
    {
      && Shaped()
      && TableOk(dflt, hash, table[..], Collected())
      && LiveCount() + counter <= epochSize + Slack(epochSize)
    }

    ghost function Elements(): set<E>
      reads table
    {
      Stored(dflt, table[..])
    }

    /** setup.  `limit` is log2 of the size as the source computes it in floating
        point; the product 45 * size and the sum size + 7 are taken modulo 2^32.
        The seven largest sizes leave the cache without flags. */
    constructor (newSize: nat, limit: nat, dflt: E, hash: (nat, E) -> nat)
      requires newSize < U32 && limit >= 1
      ensures Valid() <==> newSize <= U32 - 8
      ensures Elements() == {} && counter == epochSize
      ensures Valid() ==> LiveCount() == 0
      ensures size == (if newSize < 2 then 2 else newSize) && depthLimit == limit
      ensures epochSize == Max(1, ((45 * size) % U32) / 100)
      ensures this.dflt == dflt && this.hash == hash
      ensures fresh(table) && fresh(flags.mem) && fresh(epochFlags)
    {
      var n: nat := if newSize < 2 then 2 else newSize;
      this.dflt, this.hash, size, depthLimit := dflt, hash, n, limit;
      table := new E[n](_ => dflt);
      epochFlags := new bool[n](_ => false);
      var f := new Flags(n);
      flags := f;
      var share: nat := ((45 * n) % U32) / 100;
      epochSize := if share < 1 then 1 else share;
      counter := if share < 1 then 1 else share;
      new;
      assert table as object != epochFlags && table as object != flags.mem && epochFlags as object != flags.mem;
      assert forall i | 0 <= i < size :: table[..][i] == dflt;
      if newSize <= U32 - 8 {
        LiveNone(epochFlags[..], Collected());
      }
    }

    /** The next insert ages the epochs. */
    ghost predicate Ageing()
      requires Shaped()
      reads this, epochFlags, flags.mem
    {
      counter == 0 && LiveCount() >= epochSize
    }

    /** The discard flags that the next insert works with. */
    ghost function Aged(): (c: seq<bool>)
      requires Shaped()
      reads this, epochFlags, flags.mem
      ensures |c| == size
    {
      var c := Collected();
      seq(size, (i: nat) requires i < size reads this, epochFlags, flags.mem => c[i] || (Ageing() && !epochFlags[i]))
    }

    /** The epochs that the next insert works with. */
    ghost function AgedEpochs(): (ep: seq<bool>)
      requires Shaped()
      reads this, epochFlags, flags.mem
      ensures |ep| == size
    {
      if Ageing() then seq(size, _ => false) else epochFlags[..]
    }

    /** Ages the epochs when the current one may be full, so that there is room
        for one more live element. */
    method EpochCheck()
      requires Valid()
      modifies this`counter, epochFlags, flags.mem
      ensures Shaped() && TableOk(dflt, hash, table[..], Collected())
      ensures LiveCount() + counter + 1 <= epochSize + Slack(epochSize)
      ensures forall i: nat | i < size ::
        flags.IsSet(i) == (old(flags.IsSet(i)) || (old(Ageing()) && !old(epochFlags[i])))
      ensures forall i: nat | i < size :: epochFlags[i] == (old(epochFlags[i]) && !old(Ageing()))
      ensures Collected() == old(Aged()) && epochFlags[..] == old(AgedEpochs())
      ensures counter == if old(counter) != 0 then old(counter) - 1 else if old(Ageing()) then epochSize
                         else Max(1, Max(epochSize / 16, epochSize - old(LiveCount())))
    {
      if counter != 0 {
        counter := counter - 1;
        return;
      }
      var unused := CountLive();
      if unused >= epochSize {
        Age();
        counter := epochSize;
      } else {
        var step := epochSize - unused;
        counter := Max(1, Max(epochSize / 16, step));
      }
    }

    method CountLive() returns (n: nat)
      requires Shaped()
      ensures n == LiveCount()
    {
      n := 0;
      ghost var c := Collected();
      for i := 0 to size
        invariant n == Live(epochFlags[..i], c[..i])
      {
        assert epochFlags[..i + 1][..i] == epochFlags[..i] && c[..i + 1][..i] == c[..i];
        n := n + if epochFlags[i] && !flags.IsSet(i) then 1 else 0;
      }
      assert epochFlags[..size] == epochFlags[..] && c[..size] == c;
    }

    /** Old-epoch slots become discardable, current ones become old. */
    method Age()
      requires Shaped() && TableOk(dflt, hash, table[..], Collected())
      modifies epochFlags, flags.mem
      ensures TableOk(dflt, hash, table[..], Collected())
      ensures LiveCount() == 0
      ensures forall i: nat | i < size :: flags.IsSet(i) == (old(flags.IsSet(i)) || !old(epochFlags[i]))
      ensures forall i: nat | i < size :: !epochFlags[i]
    {
      hide TableOk, Live, Flags.IsSet;
      ghost var c0 := Collected();
      for i := 0 to size
        invariant forall k: nat | k < i :: !epochFlags[k]
        invariant forall k: nat | i <= k < size :: epochFlags[k] == old(epochFlags[k])
        invariant forall k: nat | k < size :: flags.IsSet(k) == (c0[k] || (k < i && !old(epochFlags[k])))
        invariant table[..] == old(table[..])
      {
        if epochFlags[i] {
          epochFlags[i] := false;
        } else {
          flags.BitSet(i);
        }
      }
      LiveNone(epochFlags[..], Collected());
      MoreCollected(dflt, hash, table[..], c0, Collected());
    }

    /** contains: membership, optionally marking the element discardable. */
    method Contains(e: E, erase: bool) returns (found: bool)
      requires Valid() && e != dflt
      modifies flags.mem
      ensures Valid() && found == (e in Elements())
      ensures forall i: nat | i < size :: flags.IsSet(i) == (old(flags.IsSet(i)) || (erase && table[i] == e))
    {
      hide TableOk, Live, Locs;
      ghost var c, t := Collected(), table[..];
      FoundInLocs(dflt, hash, t, c, e);
      var locs := Locs(hash, size, e);
      for k := 0 to 8
        invariant forall j: nat | j < k :: table[locs[j]] != e
        invariant Collected() == c && table[..] == t
      {
        if table[locs[k]] == e {
          if erase {
            flags.BitSet(locs[k]);
            MoreCollected(dflt, hash, t, c, Collected());
            LiveMonotone(c, Collected(), epochFlags[..]);
            OnlySlot(dflt, hash, t, c, locs[k]);
          }
          assert t[locs[k]] == e;
          return true;
        }
      }
      assert forall i | 0 <= i < size && t[i] == e :: e in t;
      return false;
    }

    /** The displacement chain.  At most one element is lost, and if the chain
        ended in a free slot the lost one was discardable. */
    method InsertAged(e: E) returns (placed: bool, ghost lost: set<E>, ghost path: seq<nat>)
      requires Shaped() && TableOk(dflt, hash, table[..], Collected()) && e != dflt
      modifies table, epochFlags, flags.mem
      ensures TableOk(dflt, hash, table[..], Collected())
      ensures LiveCount() <= old(LiveCount()) + 1
      ensures Elements() == old(Elements()) + {e} - lost && |lost| <= 1
      ensures placed ==> forall i: nat | i < size && old(table[i]) in lost :: old(flags.IsSet(i))
      ensures placed ==> e !in lost
      ensures e in old(Elements()) ==> placed && lost == {}
      ensures Inserted(dflt, hash, depthLimit, Slots(old(table[..]), old(epochFlags[..]), old(Collected())), e, path,
                       Slots(table[..], epochFlags[..], Collected()), placed, lost)
    {
      hide TableOk, Live, Locs, Stored, Inserted, RightPath, Carried;
      ghost var t0, c, n0, ep := table[..], Collected(), LiveCount(), epochFlags[..];
      ghost var s0 := Slots(t0, ep, c);
      path := [];
      var x := e;
      var lastEpoch := true;
      var lastLoc: int := U32 - 1;
      var locs := Locs(hash, size, e);
      FoundInLocs(dflt, hash, t0, c, e);
      for k := 0 to 8
        invariant forall j: nat | j < k :: t0[locs[j]] != e
        invariant table[..] == t0 && Collected() == c && LiveCount() == n0 && epochFlags[..] == ep
      {
        if table[locs[k]] == e {
          Refresh(locs[k]);
          StoredHas(dflt, t0, e);
          InsertedAgain(dflt, hash, depthLimit, s0, e, locs[k]);
          return true, {}, path;
        }
      }
      StoredHas(dflt, t0, e);
      ghost var h0 := Hand(t0, ep, e, true, U32 - 1);
      PathStart(hash, c, h0);
      for depth := 0 to depthLimit
        invariant Collected() == c && TableOk(dflt, hash, table[..], c)
        invariant x != dflt && x !in table[..] && locs == Locs(hash, size, x)
        invariant Stored(dflt, table[..]) + {x} == Stored(dflt, t0) + {e}
        invariant LiveCount() + B(lastEpoch) <= n0 + 1
        invariant forall i: nat | i < size && c[i] :: table[i] == t0[i]
        invariant |path| == depth && forall i | 0 <= i < |path| :: path[i] < size
        invariant RightPath(hash, c, h0, path)
        invariant Hand(table[..], epochFlags[..], x, lastEpoch, lastLoc) == Carried(h0, path)
      {
        for k := 0 to 8
          invariant forall j: nat | j < k :: !c[locs[j]]
        {
          if flags.IsSet(locs[k]) {
            ghost var there := table[locs[k]];
            lost := if there == dflt then {} else {there};
            LostWasThere(dflt, hash, t0, c, e, locs[k], lost);
            FirstIs(locs, c, k);
            InsertedAt(dflt, hash, depthLimit, s0, e, path, locs[k], lost);
            Fill(locs[k], x, lastEpoch);
            return true, lost, path;
          }
        }
        FirstIs(locs, c, 8);
        PathStep(hash, c, h0, path);
        lastLoc := NextLoc(locs, lastLoc);
        x, lastEpoch := Swap(lastLoc, x, lastEpoch);
        path := path + [lastLoc];
        locs := Locs(hash, size, x);
      }
      DroppedHand(dflt, table[..], x, Stored(dflt, t0) + {e});
      InsertedNowhere(dflt, hash, depthLimit, s0, e, path);
      return false, {x}, path;
    }

    /** please_keep and mark as recent: the element is already stored. */
    method Refresh(loc: nat)
      requires Shaped() && TableOk(dflt, hash, table[..], Collected()) && loc < size && table[loc] != dflt
      modifies epochFlags, flags.mem
      ensures TableOk(dflt, hash, table[..], Collected()) && table[..] == old(table[..])
      ensures Collected() == old(Collected())[loc := false] && epochFlags[..] == old(epochFlags[..])[loc := true]
      ensures LiveCount() <= old(LiveCount()) + 1
    {
      hide TableOk, Live;
      ghost var c, ep := Collected(), epochFlags[..];
      flags.BitUnset(loc);
      epochFlags[loc] := true;
      assert Collected() == c[loc := false] && epochFlags[..] == ep[loc := true];
      LiveUpdate(ep, c, loc, true, false);
      KeptFlag(dflt, hash, table[..], c, loc);
    }

    /** Store `x` in a discardable slot. */
    method Fill(loc: nat, x: E, epoch: bool)
      requires Shaped() && TableOk(dflt, hash, table[..], Collected()) && loc < size && flags.IsSet(loc)
      requires x != dflt && x !in table[..] && loc in Locs(hash, size, x)
      modifies table, epochFlags, flags.mem
      ensures TableOk(dflt, hash, table[..], Collected())
      ensures LiveCount() == old(LiveCount()) + B(epoch)
      ensures table[..] == old(table[..])[loc := x] && epochFlags[..] == old(epochFlags[..])[loc := epoch]
      ensures Collected() == old(Collected())[loc := false]
      ensures Elements() == old(Elements()) + {x} - (if old(table[loc]) == dflt then {} else {old(table[loc])})
    {
      hide TableOk, Live, Locs, Stored;
      ghost var t, c, ep := table[..], Collected(), epochFlags[..];
      table[loc] := x;
      flags.BitUnset(loc);
      epochFlags[loc] := epoch;
      assert table[..] == t[loc := x] && Collected() == c[loc := false] && epochFlags[..] == ep[loc := epoch];
      PutKeepsTable(dflt, hash, t, c, loc, x, c[loc := false]);
      LiveUpdate(ep, c, loc, epoch, false);
    }

    /** Exchange the element in hand with the one in a slot that must be kept. */
    method Swap(loc: nat, x: E, epoch: bool) returns (y: E, epoch': bool)
      requires Shaped() && TableOk(dflt, hash, table[..], Collected()) && loc < size && !flags.IsSet(loc)
      requires x != dflt && x !in table[..] && loc in Locs(hash, size, x)
      modifies table, epochFlags
      ensures TableOk(dflt, hash, table[..], Collected()) && table[..] == old(table[..])[loc := x]
      ensures epochFlags[..] == old(epochFlags[..])[loc := epoch] && epoch' == old(epochFlags[loc])
      ensures y == old(table[loc]) && y != dflt && y !in table[..]
      ensures Elements() + {y} == old(Elements()) + {x}
      ensures LiveCount() + B(epoch') == old(LiveCount()) + B(epoch)
    {
      hide TableOk, Live, Locs, Stored;
      ghost var t, c, ep := table[..], Collected(), epochFlags[..];
      y, epoch' := table[loc], epochFlags[loc];
      table[loc] := x;
      epochFlags[loc] := epoch;
      KeptSlot(dflt, hash, t, c, loc);
      assert table[..] == t[loc := x] && Collected() == c && epochFlags[..] == ep[loc := epoch];
      PutKeepsTable(dflt, hash, t, c, loc, x, c);
      LiveUpdate(ep, c, loc, epoch, false);
      assert c[loc := false] == c;
      StoredHas(dflt, t, y);
      assert y in t;
    }

    /** insert.  An element that is dropped for a free slot was discardable, or
        became so because this insert aged its epoch. */
    method Insert(e: E) returns (placed: bool, ghost lost: set<E>, ghost path: seq<nat>)
      requires Valid() && e != dflt
      modifies this`counter, table, epochFlags, flags.mem
      ensures Valid()
      ensures Elements() == old(Elements()) + {e} - lost && |lost| <= 1
      ensures placed ==> e in Elements()
      ensures e in old(Elements()) ==> e in Elements() && lost == {}
      ensures placed ==> forall i: nat | i < size && old(table[i]) in lost ::
        old(flags.IsSet(i)) || (old(Ageing()) && !old(epochFlags[i]))
      ensures Inserted(dflt, hash, depthLimit, Slots(old(table[..]), old(AgedEpochs()), old(Aged())), e, path,
                       Slots(table[..], epochFlags[..], Collected()), placed, lost)
      ensures e !in old(table[..]) ==>
        var locs := Locs(hash, size, e);
        var k := First(locs, old(Aged()));
        && (k < 8 ==> placed && table[locs[k]] == e && !flags.IsSet(locs[k]) && epochFlags[locs[k]])
        && (!placed ==> k == 8 && (depthLimit == 1 ==> lost == {old(table[..])[locs[1]]}))
      ensures forall i: nat | i < size && old(table[i]) == e :: table[i] == e && !flags.IsSet(i) && epochFlags[i]
    {
      hide TableOk, Live, Locs, Stored, Flags.IsSet, Inserted, First;
      EpochCheck();
      ghost var s := Slots(table[..], epochFlags[..], Collected());
      placed, lost, path := InsertAged(e);
      ghost var r := Slots(table[..], epochFlags[..], Collected());
      InsertMeans(dflt, hash, depthLimit, s, e, path, r, placed, lost);
      forall i: nat | i < size && s.table[i] == e ensures !r.free[i] && r.epochs[i] && r.table[i] == e {
        OnlySlot(dflt, hash, s.table, s.free, i);
      }
    }

    /** Any run of inserts and lookups keeps the table sound and the live count
        within its bound, and stores nothing that was not inserted. */
    method Run(ops: seq<Op<E>>)
      requires Valid() && forall i | 0 <= i < |ops| :: ops[i].e != dflt
      modifies this`counter, table, epochFlags, flags.mem
      ensures Valid() && LiveCount() <= epochSize + Slack(epochSize)
      ensures forall x | x in Elements() :: x in old(Elements()) || Ins(x) in ops
    {
      hide TableOk, Live, Stored;
      for k := 0 to |ops|
        invariant Valid()
        invariant forall x | x in Elements() :: x in old(Elements()) || Ins(x) in ops
      {
        match ops[k]
        case Ins(e) =>
          assert Ins(e) in ops;
          var _, _, _ := Insert(e);
        case Has(e, erase) => var _ := Contains(e, erase);
      }
    }
  }

  datatype Op<E> = Ins(e: E) | Has(e: E, erase: bool)

  // ---- Facts used by the chain ----

  function IndexOf(ls: seq<nat>, x: int): (i: nat)
    ensures i <= |ls| && (i < |ls| ==> ls[i] == x)
  {
    if ls == [] then 0 else if ls[0] == x then 0 else 1 + IndexOf(ls[1..], x)
  }

  /** Where the element in hand is put when no slot is free: the location after
      the one it was taken from. */
  function NextLoc(locs: seq<nat>, last: int): (loc: nat)
    requires |locs| == 8
    ensures loc in locs
  {
    locs[(1 + IndexOf(locs, last)) % 8]
  }

  /** A new element, which was taken from nowhere, first displaces the occupant
      of its second location. */
  lemma FirstDisplaced<E>(hash: (nat, E) -> nat, size: nat, e: E)
    requires 0 < size < U32
    ensures NextLoc(Locs(hash, size, e), U32 - 1) == Locs(hash, size, e)[1]
  {
    hide Locs;
    NotThere(Locs(hash, size, e), U32 - 1);
  }

  /** Later elements go to the location after the first one that names the slot
      they were taken from, and from the last location to the first. */
  lemma NextDisplaced(locs: seq<nat>, k: nat)
    requires |locs| == 8 && k < 8 && forall j | 0 <= j < k :: locs[j] != locs[k]
    ensures NextLoc(locs, locs[k]) == locs[if k == 7 then 0 else k + 1]
  {
    FoundAt(locs, k);
  }

  lemma {:induction false} FoundAt(locs: seq<nat>, k: nat)
    requires k < |locs| && forall j | 0 <= j < k :: locs[j] != locs[k]
    ensures IndexOf(locs, locs[k]) == k
  {
    if k > 0 {
      assert locs[0] != locs[k];
      FoundAt(locs[1..], k - 1);
    }
  }

  lemma {:induction false} NotThere(locs: seq<nat>, x: int)
    requires forall i | 0 <= i < |locs| :: locs[i] != x
    ensures IndexOf(locs, x) == |locs|
  {
    if locs != [] {
      NotThere(locs[1..], x);
    }
  }

  // ---- What an insert does to the slots ----

  /** Elements, epochs and discard flags, slot by slot. */
  datatype Slots<E> = Slots(table: seq<E>, epochs: seq<bool>, free: seq<bool>)

  ghost predicate Sized<E>(s: Slots<E>) {
    0 < |s.table| == |s.epochs| == |s.free| < U32
  }

  /** The element in hand, with its epoch and the location it was taken from. */
  datatype Hand<E> = Hand(table: seq<E>, epochs: seq<bool>, x: E, epoch: bool, last: int)

  /** The first location of the list that is free; the length of the list if none is. */
  function First(locs: seq<nat>, c: seq<bool>): (k: nat)
    requires forall i | 0 <= i < |locs| :: locs[i] < |c|
    ensures k <= |locs| && (k < |locs| ==> c[locs[k]]) && forall j | 0 <= j < k :: !c[locs[j]]
  {
    if locs == [] then 0 else if c[locs[0]] then 0 else 1 + First(locs[1..], c)
  }

  lemma FirstIs(locs: seq<nat>, c: seq<bool>, k: nat)
    requires k <= |locs| && forall i | 0 <= i < |locs| :: locs[i] < |c|
    requires (k < |locs| ==> c[locs[k]]) && forall j: nat | j < k :: !c[locs[j]]
    ensures First(locs, c) == k
  {
    hide First;
    var f: nat := First(locs, c);
  }

  function Carried<E>(h: Hand<E>, path: seq<nat>): (r: Hand<E>)
    requires |h.table| == |h.epochs| && forall i | 0 <= i < |path| :: path[i] < |h.table|
    ensures |r.table| == |r.epochs| == |h.table|
  {
    if path == [] then h else
      var loc := path[|path| - 1];
      var g := Carried(h, path[..|path| - 1]);
      Hand(g.table[loc := g.x], g.epochs[loc := g.epoch], g.table[loc], g.epochs[loc], loc)
  }

  /** At every step nothing is free for the element in hand, and it goes to the
      location after the one it was taken from. */
  ghost predicate RightPath<E(!new)>(hash: (nat, E) -> nat, c: seq<bool>, h: Hand<E>, path: seq<nat>)
    requires 0 < |h.table| == |h.epochs| == |c|
  {
    && (forall i | 0 <= i < |path| :: path[i] < |h.table|)
    && forall i | 0 <= i < |path| ::
      var g := Carried(h, path[..i]);
      var locs := Locs(hash, |h.table|, g.x);
      First(locs, c) == 8 && path[i] == NextLoc(locs, g.last)
  }

  lemma PathStart<E(!new)>(hash: (nat, E) -> nat, c: seq<bool>, h: Hand<E>)
    requires 0 < |h.table| == |h.epochs| == |c|
    ensures RightPath(hash, c, h, []) && Carried(h, []) == h
  {
  }

  lemma PathStep<E(!new)>(hash: (nat, E) -> nat, c: seq<bool>, h: Hand<E>, path: seq<nat>)
    requires 0 < |h.table| == |h.epochs| == |c| && RightPath(hash, c, h, path)
    ensures forall i | 0 <= i < |path| :: path[i] < |h.table|
    ensures var g := Carried(h, path);
      var locs := Locs(hash, |h.table|, g.x);
      var loc := NextLoc(locs, g.last);
      && loc < |h.table|
      && (First(locs, c) == 8 ==> RightPath(hash, c, h, path + [loc]))
      && Carried(h, path + [loc])
           == Hand(g.table[loc := g.x], g.epochs[loc := g.epoch], g.table[loc], g.epochs[loc], loc)
  {
    hide Locs, First, NextLoc;
    var g := Carried(h, path);
    var locs := Locs(hash, |h.table|, g.x);
    var loc := NextLoc(locs, g.last);
    var longer := path + [loc];
    assert longer[..|path|] == path;
    forall i | 0 <= i < |path| ensures longer[..i] == path[..i] && longer[i] == path[i] {
    }
  }

  /** The whole effect of an insert: a stored element is refreshed; another goes
      to the first free of its locations, or else displaces its way along a path
      until an element in hand finds a free location or the limit is reached. */
  ghost predicate Inserted<E(!new)>(dflt: E, hash: (nat, E) -> nat, limit: nat, s: Slots<E>, e: E, path: seq<nat>,
                                    r: Slots<E>, placed: bool, lost: set<E>)
    requires Sized(s)
  {
    var h := Hand(s.table, s.epochs, e, true, U32 - 1);
    if e in s.table then
      && placed && lost == {} && path == [] && r.table == s.table
      && exists i ::
           0 <= i < |s.table| && s.table[i] == e && r.epochs == s.epochs[i := true] && r.free == s.free[i := false]
    else
      && RightPath(hash, s.free, h, path)
      && var g := Carried(h, path);
        var locs := Locs(hash, |s.table|, g.x);
        var k := First(locs, s.free);
        if placed then
          && |path| < limit && k < 8
          && r == Slots(g.table[locs[k] := g.x], g.epochs[locs[k] := g.epoch], s.free[locs[k] := false])
          && lost == if g.table[locs[k]] == dflt then {} else {g.table[locs[k]]}
        else |path| == limit && r == Slots(g.table, g.epochs, s.free) && lost == {g.x}
  }

  lemma InsertedAgain<E(!new)>(dflt: E, hash: (nat, E) -> nat, limit: nat, s: Slots<E>, e: E, loc: nat)
    requires Sized(s) && loc < |s.table| && s.table[loc] == e
    ensures Inserted(dflt, hash, limit, s, e, [], Slots(s.table, s.epochs[loc := true], s.free[loc := false]), true, {})
  {
  }

  lemma InsertedAt<E(!new)>(dflt: E, hash: (nat, E) -> nat, limit: nat, s: Slots<E>, e: E, path: seq<nat>, loc: nat,
                            lost: set<E>)
    requires Sized(s) && e !in s.table && |path| < limit
    requires RightPath(hash, s.free, Hand(s.table, s.epochs, e, true, U32 - 1), path)
    requires var g := Carried(Hand(s.table, s.epochs, e, true, U32 - 1), path);
      var locs := Locs(hash, |s.table|, g.x);
      && First(locs, s.free) < 8 && loc == locs[First(locs, s.free)]
      && lost == if g.table[loc] == dflt then {} else {g.table[loc]}
    ensures var g := Carried(Hand(s.table, s.epochs, e, true, U32 - 1), path);
      Inserted(dflt, hash, limit, s, e, path,
               Slots(g.table[loc := g.x], g.epochs[loc := g.epoch], s.free[loc := false]), true, lost)
  {
    hide RightPath, Carried, Locs, First;
  }

  lemma InsertedNowhere<E(!new)>(dflt: E, hash: (nat, E) -> nat, limit: nat, s: Slots<E>, e: E, path: seq<nat>)
    requires Sized(s) && e !in s.table && |path| == limit
    requires RightPath(hash, s.free, Hand(s.table, s.epochs, e, true, U32 - 1), path)
    ensures var g := Carried(Hand(s.table, s.epochs, e, true, U32 - 1), path);
      Inserted(dflt, hash, limit, s, e, path, Slots(g.table, g.epochs, s.free), false, {g.x})
  {
    hide RightPath, Carried, Locs, First;
  }

  /** A new element with a free location takes the first one, unerasable and of
      the current epoch; only without any can it fail to be placed, and with a
      limit of one it then costs the occupant of its second location.  A stored
      element becomes unerasable and current. */
  lemma InsertMeans<E(!new)>(dflt: E, hash: (nat, E) -> nat, limit: nat, s: Slots<E>, e: E, path: seq<nat>,
                             r: Slots<E>, placed: bool, lost: set<E>)
    requires Sized(s) && limit > 0 && Inserted(dflt, hash, limit, s, e, path, r, placed, lost)
    ensures |r.table| == |r.epochs| == |r.free| == |s.table|
    ensures e !in s.table ==>
      var locs := Locs(hash, |s.table|, e);
      var k := First(locs, s.free);
      && (k < 8 ==> placed && r.table[locs[k]] == e && !r.free[locs[k]] && r.epochs[locs[k]])
      && (!placed ==> k == 8 && (limit == 1 ==> lost == {s.table[locs[1]]}))
    ensures e in s.table ==>
      r.table == s.table && exists i :: 0 <= i < |s.table| && s.table[i] == e && !r.free[i] && r.epochs[i]
  {
    var h := Hand(s.table, s.epochs, e, true, U32 - 1);
    PathStart(hash, s.free, h);
    FirstDisplaced(hash, |s.table|, e);
    hide Locs, First, NextLoc;
    if e !in s.table && path != [] {
      assert path[..0] == [];
      if |path| == 1 {
        assert path == [path[0]];
      }
    }
  }

  lemma OnlySlot<E(!new)>(dflt: E, hash: (nat, E) -> nat, t: seq<E>, c: seq<bool>, loc: nat)
    requires TableOk(dflt, hash, t, c) && loc < |t| && t[loc] != dflt
    ensures forall i | 0 <= i < |t| :: t[i] == t[loc] <==> i == loc
  {
  }

  lemma KeptSlot<E(!new)>(dflt: E, hash: (nat, E) -> nat, t: seq<E>, c: seq<bool>, loc: nat)
    requires TableOk(dflt, hash, t, c) && loc < |t| && !c[loc]
    ensures t[loc] != dflt
  {
  }

  lemma KeptFlag<E(!new)>(dflt: E, hash: (nat, E) -> nat, t: seq<E>, c: seq<bool>, loc: nat)
    requires TableOk(dflt, hash, t, c) && loc < |t| && t[loc] != dflt
    ensures TableOk(dflt, hash, t, c[loc := false])
  {
  }

  lemma StoredHas<E(!new)>(dflt: E, t: seq<E>, e: E)
    requires e != dflt
    ensures e in Stored(dflt, t) <==> e in t
  {
  }

  lemma DroppedHand<E(!new)>(dflt: E, t: seq<E>, x: E, all: set<E>)
    requires x !in t && Stored(dflt, t) + {x} == all
    ensures Stored(dflt, t) == all - {x}
  {
  }

  /** The overwritten slot was discardable from the start and held nothing but what it held. */
  lemma LostWasThere<E(!new)>(dflt: E, hash: (nat, E) -> nat, t: seq<E>, c: seq<bool>, e: E, loc: nat, lost: set<E>)
    requires TableOk(dflt, hash, t, c) && loc < |t| && c[loc] && e !in t
    requires lost == if t[loc] == dflt then {} else {t[loc]}
    ensures |lost| <= 1 && e !in lost
    ensures forall i | 0 <= i < |t| && t[i] in lost :: c[i]
  {
  }
}
