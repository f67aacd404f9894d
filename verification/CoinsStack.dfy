/** A stack of write-back coin caches over a database, updated in place, and
    the proof that it behaves like a stack of plain outpoint-to-coin maps. */
module CoinsStack {
  import opened MapSums
  import opened Options
  import opened CoinsModel

  /** The map seen at height `i` of the stack: 0 is the database. */
  function ViewAt(db: CoinMap, layers: seq<Layer>, i: nat): CoinMap
    requires i <= |layers|
  {
    if i == 0 then db else Overlay(ViewAt(db, layers, i - 1), layers[i - 1].entries)
  }

  function Views(db: CoinMap, layers: seq<Layer>): (vs: seq<CoinMap>)
    ensures |vs| == |layers| + 1
    ensures forall i | 0 <= i <= |layers| :: vs[i] == ViewAt(db, layers, i)
  {
    seq(|layers| + 1, i requires 0 <= i <= |layers| => ViewAt(db, layers, i))
  }

  ghost predicate StackOk(mem: Script -> nat, db: CoinMap, layers: seq<Layer>) {
    && NoneSpent(db)
    && forall i | 0 <= i < |layers| :: LayerOk(mem, ViewAt(db, layers, i), layers[i])
  }

  lemma {:induction false} ViewLocal(db: CoinMap, a: seq<Layer>, b: seq<Layer>, i: nat)
    requires i <= |a| && i <= |b| && a[..i] == b[..i]
    ensures ViewAt(db, a, i) == ViewAt(db, b, i)
  {
    if i > 0 {
      assert a[..i][i - 1] == b[..i][i - 1];
      assert a[..i - 1] == a[..i][..i - 1] && b[..i - 1] == b[..i][..i - 1];
      ViewLocal(db, a, b, i - 1);
    }
  }

  /** Two stacks whose layers show the same over equal views show the same everywhere. */
  ghost predicate SameViews(db: CoinMap, a: seq<Layer>, b: seq<Layer>) {
    |a| == |b| && forall i | 0 <= i <= |a| :: ViewAt(db, a, i) == ViewAt(db, b, i)
  }

  /** Replacing one layer by one that shows the same changes no view. */
  lemma {:induction false} ReplaceLayer(db: CoinMap, a: seq<Layer>, k: nat, l: Layer)
    requires k < |a|
    requires Overlay(ViewAt(db, a, k), l.entries) == ViewAt(db, a, k + 1)
    ensures SameViews(db, a, a[k := l])
  {
    forall i | 0 <= i <= |a| ensures ViewAt(db, a, i) == ViewAt(db, a[k := l], i) {
      ReplaceLayerAt(db, a, k, l, i);
    }
  }

  lemma {:induction false} ReplaceLayerAt(db: CoinMap, a: seq<Layer>, k: nat, l: Layer, i: nat)
    requires k < |a| && i <= |a|
    requires Overlay(ViewAt(db, a, k), l.entries) == ViewAt(db, a, k + 1)
    ensures ViewAt(db, a, i) == ViewAt(db, a[k := l], i)
  {
    hide Overlay;
    if i > 0 {
      ReplaceLayerAt(db, a, k, l, i - 1);
    }
  }

  lemma ReplaceKeepsStack(mem: Script -> nat, db: CoinMap, a: seq<Layer>, k: nat, l: Layer)
    requires StackOk(mem, db, a) && k < |a| && LayerOk(mem, ViewAt(db, a, k), l)
    requires Overlay(ViewAt(db, a, k), l.entries) == ViewAt(db, a, k + 1)
    ensures StackOk(mem, db, a[k := l]) && SameViews(db, a, a[k := l])
  {
    hide LayerOk, Overlay;
    ReplaceLayer(db, a, k, l);
  }

  /** The top layer may show anything new; the views below do not notice. */
  lemma TopViews(db: CoinMap, a: seq<Layer>, l: Layer)
    requires |a| > 0
    ensures var b := a[|a| - 1 := l];
      && ViewAt(db, b, |a|) == Overlay(ViewAt(db, a, |a| - 1), l.entries)
      && forall i | 0 <= i < |a| :: ViewAt(db, b, i) == ViewAt(db, a, i)
  {
    hide Overlay;
    var b := a[|a| - 1 := l];
    forall i | 0 <= i < |a| ensures ViewAt(db, b, i) == ViewAt(db, a, i) {
      assert a[..i] == b[..i];
      ViewLocal(db, a, b, i);
    }
  }

  lemma ReplaceTop(mem: Script -> nat, db: CoinMap, a: seq<Layer>, l: Layer)
    requires StackOk(mem, db, a) && |a| > 0
    ensures LayerOk(mem, ViewAt(db, a, |a| - 1), l) <==> StackOk(mem, db, a[|a| - 1 := l])
  {
    hide LayerOk, Overlay, ViewAt;
    TopViews(db, a, l);
    var b := a[|a| - 1 := l];
    if LayerOk(mem, ViewAt(db, a, |a| - 1), l) {
      forall i | 0 <= i < |b| ensures LayerOk(mem, ViewAt(db, b, i), b[i]) {
      }
    }
    if StackOk(mem, db, b) {
      assert LayerOk(mem, ViewAt(db, b, |a| - 1), b[|a| - 1]);
    }
  }

  lemma {:induction false} ViewsUnspent(db: CoinMap, a: seq<Layer>, i: nat)
    requires NoneSpent(db) && i <= |a|
    ensures NoneSpent(ViewAt(db, a, i))
  {
    if i > 0 {
      ViewsUnspent(db, a, i - 1);
      OverlayUnspent(ViewAt(db, a, i - 1), a[i - 1].entries);
    }
  }

  lemma OverlayUnspent(base: CoinMap, es: EntryMap)
    requires NoneSpent(base)
    ensures NoneSpent(Overlay(base, es))
  {
  }

  // ---- The plain specification: a stack of maps ----

  datatype Op =
    | OpGet(o: OutPoint)
    | OpAdd(o: OutPoint, coin: Coin, overwrite: bool)
    | OpSpend(o: OutPoint)
    | OpUncache(o: OutPoint)
    | OpSync
    | OpFlush
    | OpPush
    | OpDiscard

  /** What each operation means on plain maps; the last map is the top. */
  function PlainStep(unspendable: Script -> bool, vs: seq<CoinMap>, op: Op): seq<CoinMap>
    requires |vs| >= 2
  {
    var top := |vs| - 1;
    match op
    case OpGet(_) => vs
    case OpAdd(o, coin, _) => if unspendable(coin.script) then vs else vs[top := vs[top][o := coin]]
    case OpSpend(o) => vs[top := vs[top] - {o}]
    case OpUncache(_) => vs
    case OpSync => vs[top - 1 := vs[top]]
    case OpFlush => vs[top - 1 := vs[top]]
    case OpPush => vs + [vs[top]]
    case OpDiscard => if top >= 2 then vs[..top] else vs
  }

  /** What callers promise: coins added are unspent, and an add that claims not
      to overwrite names an outpoint not unspent in the view. */
  predicate Allowed(unspendable: Script -> bool, vs: seq<CoinMap>, op: Op)
    requires |vs| >= 2
  {
    op.OpAdd? ==> !IsSpent(op.coin) && (op.overwrite || unspendable(op.coin.script) || op.o !in vs[|vs| - 1])
  }

  function PlainRun(unspendable: Script -> bool, vs: seq<CoinMap>, ops: seq<Op>): (r: seq<CoinMap>)
    requires |vs| >= 2
    ensures |r| >= 2
    decreases ops
  {
    if ops == [] then vs else PlainRun(unspendable, PlainStep(unspendable, vs, ops[0]), ops[1..])
  }

  predicate AllAllowed(unspendable: Script -> bool, vs: seq<CoinMap>, ops: seq<Op>)
    requires |vs| >= 2
    decreases ops
  {
    ops == [] ||
    (Allowed(unspendable, vs, ops[0]) && AllAllowed(unspendable, PlainStep(unspendable, vs, ops[0]), ops[1..]))
  }

  class Caches {
    const mem: Script -> nat
    const unspendable: Script -> bool
    var db: CoinMap
    var layers: seq<Layer>

    ghost predicate Valid()
      reads this
    {
      |layers| > 0 && mem([]) == 0 && StackOk(mem, db, layers)
    }

    ghost function Seen(): seq<CoinMap>
      reads this
    {
      Views(db, layers)
    }

    /** The map the top cache shows. */
    ghost function Observed(): CoinMap
      reads this
    {
      ViewAt(db, layers, |layers|)
    }

    /** One empty cache over a database. */
    constructor (mem: Script -> nat, unspendable: Script -> bool, db: CoinMap)
      requires mem([]) == 0 && NoneSpent(db)
      ensures Valid() && Seen() == [db, db]
    {
      this.mem, this.unspendable, this.db := mem, unspendable, db;
      layers := [Layer(map[], 0)];
      new;
      assert Overlay(db, map[]) == db;
      assert ViewAt(db, layers, 1) == Overlay(ViewAt(db, layers, 0), layers[0].entries);
    }

    /** GetCoin of the view at height `i`: look in this cache, else ask the one
        below and keep a clean copy.  The answer is the plain map's, and no view
        changes. */
    method GetCoinAt(i: nat, o: OutPoint) returns (r: Option<Coin>)
      requires Valid() && i <= |layers|
      modifies this`layers
      ensures Valid() && SameViews(db, old(layers), layers)
      ensures r == if o in ViewAt(db, layers, i) then Some(ViewAt(db, layers, i)[o]) else None
      ensures i > 0 && r.Some? ==> o in layers[i - 1].entries
      ensures forall j | i <= j < |layers| :: layers[j] == old(layers)[j]
      ensures i > 0 && o in old(layers)[i - 1].entries ==> layers == old(layers)
      ensures i > 0 && r.None? ==> layers[i - 1] == old(layers)[i - 1]
      ensures i > 0 && r.Some? && o !in old(layers)[i - 1].entries ==>
        layers[i - 1].entries == old(layers)[i - 1].entries[o := Entry(r.value, false, false)]
      decreases i
    {
      hide StackOk, ViewAt;
      BottomIs(db, layers);
      if i == 0 {
        return if o in db then Some(db[o]) else None;
      }
      ViewLookup(db, layers, i - 1, o);
      if o !in layers[i - 1].entries {
        r := GetCoinAt(i - 1, o);
        if r.None? { return; }
        var l := layers[i - 1];
        CopyKeepsStack(mem, db, layers, i - 1, o);
        layers := layers[i - 1 := Layer(l.entries[o := Entry(r.value, false, false)], l.usage + mem(r.value.script))];
        return;
      }
      var coin := layers[i - 1].entries[o].coin;
      return if IsSpent(coin) then None else Some(coin);
    }

    method GetCoin(o: OutPoint) returns (r: Option<Coin>)
      requires Valid()
      modifies this`layers
      ensures Valid() && Seen() == old(Seen())
      ensures r == if o in Observed() then Some(Observed()[o]) else None
    {
      r := GetCoinAt(|layers|, o);
    }

    /** AddCoin.  Unless it throws, the view gains the coin.  The flags and the
        memory total stay truthful exactly when the caller was right to claim no
        overwrite; the throwing path has already taken the old coin's memory off
        the total. */
    method AddCoin(o: OutPoint, coin: Coin, possibleOverwrite: bool) returns (thrown: bool)
      requires |layers| > 0 && !IsSpent(coin)
      modifies this`layers
      ensures |layers| == old(|layers|) && layers[..|layers| - 1] == old(layers[..|layers| - 1])
      ensures unspendable(coin.script) ==> layers == old(layers) && !thrown
      ensures !unspendable(coin.script) ==>
        (thrown <==> !possibleOverwrite && old(HasUnspent(layers[|layers| - 1].entries, o)))
      ensures !unspendable(coin.script) && !thrown ==>
        Seen() == old(Seen())[|layers| := old(Observed())[o := coin]]
      ensures !unspendable(coin.script) && !thrown ==>
        var es := old(layers[|layers| - 1].entries);
        layers[|layers| - 1].entries == es[o := NewEntry(es, o, coin, possibleOverwrite)]
      ensures thrown ==> Seen() == old(Seen())
      ensures old(Valid()) ==> (Valid() <==>
        || unspendable(coin.script) || possibleOverwrite || o !in old(Observed())
        || (thrown && old(mem(layers[|layers| - 1].entries[o].coin.script)) == 0))
    {
      hide StackOk, LayerOk, ViewAt, EntriesOk, Views, Overlay;
      if unspendable(coin.script) { return false; }
      ghost var a := layers;
      var top := |layers| - 1;
      var l := layers[top];
      var inserted := o !in l.entries;
      var entry := if inserted then Entry(EMPTY_COIN, false, false) else l.entries[o];
      var usage := l.usage;
      if !inserted {
        usage := usage - mem(entry.coin.script);
      }
      var isFresh := false;
      if !possibleOverwrite {
        if !IsSpent(entry.coin) {
          layers := layers[top := Layer(l.entries, usage)];
          ThrowCosts(mem, db, a, o, usage);
          return true;
        }
        isFresh := !entry.isDirty;
      }
      var e := Entry(coin, true, entry.isFresh || isFresh);
      usage := usage + mem(coin.script);
      layers := layers[top := Layer(l.entries[o := e], usage)];
      AddedStack(mem, db, a, o, coin, possibleOverwrite, usage);
      return false;
    }

    /** SpendCoin removes the outpoint from the view.  It reports success
        whenever the top cache has or can fetch an entry, spent or not. */
    method SpendCoin(o: OutPoint) returns (ok: bool, moved: Coin)
      requires Valid()
      modifies this`layers
      ensures Valid() && |layers| == old(|layers|)
      ensures Seen() == old(Seen())[|layers| := old(Observed()) - {o}]
      ensures ok <==> o in old(Observed()) || o in old(layers[|layers| - 1].entries)
      ensures o in old(Observed()) ==> moved == old(Observed())[o]
      ensures o !in old(Observed()) ==> moved == EMPTY_COIN
      ensures var es := old(layers[|layers| - 1].entries);
        layers[|layers| - 1].entries ==
          if !ok then es
          else if o in es && es[o].isFresh then es - {o}
          else es[o := Entry(EMPTY_COIN, true, false)]
    {
      hide StackOk, LayerOk, ViewAt, EntriesOk, SpentEntries, Overlay, Views;
      var got := GetCoinAt(|layers|, o);
      ghost var a := layers;
      var top := |layers| - 1;
      var l := layers[top];
      SpentStack(mem, db, a, o);
      if o !in l.entries {
        return false, EMPTY_COIN;
      }
      var entry := l.entries[o];
      moved := entry.coin;
      var usage := l.usage - mem(entry.coin.script);
      var es := SpentEntries(l.entries, o);
      SpentIs(old(layers[|layers| - 1].entries), l.entries, o);
      layers := layers[top := Layer(es, usage)];
      ok := true;
    }

    method Uncache(o: OutPoint)
      requires Valid()
      modifies this`layers
      ensures Valid() && Seen() == old(Seen())
      ensures var es := old(layers[|layers| - 1].entries);
        layers[|layers| - 1].entries == if o in es && !es[o].isDirty && !es[o].isFresh then es - {o} else es
    {
      hide StackOk, LayerOk, ViewAt, EntriesOk;
      var top := |layers| - 1;
      var l := layers[top];
      TopFacts(mem, db, layers, o);
      if o in l.entries && !l.entries[o].isDirty && !l.entries[o].isFresh {
        var l' := Layer(l.entries - {o}, l.usage - mem(l.entries[o].coin.script));
        UncachedShows(mem, ViewAt(db, layers, top), l, o);
        ReplaceTop(mem, db, layers, l');
        TopViews(db, layers, l');
        layers := layers[top := l'];
      }
    }

    /** BatchWrite into the cache at height `p`: the child's dirty entries are
        handled one by one in no particular order, and leave the child's map
        when `erase` is set.  The error for a misapplied FRESH flag is an
        assertion here. */
    method BatchWrite(p: nat, child: EntryMap, erase: bool) returns (rest: EntryMap)
      requires Valid() && p < |layers|
      requires EntriesOk(ViewAt(db, layers, p + 1), child)
      modifies this`layers
      ensures |layers| == old(|layers|) && forall j | 0 <= j < |layers| && j != p :: layers[j] == old(layers)[j]
      ensures WrittenUpTo(old(layers)[p].entries, child, child.Keys, layers[p].entries)
      ensures layers[p].usage == Usage(mem, layers[p].entries)
      ensures rest == if erase then map[] else child
    {
      hide StackOk, ViewAt, EntriesOk, WrittenUpTo, Merged, Put, Usage, Left;
      ghost var p0 := layers[p].entries;
      ParentFacts(mem, db, layers, p);
      rest := child;
      var es, usage := layers[p].entries, layers[p].usage;
      var todo := child.Keys;
      ghost var done: set<OutPoint> := {};
      NothingWritten(p0, child);
      LeftEnds(child, erase);
      while todo != {}
        invariant layers == old(layers)
        invariant todo <= child.Keys && done == child.Keys - todo
        invariant WrittenUpTo(p0, child, done, es)
        invariant usage == Usage(mem, es)
        invariant rest == Left(child, done, erase)
        decreases |todo|
      {
        assert (forall x :: x !in todo) ==> todo == {};
        var o :| o in todo;
        Untouched(p0, child, done, es, o);
        WriteOne(p0, child, done, es, o);
        LeftNext(child, done, o, erase);
        if child[o].isFresh && o in es {
          FreshNotMisapplied(ViewAt(db, layers, p), p0, child, o);
        }
        es, usage := WriteEntry(mem, es, usage, o, child[o]);
        if erase {
          rest := rest - {o};
        }
        todo, done := todo - {o}, done + {o};
      }
      assert done == child.Keys;
      layers := layers[p := Layer(es, usage)];
    }

    /** The database's BatchWrite. */
    method DbWrite(child: EntryMap, erase: bool) returns (rest: EntryMap)
      modifies this`db
      ensures db == DbWritten(old(db), child)
      ensures rest == if erase then map[] else child
    {
      hide DbWrittenUpTo, DbWritten, DbWriteEntry, Left;
      rest := child;
      var todo := child.Keys;
      ghost var done: set<OutPoint> := {};
      LeftEnds(child, erase);
      var d := db;
      DbNoneWritten(db, child);
      while todo != {}
        invariant db == old(db) && todo <= child.Keys && done == child.Keys - todo
        invariant DbWrittenUpTo(db, child, done, d)
        invariant rest == Left(child, done, erase)
        decreases |todo|
      {
        assert (forall x :: x !in todo) ==> todo == {};
        var o :| o in todo;
        LeftNext(child, done, o, erase);
        DbWriteOne(db, child, done, d, o);
        d := DbWriteEntry(d, o, child[o]);
        if erase {
          rest := rest - {o};
        }
        todo, done := todo - {o}, done + {o};
      }
      assert done == child.Keys;
      DbAllWritten(db, child, d);
      db := d;
    }

    /** Flush hands everything to the view below and empties this cache; what
        the stack shows at the top is now also what the level below shows. */
    method Flush()
      requires Valid()
      modifies this
      ensures Valid() && |layers| == old(|layers|)
      ensures Seen() == old(Seen())[|layers| - 1 := old(Observed())]
      ensures layers[|layers| - 1] == Layer(map[], 0)
    {
      hide StackOk, ViewAt, LayerOk, EntriesOk, WrittenUpTo, Usage;
      var top := |layers| - 1;
      var child := layers[top].entries;
      ghost var d, a := db, layers;
      ChildFacts(mem, db, layers);
      var rest := map[];
      if top == 0 {
        rest := DbWrite(child, true);
      } else {
        rest := BatchWrite(top - 1, child, true);
      }
      assert rest == map[];
      layers := layers[top := Layer(rest, 0)];
      EmptyShows(mem, ViewAt(d, a, |a|));
      Pushed(mem, d, a, db, layers);
    }

    /** Sync does the same but keeps the unspent entries, now clean. */
    method Sync()
      requires Valid()
      modifies this
      ensures Valid() && |layers| == old(|layers|)
      ensures Seen() == old(Seen())[|layers| - 1 := old(Observed())]
      ensures layers[|layers| - 1].entries == Cleaned(old(layers[|layers| - 1].entries))
    {
      hide StackOk, ViewAt, LayerOk, EntriesOk, WrittenUpTo, Usage;
      var top := |layers| - 1;
      var child, total := layers[top].entries, layers[top].usage;
      ghost var d, a := db, layers;
      ChildFacts(mem, db, layers);
      var rest := map[];
      if top == 0 {
        rest := DbWrite(child, false);
      } else {
        rest := BatchWrite(top - 1, child, false);
      }
      TotalIs(mem, d, a);
      var es, usage := Clean(mem, rest, total);
      layers := layers[top := Layer(es, usage)];
      CleanedLayer(mem, d, a, usage);
      Pushed(mem, d, a, db, layers);
    }

    /** A new cache on top of the current view. */
    method Push()
      requires Valid()
      modifies this`layers
      ensures Valid() && Seen() == old(Seen()) + [old(Observed())]
    {
      hide StackOk, ViewAt, LayerOk, EntriesOk;
      ghost var a := layers;
      layers := layers + [Layer(map[], 0)];
      PushShows(mem, db, a, Layer(map[], 0));
    }

    /** Dropping the top cache forgets its changes. */
    method Discard()
      requires Valid()
      modifies this`layers
      ensures Valid() && Seen() == if old(|layers|) >= 2 then old(Seen())[..old(|layers|)] else old(Seen())
    {
      hide StackOk, ViewAt, Views;
      if |layers| < 2 { return; }
      PopShows(mem, db, layers);
      layers := layers[..|layers| - 1];
    }

    /** SanityCheck of any cache in the stack passes. */
    method SanityCheck(i: nat) returns (ok: bool)
      requires Valid() && i < |layers|
      ensures ok
    {
      hide ViewAt, LayerOk;
      ok := CheckLayer(mem, ViewAt(db, layers, i), layers[i]);
    }

    /** All outputs of a transaction.  With `check` each output is looked up
        first, and coinbases may always overwrite.  Any other transaction claims
        that its outputs are new: it stops at the first one the top cache holds
        unspent, and an output that is unspent further down spoils the stack. */
    method AddCoins(txid: int, outs: seq<Coin>, coinbase: bool, check: bool) returns (thrown: bool, ghost stopped: nat)
      requires Valid() && forall k | 0 <= k < |outs| :: !IsSpent(outs[k])
      modifies this`layers
      ensures |layers| == old(|layers|) && stopped <= |outs|
      ensures Seen() == old(Seen())[|layers| := WithOutputs(unspendable, old(Observed()), txid, outs, stopped)]
      ensures thrown <==> stopped < |outs|
      ensures check || coinbase ==> Valid() && !thrown
      ensures thrown ==> Clash(unspendable, old(layers[|layers| - 1].entries), txid, outs, stopped)
      ensures !check && !coinbase ==> NoClash(unspendable, old(layers[|layers| - 1].entries), txid, outs, stopped)
      ensures !check && !coinbase && !thrown ==>
        (Valid() <==> AllNew(unspendable, old(Observed()), txid, outs, |outs|))
      ensures thrown && AllNew(unspendable, old(Observed()), txid, outs, stopped) ==>
        (Valid() <==> mem(old(layers[|layers| - 1].entries)[OutPoint(txid, stopped)].coin.script) == 0)
    {
      hide StackOk, ViewAt, LayerOk, EntriesOk, Overlay, Views, Claimed;
      ghost var n := |layers|;
      ghost var plain := !check && !coinbase;
      ghost var v0, a := Observed(), layers;
      stopped := 0;
      ClaimedNone(unspendable, a, txid, outs);
      var k := 0;
      while k < |outs|
        invariant 0 <= k <= |outs| && stopped == k && |layers| == n
        invariant Seen() == old(Seen())[n := WithOutputs(unspendable, v0, txid, outs, k)]
        invariant plain || Valid()
        invariant AllNew(unspendable, v0, txid, outs, k) ==> Valid()
        invariant plain ==> Claimed(unspendable, a, layers, txid, outs, k)
      {
        ghost var v, b := Observed(), layers;
        assert v == Seen()[n] == WithOutputs(unspendable, v0, txid, outs, k);
        OutputsApart(unspendable, v0, txid, outs, k, k);
        var o := OutPoint(txid, k);
        var overwrite := coinbase;
        if check {
          var have := GetCoin(o);
          overwrite := have.Some?;
        }
        if StackOk(mem, db, layers) {
          TopUnspent(mem, db, layers, o);
        }
        if plain {
          ClaimedFacts(unspendable, a, layers, txid, outs, k);
        }
        thrown := AddCoin(o, outs[k], overwrite);
        if thrown {
          return;
        }
        if plain {
          ClaimedNext(unspendable, a, b, layers, txid, outs, k);
        }
        k, stopped := k + 1, stopped + 1;
      }
      thrown := false;
      if plain {
        ClaimedFacts(unspendable, a, layers, txid, outs, k);
      }
      if plain && StackOk(mem, db, layers) {
        ClaimsWereRight(mem, db, unspendable, a, layers, txid, outs);
      }
    }

    /** Every run of operations the callers may make leaves the stack valid,
        and each level shows what the plain stack of maps says. */
    method Run(ops: seq<Op>)
      requires Valid() && AllAllowed(unspendable, Seen(), ops)
      modifies this
      ensures Valid() && Seen() == PlainRun(unspendable, old(Seen()), ops)
    {
      hide StackOk, ViewAt, LayerOk, EntriesOk;
      var k := 0;
      while k < |ops|
        invariant 0 <= k <= |ops| && Valid()
        invariant AllAllowed(unspendable, Seen(), ops[k..])
        invariant PlainRun(unspendable, Seen(), ops[k..]) == PlainRun(unspendable, old(Seen()), ops)
      {
        assert ops[k..][0] == ops[k] && ops[k..][1..] == ops[k + 1..];
        ghost var vs := Seen();
        Step(ops[k]);
        assert Seen() == PlainStep(unspendable, vs, ops[k]);
        k := k + 1;
      }
    }

    method Step(op: Op)
      requires Valid() && Allowed(unspendable, Seen(), op)
      modifies this
      ensures Valid() && Seen() == PlainStep(unspendable, old(Seen()), op)
    {
      hide StackOk, ViewAt, LayerOk, EntriesOk;
      match op
      case OpGet(o) => var _ := GetCoin(o);
      case OpAdd(o, coin, overwrite) =>
        TopUnspent(mem, db, layers, o);
        var _ := AddCoin(o, coin, overwrite);
      case OpSpend(o) => var _, _ := SpendCoin(o);
      case OpUncache(o) => Uncache(o);
      case OpSync => Sync();
      case OpFlush => Flush();
      case OpPush => Push();
      case OpDiscard => Discard();
    }
  }

  /** The view after the first `k` outputs: unspendable ones are not recorded. */
  function WithOutputs(unspendable: Script -> bool, v: CoinMap, txid: int, outs: seq<Coin>, k: nat): CoinMap
    requires k <= |outs|
  {
    if k == 0 then v else
      var w := WithOutputs(unspendable, v, txid, outs, k - 1);
      if unspendable(outs[k - 1].script) then w else w[OutPoint(txid, k - 1) := outs[k - 1]]
  }

  lemma OutputsApart(unspendable: Script -> bool, v: CoinMap, txid: int, outs: seq<Coin>, k: nat, j: nat)
    requires k <= |outs| && k <= j
    ensures OutPoint(txid, j) in WithOutputs(unspendable, v, txid, outs, k) <==> OutPoint(txid, j) in v
  {
  }

  /** The output meets an unspent entry, which AddCoin refuses to overwrite. */
  ghost predicate Clash(unspendable: Script -> bool, es: EntryMap, txid: int, outs: seq<Coin>, k: nat)
    requires k < |outs|
  {
    !unspendable(outs[k].script) && HasUnspent(es, OutPoint(txid, k))
  }

  ghost predicate NoClash(unspendable: Script -> bool, es: EntryMap, txid: int, outs: seq<Coin>, k: nat)
    requires k <= |outs|
  {
    forall j: nat | j < k :: !Clash(unspendable, es, txid, outs, j)
  }

  /** None of the first `k` outputs that count is in the view yet. */
  ghost predicate AllNew(unspendable: Script -> bool, v: CoinMap, txid: int, outs: seq<Coin>, k: nat)
    requires k <= |outs|
  {
    forall j: nat | j < k :: unspendable(outs[j].script) || OutPoint(txid, j) !in v
  }

  /** What adding the first `k` outputs as new ones does to the top cache: an
      outpoint it had not heard of becomes FRESH. */
  ghost predicate Claimed(unspendable: Script -> bool, a: seq<Layer>, b: seq<Layer>, txid: int, outs: seq<Coin>, k: nat)
    requires |a| == |b| > 0 && k <= |outs|
  {
    var (es, fs) := (a[|a| - 1].entries, b[|a| - 1].entries);
    && b[..|a| - 1] == a[..|a| - 1]
    && (forall j: nat | j < k && !unspendable(outs[j].script) ::
      var o := OutPoint(txid, j);
      !HasUnspent(es, o) && o in fs && (o !in es ==> fs[o].isFresh))
    && (forall j: nat | j >= k :: var o := OutPoint(txid, j); (o in fs <==> o in es) && (o in es ==> fs[o] == es[o]))
  }

  lemma ClaimedNone(unspendable: Script -> bool, a: seq<Layer>, txid: int, outs: seq<Coin>)
    requires |a| > 0
    ensures Claimed(unspendable, a, a, txid, outs, 0)
  {
  }

  lemma ClaimedFacts(unspendable: Script -> bool, a: seq<Layer>, b: seq<Layer>, txid: int, outs: seq<Coin>, k: nat)
    requires |a| == |b| > 0 && k <= |outs| && Claimed(unspendable, a, b, txid, outs, k)
    ensures var (es, fs, o) := (a[|a| - 1].entries, b[|a| - 1].entries, OutPoint(txid, k));
      && NoClash(unspendable, es, txid, outs, k)
      && (o in fs <==> o in es) && (o in es ==> fs[o] == es[o])
  {
  }

  lemma ClaimedNext(unspendable: Script -> bool, a: seq<Layer>, b: seq<Layer>, c: seq<Layer>,
                    txid: int, outs: seq<Coin>, k: nat)
    requires |a| == |b| == |c| > 0 && k < |outs| && Claimed(unspendable, a, b, txid, outs, k)
    requires c[..|a| - 1] == b[..|a| - 1]
    requires if unspendable(outs[k].script) then c[|a| - 1] == b[|a| - 1] else
      && !HasUnspent(b[|a| - 1].entries, OutPoint(txid, k))
      && c[|a| - 1].entries == b[|a| - 1].entries[
           OutPoint(txid, k) := NewEntry(b[|a| - 1].entries, OutPoint(txid, k), outs[k], false)]
    ensures Claimed(unspendable, a, c, txid, outs, k + 1)
  {
  }

  lemma ClaimsWereRight(mem: Script -> nat, db: CoinMap, unspendable: Script -> bool,
    a: seq<Layer>, b: seq<Layer>, txid: int, outs: seq<Coin>)
    requires |a| == |b| > 0 && StackOk(mem, db, b) && Claimed(unspendable, a, b, txid, outs, |outs|)
    ensures AllNew(unspendable, ViewAt(db, a, |a|), txid, outs, |outs|)
  {
    hide StackOk, ViewAt, LayerOk, EntriesOk;
    TopShows(db, a);
    ViewLocal(db, a, b, |a| - 1);
    forall j: nat | j < |outs| && !unspendable(outs[j].script) ensures OutPoint(txid, j) !in ViewAt(db, a, |a|) {
      TopFacts(mem, db, b, OutPoint(txid, j));
    }
  }

  /** Why a wrong "no overwrite" claim matters: a FRESH entry over an unspent
      coin is simply dropped when spent, and the old coin shows again. */
  lemma WrongFreshRevives(base: CoinMap, es: EntryMap, o: OutPoint, coin: Coin)
    requires o in base && o !in es && !IsSpent(coin)
    ensures var added := es[o := Entry(coin, true, true)];
      var after := SpentEntries(added, o);
      o in Overlay(base, after) && Overlay(base, after)[o] == base[o]
  {
    assert o !in SpentEntries(es[o := Entry(coin, true, true)], o);
  }

  /** Only the allowed flag combinations occur and the running total is exact. */
  method CheckLayer(mem: Script -> nat, ghost base: CoinMap, l: Layer) returns (ok: bool)
    requires LayerOk(mem, base, l)
    ensures ok
  {
    hide EntryOk;
    var recomputed := 0;
    var rest := l.entries;
    while rest != map[]
      invariant forall o | o in rest :: o in l.entries && rest[o] == l.entries[o]
      invariant recomputed + Usage(mem, rest) == Usage(mem, l.entries)
      decreases |rest|
    {
      hide Usage;
      KeyExists(rest);
      var o :| o in rest;
      var e := rest[o];
      FlagsAllowed(base, o, e);
      var attr := (if e.isDirty then 1 else 0) + (if e.isFresh then 2 else 0) + (if IsSpent(e.coin) then 4 else 0);
      assert attr != 2 && attr != 4 && attr != 7;
      UsageWithout(mem, rest, o);
      Smaller(rest, o);
      recomputed := recomputed + mem(e.coin.script);
      rest := rest - {o};
    }
    return recomputed == l.usage;
  }

  /** Of the eight flag combinations four occur; a spent FRESH entry, which the
      header allows, never does. */
  lemma FlagsAllowed(base: CoinMap, o: OutPoint, e: Entry)
    requires EntryOk(base, o, e)
    ensures IsSpent(e.coin) ==> e.isDirty && !e.isFresh
    ensures e.isFresh ==> e.isDirty
  {
  }

  lemma TopUnspent(mem: Script -> nat, db: CoinMap, a: seq<Layer>, o: OutPoint)
    requires StackOk(mem, db, a) && |a| > 0
    ensures HasUnspent(a[|a| - 1].entries, o) ==> o in ViewAt(db, a, |a|)
  {
  }

  lemma TotalIs(mem: Script -> nat, db: CoinMap, a: seq<Layer>)
    requires StackOk(mem, db, a) && |a| > 0
    ensures a[|a| - 1].usage == Usage(mem, a[|a| - 1].entries) && Usage(mem, map[]) == 0
  {
  }

  ghost predicate DbWrittenUpTo(db: CoinMap, c: EntryMap, done: set<OutPoint>, d: CoinMap) {
    && (forall o :: o in d <==> if o in done && o in c && c[o].isDirty then !IsSpent(c[o].coin) else o in db)
    && (forall o | o in d :: d[o] == if o in done && o in c && c[o].isDirty then c[o].coin else db[o])
  }

  lemma DbNoneWritten(db: CoinMap, c: EntryMap)
    ensures DbWrittenUpTo(db, c, {}, db)
  {
  }

  /** One entry of the database's write batch. */
  function DbWriteEntry(d: CoinMap, o: OutPoint, e: Entry): CoinMap {
    if !e.isDirty then d else if IsSpent(e.coin) then d - {o} else d[o := e.coin]
  }

  lemma DbWriteOne(db: CoinMap, c: EntryMap, done: set<OutPoint>, d: CoinMap, o: OutPoint)
    requires DbWrittenUpTo(db, c, done, d) && o in c && o !in done
    ensures DbWrittenUpTo(db, c, done + {o}, DbWriteEntry(d, o, c[o]))
  {
  }

  lemma DbAllWritten(db: CoinMap, c: EntryMap, d: CoinMap)
    requires DbWrittenUpTo(db, c, c.Keys, d)
    ensures d == DbWritten(db, c)
  {
    assert forall o :: o in d <==> o in DbWritten(db, c);
    assert d.Keys == DbWritten(db, c).Keys;
  }

  lemma ChildFacts(mem: Script -> nat, db: CoinMap, a: seq<Layer>)
    requires StackOk(mem, db, a) && |a| > 0
    ensures EntriesOk(ViewAt(db, a, |a| - 1), a[|a| - 1].entries)
  {
  }

  lemma EmptyShows(mem: Script -> nat, v: CoinMap)
    ensures LayerOk(mem, v, Layer(map[], 0)) && Overlay(v, map[]) == v
  {
    assert Overlay(v, map[]).Keys == v.Keys;
  }

  /** `b` over `d'` is `a` over `d` with the top's changes written one level
      down, and a top that adds nothing to what is now below it. */
  ghost predicate WrittenDown(mem: Script -> nat, d: CoinMap, a: seq<Layer>, d': CoinMap, b: seq<Layer>) {
    var n := |a|;
    && n > 0 && |b| == n
    && (forall j | 0 <= j < n - 2 :: b[j] == a[j])
    && (if n == 1 then d' == DbWritten(d, a[0].entries)
        else d' == d && WrittenUpTo(a[n - 2].entries, a[n - 1].entries, a[n - 1].entries.Keys, b[n - 2].entries)
             && b[n - 2].usage == Usage(mem, b[n - 2].entries))
  }

  lemma Pushed(mem: Script -> nat, d: CoinMap, a: seq<Layer>, d': CoinMap, b: seq<Layer>)
    requires StackOk(mem, d, a) && WrittenDown(mem, d, a, d', b)
    requires LayerOk(mem, ViewAt(d, a, |a|), b[|a| - 1])
    requires Overlay(ViewAt(d, a, |a|), b[|a| - 1].entries) == ViewAt(d, a, |a|)
    ensures StackOk(mem, d', b)
    ensures Views(d', b) == Views(d, a)[|a| - 1 := ViewAt(d, a, |a|)]
  {
    var n := |a|;
    if n == 1 {
      PushedDb(mem, d, a, d', b);
    } else {
      PushedCache(mem, d, a, b);
    }
  }

  lemma PushedDb(mem: Script -> nat, d: CoinMap, a: seq<Layer>, d': CoinMap, b: seq<Layer>)
    requires StackOk(mem, d, a) && |a| == 1 && |b| == 1 && d' == DbWritten(d, a[0].entries)
    requires LayerOk(mem, ViewAt(d, a, 1), b[0]) && Overlay(ViewAt(d, a, 1), b[0].entries) == ViewAt(d, a, 1)
    ensures StackOk(mem, d', b)
    ensures Views(d', b) == Views(d, a)[0 := ViewAt(d, a, 1)]
  {
    hide Overlay, DbWritten;
    assert ViewAt(d, a, 0) == d && ViewAt(d, a, 1) == Overlay(d, a[0].entries);
    assert LayerOk(mem, ViewAt(d, a, 0), a[0]);
    DbWriteShows(d, a[0].entries);
    OverlayUnspent(d, a[0].entries);
    assert ViewAt(d', b, 0) == d' && ViewAt(d', b, 1) == Overlay(d', b[0].entries);
  }

  lemma PushedCache(mem: Script -> nat, d: CoinMap, a: seq<Layer>, b: seq<Layer>)
    requires StackOk(mem, d, a) && |a| >= 2 && WrittenDown(mem, d, a, d, b)
    requires LayerOk(mem, ViewAt(d, a, |a|), b[|a| - 1])
    requires Overlay(ViewAt(d, a, |a|), b[|a| - 1].entries) == ViewAt(d, a, |a|)
    ensures StackOk(mem, d, b)
    ensures Views(d, b) == Views(d, a)[|a| - 1 := ViewAt(d, a, |a|)]
  {
    hide *;
    var n := |a|;
    PushedBelow(mem, d, a, b);
    PushedTop(mem, d, a, b);
    PushedLayers(mem, d, a, b);
    ViewsUpdated(d, a, b, n - 1, ViewAt(d, a, n));
  }

  lemma PushedBelow(mem: Script -> nat, d: CoinMap, a: seq<Layer>, b: seq<Layer>)
    requires |a| >= 2 && WrittenDown(mem, d, a, d, b)
    ensures |b| == |a| && forall j | 0 <= j < |a| - 2 :: b[j] == a[j]
    ensures b[|a| - 2].usage == Usage(mem, b[|a| - 2].entries)
    ensures forall i | 0 <= i <= |a| - 2 :: ViewAt(d, b, i) == ViewAt(d, a, i)
  {
    hide ViewAt, Usage, WrittenUpTo;
    forall i | 0 <= i <= |a| - 2 ensures ViewAt(d, b, i) == ViewAt(d, a, i) {
      assert a[..i] == b[..i];
      ViewLocal(d, a, b, i);
    }
  }

  lemma PushedTop(mem: Script -> nat, d: CoinMap, a: seq<Layer>, b: seq<Layer>)
    requires StackOk(mem, d, a) && |a| >= 2 && WrittenDown(mem, d, a, d, b)
    requires ViewAt(d, b, |a| - 2) == ViewAt(d, a, |a| - 2)
    requires Overlay(ViewAt(d, a, |a|), b[|a| - 1].entries) == ViewAt(d, a, |a|)
    ensures ViewAt(d, b, |a| - 1) == ViewAt(d, b, |a|) == ViewAt(d, a, |a|)
    ensures EntriesOk(ViewAt(d, a, |a| - 2), b[|a| - 2].entries)
  {
    hide StackOk, Overlay, Usage, WrittenUpTo, EntriesOk;
    var n := |a|;
    ParentFacts(mem, d, a, n - 2);
    ParentFacts(mem, d, a, n - 1);
    WriteAll(ViewAt(d, a, n - 2), a[n - 2].entries, a[n - 1].entries, b[n - 2].entries);
    assert ViewAt(d, b, n - 1) == Overlay(ViewAt(d, b, n - 2), b[n - 2].entries);
    assert ViewAt(d, b, n) == Overlay(ViewAt(d, b, n - 1), b[n - 1].entries);
  }

  lemma ViewsUpdated(d: CoinMap, a: seq<Layer>, b: seq<Layer>, k: nat, v: CoinMap)
    requires |a| == |b| && k <= |a| && ViewAt(d, b, k) == v
    requires forall i: nat | i <= |a| && i != k :: ViewAt(d, b, i) == ViewAt(d, a, i)
    ensures Views(d, b) == Views(d, a)[k := v]
  {
    hide ViewAt;
  }

  lemma PushedLayers(mem: Script -> nat, d: CoinMap, a: seq<Layer>, b: seq<Layer>)
    requires StackOk(mem, d, a) && |b| == |a| >= 2
    requires forall j | 0 <= j < |a| - 2 :: b[j] == a[j]
    requires forall i | 0 <= i <= |a| - 2 :: ViewAt(d, b, i) == ViewAt(d, a, i)
    requires ViewAt(d, b, |a| - 1) == ViewAt(d, a, |a|)
    requires EntriesOk(ViewAt(d, a, |a| - 2), b[|a| - 2].entries) && b[|a| - 2].usage == Usage(mem, b[|a| - 2].entries)
    requires LayerOk(mem, ViewAt(d, a, |a|), b[|a| - 1])
    ensures StackOk(mem, d, b)
  {
    hide ViewAt, Usage, EntriesOk;
    forall i | 0 <= i < |b| ensures LayerOk(mem, ViewAt(d, b, i), b[i]) {
      if i < |a| - 2 {
        assert LayerOk(mem, ViewAt(d, a, i), a[i]);
      }
    }
  }

  /** Sync's second loop: drop the spent entries, clear the flags of the rest. */
  method Clean(mem: Script -> nat, es: EntryMap, usage: int) returns (es': EntryMap, usage': int)
    requires usage == Usage(mem, es)
    ensures es' == Cleaned(es) && usage' == Usage(mem, es')
  {
    hide Usage, CleanedUpTo, Cleaned;
    es', usage' := es, usage;
    var todo := es.Keys;
    ghost var done: set<OutPoint> := {};
    NoneCleaned(es);
    while todo != {}
      invariant todo <= es.Keys && done == es.Keys - todo
      invariant CleanedUpTo(es, done, es')
      invariant usage' == Usage(mem, es')
      decreases |todo|
    {
      assert (forall x :: x !in todo) ==> todo == {};
      var o :| o in todo;
      CleanOne(es, done, es', o);
      UsageWithout(mem, es', o);
      if IsSpent(es'[o].coin) {
        usage' := usage' - mem(es'[o].coin.script);
        es' := es' - {o};
      } else {
        UsageSet(mem, es', o, Entry(es'[o].coin, false, false));
        es' := es'[o := Entry(es'[o].coin, false, false)];
      }
      todo, done := todo - {o}, done + {o};
    }
    assert done == es.Keys;
    AllCleaned(es, es');
  }

  ghost predicate CleanedUpTo(es: EntryMap, done: set<OutPoint>, q: EntryMap) {
    forall o :: Get(q, o) == if o in done then Get(Cleaned(es), o) else Get(es, o)
  }

  lemma NoneCleaned(es: EntryMap)
    ensures CleanedUpTo(es, {}, es)
  {
  }

  lemma CleanOne(es: EntryMap, done: set<OutPoint>, q: EntryMap, o: OutPoint)
    requires CleanedUpTo(es, done, q) && o in es && o !in done
    ensures o in q && q[o] == es[o]
    ensures CleanedUpTo(es, done + {o},
              if IsSpent(es[o].coin) then q - {o} else q[o := Entry(es[o].coin, false, false)])
  {
    assert Get(q, o) == Get(es, o);
    var r := if IsSpent(es[o].coin) then q - {o} else q[o := Entry(es[o].coin, false, false)];
    forall x ensures Get(r, x) == if x in done + {o} then Get(Cleaned(es), x) else Get(es, x) {
      assert Get(q, x) == if x in done then Get(Cleaned(es), x) else Get(es, x);
    }
  }

  lemma AllCleaned(es: EntryMap, q: EntryMap)
    requires CleanedUpTo(es, es.Keys, q)
    ensures q == Cleaned(es)
  {
    forall o ensures Get(q, o) == Get(Cleaned(es), o) {
      assert Get(q, o) == if o in es.Keys then Get(Cleaned(es), o) else Get(es, o);
    }
    forall o ensures (o in q <==> o in Cleaned(es)) && (o in q ==> q[o] == Cleaned(es)[o]) {
      assert Get(q, o) == Get(Cleaned(es), o);
    }
    assert q.Keys == Cleaned(es).Keys;
  }

  lemma CleanedLayer(mem: Script -> nat, db: CoinMap, a: seq<Layer>, usage: int)
    requires StackOk(mem, db, a) && |a| > 0 && usage == Usage(mem, Cleaned(a[|a| - 1].entries))
    ensures LayerOk(mem, ViewAt(db, a, |a|), Layer(Cleaned(a[|a| - 1].entries), usage))
    ensures Overlay(ViewAt(db, a, |a|), Cleaned(a[|a| - 1].entries)) == ViewAt(db, a, |a|)
  {
    hide Overlay, Cleaned, Usage;
    CleanedShows(ViewAt(db, a, |a| - 1), a[|a| - 1].entries);
  }

  lemma PushViews(mem: Script -> nat, db: CoinMap, a: seq<Layer>, l: Layer)
    requires l == Layer(map[], 0)
    ensures ViewAt(db, a + [l], |a| + 1) == ViewAt(db, a, |a|)
    ensures forall i | 0 <= i <= |a| :: ViewAt(db, a + [l], i) == ViewAt(db, a, i)
  {
    hide Overlay;
    var b := a + [l];
    forall i | 0 <= i <= |a| ensures ViewAt(db, b, i) == ViewAt(db, a, i) {
      assert a[..i] == b[..i];
      ViewLocal(db, a, b, i);
    }
    EmptyShows(mem, ViewAt(db, a, |a|));
  }

  lemma PushShows(mem: Script -> nat, db: CoinMap, a: seq<Layer>, l: Layer)
    requires StackOk(mem, db, a) && l == Layer(map[], 0)
    ensures StackOk(mem, db, a + [l])
    ensures Views(db, a + [l]) == Views(db, a) + [ViewAt(db, a, |a|)]
  {
    hide LayerOk, ViewAt, Overlay;
    var b := a + [l];
    PushViews(mem, db, a, l);
    EmptyShows(mem, ViewAt(db, a, |a|));
    forall i | 0 <= i < |b| ensures LayerOk(mem, ViewAt(db, b, i), b[i]) {
      if i < |a| {
        assert LayerOk(mem, ViewAt(db, a, i), a[i]);
      }
    }
  }

  lemma PopShows(mem: Script -> nat, db: CoinMap, a: seq<Layer>)
    requires StackOk(mem, db, a) && |a| >= 2
    ensures StackOk(mem, db, a[..|a| - 1])
    ensures Views(db, a[..|a| - 1]) == Views(db, a)[..|a|]
  {
    var b := a[..|a| - 1];
    forall i | 0 <= i <= |b| ensures ViewAt(db, b, i) == ViewAt(db, a, i) {
      assert a[..i] == b[..i];
      ViewLocal(db, a, b, i);
    }
    hide LayerOk, ViewAt, Overlay;
    forall i | 0 <= i < |b| ensures LayerOk(mem, ViewAt(db, b, i), b[i]) {
      assert LayerOk(mem, ViewAt(db, a, i), a[i]);
    }
  }

  /** The body of BatchWrite's loop, with its exact effect on the parent. */
  method WriteEntry(mem: Script -> nat, es: EntryMap, usage: int, o: OutPoint, c: Entry)
    returns (es': EntryMap, usage': int)
    requires usage == Usage(mem, es)
    requires c.isFresh && o in es ==> IsSpent(es[o].coin)
    ensures es' == Put(es, o, Merged(Get(es, o), c))
    ensures usage' == Usage(mem, es')
  {
    hide Usage;
    UsagePut(mem, es, o, c);
    es', usage' := es, usage;
    if c.isDirty {
      if o !in es {
        if !(c.isFresh && IsSpent(c.coin)) {
          es' := es[o := Entry(c.coin, true, c.isFresh)];
          usage' := usage + mem(c.coin.script);
        }
      } else {
        assert !(c.isFresh && !IsSpent(es[o].coin));
        if es[o].isFresh && IsSpent(c.coin) {
          usage' := usage - mem(es[o].coin.script);
          es' := es - {o};
        } else {
          usage' := usage - mem(es[o].coin.script) + mem(c.coin.script);
          es' := es[o := Entry(c.coin, true, es[o].isFresh)];
        }
      }
    }
    MergedIs(es, o, c, es');
  }

  lemma ParentFacts(mem: Script -> nat, db: CoinMap, a: seq<Layer>, p: nat)
    requires StackOk(mem, db, a) && p < |a|
    ensures a[p].usage == Usage(mem, a[p].entries) && EntriesOk(ViewAt(db, a, p), a[p].entries)
    ensures ViewAt(db, a, p + 1) == Overlay(ViewAt(db, a, p), a[p].entries)
  {
  }

  lemma NothingWritten(p: EntryMap, c: EntryMap)
    ensures WrittenUpTo(p, c, {}, p)
    ensures c - {} == c
  {
  }

  /** The child's entries that an erasing write has not yet dropped. */
  function Left(c: EntryMap, done: set<OutPoint>, erase: bool): EntryMap {
    if erase then c - done else c
  }

  lemma LeftNext(c: EntryMap, done: set<OutPoint>, o: OutPoint, erase: bool)
    ensures Left(c, done + {o}, erase) == if erase then Left(c, done, erase) - {o} else Left(c, done, erase)
  {
  }

  lemma LeftEnds(c: EntryMap, erase: bool)
    ensures Left(c, {}, erase) == c
    ensures Left(c, c.Keys, erase) == if erase then map[] else c
  {
  }

  lemma Untouched(p: EntryMap, c: EntryMap, done: set<OutPoint>, q: EntryMap, o: OutPoint)
    requires WrittenUpTo(p, c, done, q) && o !in done
    ensures Get(q, o) == Get(p, o)
  {
  }

  /** The case analysis of BatchWrite computes the merged entry. */
  lemma MergedIs(es: EntryMap, o: OutPoint, c: Entry, q: EntryMap)
    requires q == (
      if !c.isDirty then es
      else if o !in es then
        if c.isFresh && IsSpent(c.coin) then es else es[o := Entry(c.coin, true, c.isFresh)]
      else if es[o].isFresh && IsSpent(c.coin) then es - {o}
      else es[o := Entry(c.coin, true, es[o].isFresh)])
    ensures q == Put(es, o, Merged(Get(es, o), c))
  {
    if o !in es {
      assert es - {o} == es;
    } else {
      assert es[o := es[o]] == es;
    }
  }

  lemma UsagePut(mem: Script -> nat, es: EntryMap, o: OutPoint, c: Entry)
    ensures Usage(mem, Put(es, o, Merged(Get(es, o), c)))
      == Usage(mem, es) - (if o in es then mem(es[o].coin.script) else 0)
         + (if Merged(Get(es, o), c).Some? then mem(Merged(Get(es, o), c).value.coin.script) else 0)
  {
    var m := Merged(Get(es, o), c);
    if o in es {
      UsageWithout(mem, es, o);
    } else {
      UsageAbsent(mem, es, o);
    }
    if m.Some? {
      UsageSet(mem, es, o, m.value);
    }
  }

  predicate HasUnspent(es: EntryMap, o: OutPoint) {
    o in es && !IsSpent(es[o].coin)
  }

  lemma TopFacts(mem: Script -> nat, db: CoinMap, a: seq<Layer>, o: OutPoint)
    requires StackOk(mem, db, a) && |a| > 0
    ensures var top := |a| - 1;
      && LayerOk(mem, ViewAt(db, a, top), a[top])
      && ViewAt(db, a, |a|) == Overlay(ViewAt(db, a, top), a[top].entries)
      && (o in a[top].entries ==> EntryOk(ViewAt(db, a, top), o, a[top].entries[o]))
  {
  }

  lemma TopShows(db: CoinMap, a: seq<Layer>)
    requires |a| > 0
    ensures ViewAt(db, a, |a|) == Overlay(ViewAt(db, a, |a| - 1), a[|a| - 1].entries)
  {
  }

  /** The entry AddCoin writes. */
  function NewEntry(es: EntryMap, o: OutPoint, coin: Coin, possibleOverwrite: bool): (e: Entry)
    ensures e.coin == coin && e.isDirty
    ensures e.isFresh <==>
      if o in es && (possibleOverwrite || es[o].isDirty) then es[o].isFresh else !possibleOverwrite
  {
    var prior := if o in es then es[o] else Entry(EMPTY_COIN, false, false);
    Entry(coin, true, prior.isFresh || (!possibleOverwrite && !prior.isDirty))
  }

  /** Throwing has already taken the old coin off the total. */
  lemma ThrowCosts(mem: Script -> nat, db: CoinMap, a: seq<Layer>, o: OutPoint, usage: int)
    requires |a| > 0 && HasUnspent(a[|a| - 1].entries, o)
    requires usage == a[|a| - 1].usage - mem(a[|a| - 1].entries[o].coin.script)
    ensures var b := a[|a| - 1 := Layer(a[|a| - 1].entries, usage)];
      && (StackOk(mem, db, a) ==>
            && o in ViewAt(db, a, |a|)
            && (StackOk(mem, db, b) <==> mem(a[|a| - 1].entries[o].coin.script) == 0))
      && Views(db, b) == Views(db, a)
  {
    hide StackOk, ViewAt, EntriesOk;
    var l := Layer(a[|a| - 1].entries, usage);
    TopShows(db, a);
    TopViews(db, a, l);
    if StackOk(mem, db, a) {
      TopFacts(mem, db, a, o);
      ReplaceTop(mem, db, a, l);
    }
  }

  lemma AddedStack(mem: Script -> nat, db: CoinMap, a: seq<Layer>, o: OutPoint, coin: Coin, overwrite: bool, usage: int)
    requires |a| > 0 && !IsSpent(coin) && (overwrite || !HasUnspent(a[|a| - 1].entries, o))
    requires usage == a[|a| - 1].usage + mem(coin.script) -
      (if o in a[|a| - 1].entries then mem(a[|a| - 1].entries[o].coin.script) else 0)
    ensures var es := a[|a| - 1].entries;
      var b := a[|a| - 1 := Layer(es[o := NewEntry(es, o, coin, overwrite)], usage)];
      && Views(db, b) == Views(db, a)[|a| := ViewAt(db, a, |a|)[o := coin]]
      && (StackOk(mem, db, a) ==> (StackOk(mem, db, b) <==> overwrite || o !in ViewAt(db, a, |a|)))
  {
    hide StackOk, ViewAt, EntriesOk, LayerOk, Overlay;
    var es := a[|a| - 1].entries;
    var e := NewEntry(es, o, coin, overwrite);
    var l := Layer(es[o := e], usage);
    TopShows(db, a);
    TopViews(db, a, l);
    AddedShows(ViewAt(db, a, |a| - 1), es, o, e);
    if StackOk(mem, db, a) {
      TopFacts(mem, db, a, o);
      AddedEntry(mem, ViewAt(db, a, |a| - 1), a[|a| - 1], o, e, usage);
      ReplaceTop(mem, db, a, l);
      FreshClaim(ViewAt(db, a, |a| - 1), es, o, coin, overwrite);
    }
  }

  /** A FRESH claim is right exactly when the outpoint was not in the view. */
  lemma FreshClaim(base: CoinMap, es: EntryMap, o: OutPoint, coin: Coin, overwrite: bool)
    requires (o in es ==> EntryOk(base, o, es[o])) && (overwrite || !HasUnspent(es, o))
    ensures (NewEntry(es, o, coin, overwrite).isFresh ==> o !in base) <==> overwrite || o !in Overlay(base, es)
  {
  }

  /** When the rewritten entry is truthful. */
  lemma AddedEntry(mem: Script -> nat, base: CoinMap, l: Layer, o: OutPoint, e: Entry, usage: int)
    requires LayerOk(mem, base, l) && e.isDirty && !IsSpent(e.coin)
    requires usage == l.usage - (if o in l.entries then mem(l.entries[o].coin.script) else 0) + mem(e.coin.script)
    ensures LayerOk(mem, base, Layer(l.entries[o := e], usage)) <==> (e.isFresh ==> o !in base)
  {
    UsageSet(mem, l.entries, o, e);
    if o in l.entries {
      UsageWithout(mem, l.entries, o);
    } else {
      UsageAbsent(mem, l.entries, o);
    }
    var es := l.entries[o := e];
    if EntriesOk(base, es) {
      assert EntryOk(base, o, es[o]);
    }
  }

  lemma AddedShows(base: CoinMap, es: EntryMap, o: OutPoint, e: Entry)
    requires !IsSpent(e.coin)
    ensures Overlay(base, es[o := e]) == Overlay(base, es)[o := e.coin]
  {
    var v, w := Overlay(base, es[o := e]), Overlay(base, es)[o := e.coin];
    assert v.Keys == w.Keys;
  }

  function SpentEntries(es: EntryMap, o: OutPoint): EntryMap
    requires o in es
  {
    if es[o].isFresh then es - {o} else es[o := Entry(EMPTY_COIN, true, false)]
  }

  /** Spending an entry that was there, or one just fetched as a clean copy. */
  lemma SpentIs(es: EntryMap, fs: EntryMap, o: OutPoint)
    requires o in fs && (fs == es || (o !in es && fs == es[o := Entry(fs[o].coin, false, false)]))
    ensures SpentEntries(fs, o) ==
      if o in es && es[o].isFresh then es - {o} else es[o := Entry(EMPTY_COIN, true, false)]
  {
  }

  lemma SpentView(base: CoinMap, es: EntryMap, o: OutPoint)
    requires o in es && EntryOk(base, o, es[o])
    ensures Overlay(base, SpentEntries(es, o)) == Overlay(base, es) - {o}
  {
    var v, w := Overlay(base, SpentEntries(es, o)), Overlay(base, es) - {o};
    assert v.Keys == w.Keys;
  }

  lemma SpentShows(mem: Script -> nat, base: CoinMap, l: Layer, o: OutPoint)
    requires LayerOk(mem, base, l) && o in l.entries && mem([]) == 0
    ensures LayerOk(mem, base, Layer(SpentEntries(l.entries, o), l.usage - mem(l.entries[o].coin.script)))
    ensures Overlay(base, SpentEntries(l.entries, o)) == Overlay(base, l.entries) - {o}
  {
    hide Overlay;
    assert EntryOk(base, o, l.entries[o]);
    SpentView(base, l.entries, o);
    UsageWithout(mem, l.entries, o);
    UsageSet(mem, l.entries, o, Entry(EMPTY_COIN, true, false));
  }

  lemma SpentStack(mem: Script -> nat, db: CoinMap, a: seq<Layer>, o: OutPoint)
    requires |a| > 0 && StackOk(mem, db, a) && mem([]) == 0
    ensures var (v, l) := (ViewAt(db, a, |a|), a[|a| - 1]);
      if o !in l.entries then Views(db, a)[|a| := v] == Views(db, a) && (o !in v ==> v - {o} == v) else
      && (o in v <==> !IsSpent(l.entries[o].coin)) && (o in v ==> v[o] == l.entries[o].coin)
      && (IsSpent(l.entries[o].coin) ==> l.entries[o].coin == EMPTY_COIN)
      && var b := a[|a| - 1 := Layer(SpentEntries(l.entries, o), l.usage - mem(l.entries[o].coin.script))];
        StackOk(mem, db, b) && Views(db, b) == Views(db, a)[|a| := v - {o}]
  {
    hide StackOk, LayerOk, ViewAt, EntriesOk, SpentEntries;
    var l := a[|a| - 1];
    TopFacts(mem, db, a, o);
    if o in l.entries {
      var m := Layer(SpentEntries(l.entries, o), l.usage - mem(l.entries[o].coin.script));
      SpentShows(mem, ViewAt(db, a, |a| - 1), l, o);
      ReplaceTop(mem, db, a, m);
      TopViews(db, a, m);
    }
  }

  lemma UncachedShows(mem: Script -> nat, base: CoinMap, l: Layer, o: OutPoint)
    requires LayerOk(mem, base, l) && o in l.entries && !l.entries[o].isDirty
    ensures LayerOk(mem, base, Layer(l.entries - {o}, l.usage - mem(l.entries[o].coin.script)))
    ensures Overlay(base, l.entries - {o}) == Overlay(base, l.entries)
  {
    assert EntryOk(base, o, l.entries[o]);
    UsageWithout(mem, l.entries, o);
    var v, w := Overlay(base, l.entries - {o}), Overlay(base, l.entries);
    assert v.Keys == w.Keys;
  }

  /** A clean copy of what the view below holds changes nothing. */
  lemma CopyShows(base: CoinMap, es: EntryMap, o: OutPoint)
    requires o !in es && o in base && !IsSpent(base[o]) && EntriesOk(base, es)
    ensures Overlay(base, es[o := Entry(base[o], false, false)]) == Overlay(base, es)
    ensures EntriesOk(base, es[o := Entry(base[o], false, false)])
  {
    var v, w := Overlay(base, es[o := Entry(base[o], false, false)]), Overlay(base, es);
    assert v.Keys == w.Keys;
  }

  lemma BottomIs(db: CoinMap, a: seq<Layer>)
    ensures ViewAt(db, a, 0) == db
  {
  }

  /** What one layer shows of an outpoint. */
  lemma ViewLookup(db: CoinMap, a: seq<Layer>, k: nat, o: OutPoint)
    requires k < |a|
    ensures var (v, w, es) := (ViewAt(db, a, k), ViewAt(db, a, k + 1), a[k].entries);
      && (o in w <==> if o in es then !IsSpent(es[o].coin) else o in v)
      && (o in w ==> w[o] == if o in es then es[o].coin else v[o])
  {
  }

  /** Keeping a clean copy of a coin of the view below changes no view. */
  lemma CopyKeepsStack(mem: Script -> nat, db: CoinMap, a: seq<Layer>, k: nat, o: OutPoint)
    requires StackOk(mem, db, a) && mem([]) == 0 && k < |a| && o !in a[k].entries && o in ViewAt(db, a, k)
    ensures var coin := ViewAt(db, a, k)[o];
      var b := a[k := Layer(a[k].entries[o := Entry(coin, false, false)], a[k].usage + mem(coin.script))];
      StackOk(mem, db, b) && SameViews(db, a, b)
  {
    hide ViewAt, Overlay;
    var (base, l) := (ViewAt(db, a, k), a[k]);
    ViewsUnspent(db, a, k);
    UsageSet(mem, l.entries, o, Entry(base[o], false, false));
    UsageAbsent(mem, l.entries, o);
    CopyShows(base, l.entries, o);
    ViewNext(db, a, k);
    hide StackOk;
    ReplaceKeepsStack(mem, db, a, k,
                      Layer(l.entries[o := Entry(base[o], false, false)], l.usage + mem(base[o].script)));
  }

  lemma ViewNext(db: CoinMap, a: seq<Layer>, k: nat)
    requires k < |a|
    ensures ViewAt(db, a, k + 1) == Overlay(ViewAt(db, a, k), a[k].entries)
  {
  }
}
