/** Coins, cache entries and how one layer of the coins cache overlays the view
    below it. */
module CoinsModel {
  import opened MapSums
  import opened Options

  datatype OutPoint = OutPoint(txid: int, n: nat)
  type Script = seq<bv8>
  datatype Coin = Coin(nValue: int, script: Script, coinBase: bool, height: nat)

  const EMPTY_COIN := Coin(-1, [], false, 0)

  predicate IsSpent(c: Coin) {
    c.nValue == -1
  }

  datatype Entry = Entry(coin: Coin, isDirty: bool, isFresh: bool)

  type CoinMap = map<OutPoint, Coin>
  type EntryMap = map<OutPoint, Entry>

  /** One `CCoinsViewCache`: its entries and its running memory total. */
  datatype Layer = Layer(entries: EntryMap, usage: int)

  // ---- Memory accounting ----

  ghost function EntryMem(mem: Script -> nat): Entry -> nat {
    (e: Entry) => mem(e.coin.script)
  }

  /** The sum over all entries that `cachedCoinsUsage` stands for. */
  ghost function Usage(mem: Script -> nat, es: EntryMap): nat {
    Sum(EntryMem(mem), es)
  }

  /** Any entry can be taken out of the sum first. */
  lemma UsageWithout(mem: Script -> nat, es: EntryMap, o: OutPoint)
    requires o in es
    ensures Usage(mem, es) == mem(es[o].coin.script) + Usage(mem, es - {o})
  {
    SumWithout(EntryMem(mem), es, o);
  }

  lemma UsageSet(mem: Script -> nat, es: EntryMap, o: OutPoint, e: Entry)
    ensures Usage(mem, es[o := e]) == mem(e.coin.script) + Usage(mem, es - {o})
  {
    SumSet(EntryMem(mem), es, o, e);
  }

  lemma UsageAbsent(mem: Script -> nat, es: EntryMap, o: OutPoint)
    requires o !in es
    ensures Usage(mem, es - {o}) == Usage(mem, es)
  {
    assert es - {o} == es;
  }

  // ---- Overlays and flags ----

  /** What a cache shows: its own entries, else the view below. */
  function Overlay(base: CoinMap, es: EntryMap): (v: CoinMap)
    ensures forall o :: o in v <==> if o in es then !IsSpent(es[o].coin) else o in base
    ensures forall o | o in v :: v[o] == if o in es then es[o].coin else base[o]
  {
    map o | o in base.Keys + es.Keys && (o in es ==> !IsSpent(es[o].coin)) :: if o in es then es[o].coin else base[o]
  }

  /** The meaning of the flags: an entry that is not DIRTY equals the parent's
      view, a FRESH one is absent from it, and only four combinations occur. */
  ghost predicate EntryOk(base: CoinMap, o: OutPoint, e: Entry) {
    && (!e.isDirty ==> o in base && base[o] == e.coin)
    && (e.isFresh ==> o !in base && e.isDirty)
    && (IsSpent(e.coin) ==> e.isDirty && !e.isFresh && e.coin == EMPTY_COIN)
  }

  ghost predicate EntriesOk(base: CoinMap, es: EntryMap) {
    forall o | o in es :: EntryOk(base, o, es[o])
  }

  ghost predicate NoneSpent(v: CoinMap) {
    forall o | o in v :: !IsSpent(v[o])
  }

  ghost predicate LayerOk(mem: Script -> nat, base: CoinMap, l: Layer) {
    EntriesOk(base, l.entries) && l.usage == Usage(mem, l.entries)
  }

  // ---- Pushing a child's changes into its parent ----

  function Get(es: EntryMap, o: OutPoint): Option<Entry> {
    if o in es then Some(es[o]) else None
  }

  /** The parent's entry after BatchWrite has handled the child's entry `c`. */
  function Merged(p: Option<Entry>, c: Entry): Option<Entry> {
    if !c.isDirty then p
    else if p.None? then
      if c.isFresh && IsSpent(c.coin) then None else Some(Entry(c.coin, true, c.isFresh))
    else if p.value.isFresh && IsSpent(c.coin) then None
    else Some(Entry(c.coin, true, p.value.isFresh))
  }

  function Put(es: EntryMap, o: OutPoint, e: Option<Entry>): EntryMap {
    if e.Some? then es[o := e.value] else es - {o}
  }

  /** `q` is `p` with the child's entries for `done` written in. */
  ghost predicate WrittenUpTo(p: EntryMap, c: EntryMap, done: set<OutPoint>, q: EntryMap) {
    forall o :: Get(q, o) == if o in done && o in c then Merged(Get(p, o), c[o]) else Get(p, o)
  }

  lemma WriteOne(p: EntryMap, c: EntryMap, done: set<OutPoint>, q: EntryMap, o: OutPoint)
    requires WrittenUpTo(p, c, done, q) && o in c && o !in done
    ensures WrittenUpTo(p, c, done + {o}, Put(q, o, Merged(Get(q, o), c[o])))
  {
    var r := Put(q, o, Merged(Get(q, o), c[o]));
    forall x ensures Get(r, x) == if x in done + {o} && x in c then Merged(Get(p, x), c[x]) else Get(p, x) {
      assert Get(q, x) == if x in done && x in c then Merged(Get(p, x), c[x]) else Get(p, x);
    }
  }

  /** A FRESH child entry never meets an unspent entry in the parent, so the
      "FRESH flag misapplied" error cannot happen. */
  lemma FreshNotMisapplied(base: CoinMap, p: EntryMap, c: EntryMap, o: OutPoint)
    requires EntriesOk(Overlay(base, p), c) && o in c && o in p && c[o].isFresh
    ensures IsSpent(p[o].coin)
  {
    assert EntryOk(Overlay(base, p), o, c[o]);
  }

  /** Writing all of a child's changes keeps the parent's flags truthful, and
      the parent alone now shows what parent and child showed together. */
  lemma WriteAll(base: CoinMap, p: EntryMap, c: EntryMap, q: EntryMap)
    requires EntriesOk(base, p) && EntriesOk(Overlay(base, p), c)
    requires WrittenUpTo(p, c, c.Keys, q)
    ensures EntriesOk(base, q)
    ensures Overlay(base, q) == Overlay(Overlay(base, p), c)
  {
    forall o | o in q ensures EntryOk(base, o, q[o]) {
      MergedOk(base, p, c, q, o);
    }
    var v, w := Overlay(base, q), Overlay(Overlay(base, p), c);
    forall o ensures (o in v <==> o in w) && (o in v ==> v[o] == w[o]) {
      MergedShows(base, p, c, q, o);
    }
    assert v.Keys == w.Keys;
  }

  lemma MergedOk(base: CoinMap, p: EntryMap, c: EntryMap, q: EntryMap, o: OutPoint)
    requires EntriesOk(base, p) && EntriesOk(Overlay(base, p), c) && WrittenUpTo(p, c, c.Keys, q) && o in q
    ensures EntryOk(base, o, q[o])
  {
    assert Get(q, o) == if o in c then Merged(Get(p, o), c[o]) else Get(p, o);
    if o in c {
      assert EntryOk(Overlay(base, p), o, c[o]);
    }
    if o in p {
      assert EntryOk(base, o, p[o]);
    }
  }

  lemma MergedShows(base: CoinMap, p: EntryMap, c: EntryMap, q: EntryMap, o: OutPoint)
    requires EntriesOk(base, p) && EntriesOk(Overlay(base, p), c) && WrittenUpTo(p, c, c.Keys, q)
    ensures var v, w := Overlay(base, q), Overlay(Overlay(base, p), c);
      (o in v <==> o in w) && (o in v ==> v[o] == w[o])
  {
    assert Get(q, o) == if o in c then Merged(Get(p, o), c[o]) else Get(p, o);
    if o in c {
      assert EntryOk(Overlay(base, p), o, c[o]);
    }
    if o in p {
      assert EntryOk(base, o, p[o]);
    }
  }

  /** FRESH is inherited from the parent's entry, or from the child's where the
      parent had none; a spent coin whose outpoint is FRESH leaves no entry. */
  lemma WrittenEntry(p: EntryMap, c: EntryMap, q: EntryMap, o: OutPoint)
    requires WrittenUpTo(p, c, c.Keys, q)
    ensures o !in c || !c[o].isDirty ==> (o in q <==> o in p) && (o in q ==> q[o] == p[o])
    ensures o in c && c[o].isDirty ==>
      var isFresh := if o in p then p[o].isFresh else c[o].isFresh;
      && (o in q <==> !isFresh || !IsSpent(c[o].coin))
      && (o in q ==> q[o] == Entry(c[o].coin, true, isFresh))
  {
    assert Get(q, o) == if o in c then Merged(Get(p, o), c[o]) else Get(p, o);
  }

  /** The database's BatchWrite: dirty entries are written or erased. */
  function DbWritten(db: CoinMap, c: EntryMap): CoinMap {
    map o | o in db.Keys + c.Keys && (if o in c && c[o].isDirty then !IsSpent(c[o].coin) else o in db)
      :: if o in c && c[o].isDirty then c[o].coin else db[o]
  }

  lemma DbWriteShows(db: CoinMap, c: EntryMap)
    requires EntriesOk(db, c) && NoneSpent(db)
    ensures DbWritten(db, c) == Overlay(db, c)
  {
    var v, w := DbWritten(db, c), Overlay(db, c);
    forall o ensures o in v <==> o in w {
      if o in c {
        assert EntryOk(db, o, c[o]);
      }
    }
    forall o | o in v ensures v[o] == w[o] {
      if o in c {
        assert EntryOk(db, o, c[o]);
      }
    }
    assert v.Keys == w.Keys;
  }

  // ---- Sync: the child keeps what is not spent, with clean flags ----

  function Cleaned(c: EntryMap): (r: EntryMap)
    ensures forall o :: o in r <==> o in c && !IsSpent(c[o].coin)
    ensures forall o | o in r :: r[o] == Entry(c[o].coin, false, false)
  {
    map o | o in c && !IsSpent(c[o].coin) :: Entry(c[o].coin, false, false)
  }

  lemma CleanedShows(base: CoinMap, c: EntryMap)
    ensures EntriesOk(Overlay(base, c), Cleaned(c))
    ensures Overlay(Overlay(base, c), Cleaned(c)) == Overlay(base, c)
  {
    var v := Overlay(base, c);
    var w := Overlay(v, Cleaned(c));
    assert forall o :: o in w <==> o in v;
    assert v.Keys == w.Keys;
  }
}
