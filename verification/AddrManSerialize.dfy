/** `Serialize` and `Unserialize`: the saved form keeps only each entry's
    persistent fields, the order in which new and tried entries were written,
    and, per new bucket, indexes into the new entries.  Ids, reference counts,
    both tables and all indexes are rebuilt on load. */
module AddrManSerialize {
  import opened AddrManTypes
  import opened AddrManPrimitives
  import opened AddrManOps
  import opened AddrManCheck

  datatype SavedInfo = SavedInfo(
    service: Service, nTime: int, nServices: bv64, source: NetAddr, lastSuccess: int, nAttempts: int)

  datatype Saved = Saved(
    newEntries: seq<SavedInfo>, triedEntries: seq<SavedInfo>, buckets: seq<seq<int>>, asmap: int)

  datatype Loaded = Ok(state: State) | Corrupt

  function Save(i: AddrInfo): SavedInfo {
    SavedInfo(i.service, i.nTime, i.nServices, i.source, i.lastSuccess, i.nAttempts)
  }

  function Restore(x: SavedInfo, pos: int, tried: bool): AddrInfo {
    AddrInfo(x.service, x.nTime, x.nServices, x.source, 0, 0, x.lastSuccess, x.nAttempts, 0, tried, pos)
  }

  // ---- Serialize ----

  /** The ids written to one of the two lists, in iteration order: those with
      references, or those in tried. */
  function Listed(m: InfoMap, order: seq<int>, tried: bool): seq<int> {
    if order == [] then [] else
      var i := Rec(m, order[|order| - 1]);
      Listed(m, order[..|order| - 1], tried)
        + if (if tried then i.inTried else i.nRefCount != 0) then [order[|order| - 1]] else []
  }

  /** `mapUnkIds`: how many new entries were written before each id. */
  function Ranks(m: InfoMap, order: seq<int>): map<int, int> {
    if order == [] then map[] else
      Ranks(m, order[..|order| - 1])[order[|order| - 1] := |Listed(m, order[..|order| - 1], false)|]
  }

  function SaveAll(m: InfoMap, ids: seq<int>): (r: seq<SavedInfo>)
    ensures |r| == |ids| && forall j | 0 <= j < |ids| :: r[j] == Save(Rec(m, ids[j]))
  {
    seq(|ids|, j requires 0 <= j < |ids| => Save(Rec(m, ids[j])))
  }

  function RankOf(r: map<int, int>, id: int): int {
    if id in r then r[id] else 0
  }

  /** The indexes written for bucket `b`, from position `i` on. */
  function Row(t: Table, r: map<int, int>, b: int, i: int): seq<int>
    decreases BUCKET_SIZE - i
  {
    if i >= BUCKET_SIZE then [] else
      (if (b, i) in t then [RankOf(r, t[(b, i)])] else []) + Row(t, r, b, i + 1)
  }

  function Rows(t: Table, r: map<int, int>, b: nat): (rows: seq<seq<int>>)
    requires b <= NEW_BUCKET_COUNT
    ensures |rows| == b && forall j | 0 <= j < b :: rows[j] == Row(t, r, j, 0)
  {
    seq(b, j => Row(t, r, j, 0))
  }

  /** `order` is the iteration order of mapInfo. */
  function Serialize(s: State, order: seq<int>, asmap: int): Saved {
    Saved(SaveAll(s.mapInfo, Listed(s.mapInfo, order, false)),
          SaveAll(s.mapInfo, Listed(s.mapInfo, order, true)),
          Rows(s.vvNew, Ranks(s.mapInfo, order), NEW_BUCKET_COUNT),
          asmap)
  }

  // ---- Unserialize ----

  function LoadEntry(s: State, x: SavedInfo, id: int, tried: bool): State {
    s.(mapInfo := s.mapInfo[id := Restore(x, |s.vRandom|, tried)],
       mapAddr := s.mapAddr[x.service := id],
       vRandom := s.vRandom + [id],
       counts := if tried then Bump(s.counts, x.service.net.network, 0, 1)
                 else Bump(s.counts, x.service.net.network, 1, 0))
  }

  /** The first n saved new entries become ids 0 .. n-1. */
  function LoadNew(s: State, xs: seq<SavedInfo>): State {
    if xs == [] then s else
      LoadEntry(LoadNew(s, xs[..|xs| - 1]), xs[|xs| - 1], |xs| - 1, false)
  }

  function LoadTriedEntry(s: State, x: SavedInfo): State {
    var k := TriedSlot(s.h, x.service);
    if s.h.valid(x.service.net) && k !in s.vvTried then
      LoadEntry(s, x, s.nIdCount, true).(vvTried := s.vvTried[k := s.nIdCount],
                                         nIdCount := s.nIdCount + 1, nTried := s.nTried + 1)
    else s
  }

  function LoadTried(s: State, xs: seq<SavedInfo>): State {
    if xs == [] then s else LoadTriedEntry(LoadTried(s, xs[..|xs| - 1]), xs[|xs| - 1])
  }

  /** One bucket entry: restored to its bucket if bucketing has not changed,
      otherwise to the bucket of its primary source if that is free. */
  function LoadSlot(s: State, b: int, j: int, restore: bool): State {
    if !(0 <= j < s.nNew) then s else
    var i := Rec(s.mapInfo, j);
    if !s.h.valid(i.service.net) || i.nRefCount >= NEW_BUCKETS_PER_ADDRESS then s else
    var k := (b, Position(s.h, true, b, i.service));
    if restore && k !in s.vvNew then AddRef(s, k, j) else
    var k' := NewSlot(s.h, i.service, i.source);
    if k' !in s.vvNew then AddRef(s, k', j) else s
  }

  function LoadRow(s: State, b: int, row: seq<int>, restore: bool): State
    decreases |row|
  {
    if row == [] then s else LoadRow(LoadSlot(s, b, row[0], restore), b, row[1..], restore)
  }

  function LoadRows(s: State, rows: seq<seq<int>>, restore: bool): State {
    if rows == [] then s else
      LoadRow(LoadRows(s, rows[..|rows| - 1], restore), |rows| - 1, rows[|rows| - 1], restore)
  }

  /** Entries that found no slot are deleted, in the iteration order of mapInfo. */
  function Prune(s: State, order: seq<int>): State
    decreases |order|
  {
    if order == [] then s else
      Prune(if Deletable(s, order[0]) then Delete(s, order[0]) else s, order[1..])
  }

  /** The manager before pruning. */
  function Rebuilt(h: Hashing, x: Saved, asmap: int): State {
    var fresh_ := LoadNew(Empty(h), x.newEntries).(nIdCount := |x.newEntries|, nNew := |x.newEntries|);
    var restore := |x.buckets| == NEW_BUCKET_COUNT && x.asmap == asmap;
    LoadRows(LoadTried(fresh_, x.triedEntries), x.buckets, restore)
  }

  /** `order` is the iteration order of the rebuilt mapInfo. */
  ghost function Unserialize(h: Hashing, x: Saved, asmap: int, order: seq<int>): Loaded {
    if |x.newEntries| > NEW_BUCKET_COUNT * BUCKET_SIZE || |x.triedEntries| > TRIED_BUCKET_COUNT * BUCKET_SIZE
    then Corrupt else
    var kept := Prune(Rebuilt(h, x, asmap), order);
    if Checked(kept) then Ok(kept) else Corrupt
  }

  // ---- What was written ----

  /** `order` visits every id exactly once. */
  ghost predicate Enumerates(order: seq<int>, m: InfoMap) {
    && (forall p | 0 <= p < |order| :: order[p] in m)
    && (forall p, q | 0 <= p < q < |order| :: order[p] != order[q])
    && (forall id | id in m :: id in order)
  }

  ghost predicate Distinct(ids: seq<int>) {
    forall p, q | 0 <= p < q < |ids| :: ids[p] != ids[q]
  }

  lemma ListedFacts(m: InfoMap, order: seq<int>, tried: bool)
    requires (forall p | 0 <= p < |order| :: order[p] in m) && Distinct(order)
    ensures Distinct(Listed(m, order, tried))
    ensures forall id :: id in Listed(m, order, tried) <==>
      id in order && id in m && (if tried then m[id].inTried else m[id].nRefCount != 0)
  {
    if order != [] {
      var rest, last := order[..|order| - 1], order[|order| - 1];
      assert order == rest + [last];
      ListedFacts(m, rest, tried);
      assert last !in rest;
    }
  }

  lemma RanksFacts(m: InfoMap, order: seq<int>)
    requires (forall p | 0 <= p < |order| :: order[p] in m) && Distinct(order)
    ensures forall j | 0 <= j < |Listed(m, order, false)| ::
      Listed(m, order, false)[j] in Ranks(m, order) && Ranks(m, order)[Listed(m, order, false)[j]] == j
  {
    if order != [] {
      var rest, last := order[..|order| - 1], order[|order| - 1];
      assert order == rest + [last];
      assert last !in rest;
      RanksFacts(m, rest);
      ListedFacts(m, rest, false);
      var l := Listed(m, rest, false);
      forall j | 0 <= j < |l| ensures l[j] != last {
        assert l[j] in rest;
      }
    }
  }

  /** The ids of the reloaded manager, by position: new entries first, then tried. */
  function AllListed(m: InfoMap, order: seq<int>): seq<int> {
    Listed(m, order, false) + Listed(m, order, true)
  }

  lemma AllListedFacts(s: State, order: seq<int>)
    requires Consistent(s) && Enumerates(order, s.mapInfo)
    ensures Distinct(AllListed(s.mapInfo, order))
    ensures forall id :: id in AllListed(s.mapInfo, order) <==> id in s.mapInfo
    ensures forall j | 0 <= j < |AllListed(s.mapInfo, order)| ::
      && AllListed(s.mapInfo, order)[j] in s.mapInfo
      && (s.mapInfo[AllListed(s.mapInfo, order)[j]].inTried <==> j >= |Listed(s.mapInfo, order, false)|)
  {
    hide Core, Listed;
    var m := s.mapInfo;
    var a, b := Listed(m, order, false), Listed(m, order, true);
    ListedFacts(m, order, false);
    ListedFacts(m, order, true);
    forall id | id in m ensures id in order && (m[id].inTried <==> m[id].nRefCount == 0) {
      CoreEntry(s, id);
    }
    hide Consistent;
    TwoLists(m, a, b);
  }

  lemma TwoLists(m: InfoMap, a: seq<int>, b: seq<int>)
    requires Distinct(a) && Distinct(b)
    requires forall id :: id in a <==> id in m && !m[id].inTried
    requires forall id :: id in b <==> id in m && m[id].inTried
    ensures Distinct(a + b) && (forall id :: id in a + b <==> id in m)
    ensures forall j | 0 <= j < |a + b| :: (a + b)[j] in m && (m[(a + b)[j]].inTried <==> j >= |a|)
  {
    forall j | 0 <= j < |a + b| ensures (a + b)[j] in m && (m[(a + b)[j]].inTried <==> j >= |a|) {
      var x := (a + b)[j];
      if j < |a| {
        assert x == a[j];
        assert x in a;
      } else {
        assert x == b[j - |a|];
        assert x in b;
      }
    }
    forall p, q | 0 <= p < q < |a + b| ensures (a + b)[p] != (a + b)[q] {
      if p < |a| <= q {
        var x, y := a[p], b[q - |a|];
        assert x in a && y in b;
      }
    }
  }

  // ---- Loading the entries ----

  /** `t` holds the first n listed entries as ids 0 .. n-1, all unplaced. */
  ghost predicate Reloaded(s: State, all: seq<int>, t: State, n: nat) {
    && n <= |all| && t.h == s.h && t.nIdCount == n
    && (forall id :: id in t.mapInfo <==> 0 <= id < n)
    && (forall j | 0 <= j < n ::
          all[j] in s.mapInfo && t.mapInfo[j] == Restore(Save(s.mapInfo[all[j]]), j, s.mapInfo[all[j]].inTried))
    && |t.vRandom| == n && t.vvNew == map[] && t.collisions == {}
  }

  /** Distinct listed ids have distinct addresses, so a listed entry is new to
      a manager holding only the entries before it. */
  lemma NotYetLoaded(s: State, all: seq<int>, t: State, n: nat)
    requires Core(s) && Core(t) && Reloaded(s, all, t, n) && n < |all| && Distinct(all) && all[n] in s.mapInfo
    ensures s.mapInfo[all[n]].service !in t.mapAddr
    ensures forall k | k in t.vvTried :: k != TriedSlot(s.h, s.mapInfo[all[n]].service) || !s.mapInfo[all[n]].inTried
  {
    hide Core;
    var id := all[n];
    var a := s.mapInfo[id].service;
    CoreEntry(s, id);
    if a in t.mapAddr {
      CoreAddr(t, a);
      var j := t.mapAddr[a];
      assert j in t.mapInfo && t.mapInfo[j].service == s.mapInfo[all[j]].service;
      CoreEntry(s, all[j]);
    }
    if s.mapInfo[id].inTried {
      forall k | k in t.vvTried ensures k != TriedSlot(s.h, a) {
        CoreParts(t, k);
        var j := t.vvTried[k];
        assert j in t.mapInfo && all[j] in s.mapInfo;
        TriedApart(s, id, all[j]);
      }
    }
  }

  lemma TriedApart(s: State, a: int, b: int)
    requires Core(s) && a in s.mapInfo && b in s.mapInfo && a != b && s.mapInfo[a].inTried && s.mapInfo[b].inTried
    ensures TriedSlot(s.h, s.mapInfo[a].service) != TriedSlot(s.h, s.mapInfo[b].service)
  {
    hide EntriesOk, AddrOk, CountersOk, NewTableOk, RandomOk;
  }

  /** A loaded entry with the counters brought up to date. */
  function Grown(t: State, x: SavedInfo, tried: bool): State {
    LoadEntry(t, x, t.nIdCount, tried).(
      nIdCount := t.nIdCount + 1,
      nNew := t.nNew + (if tried then 0 else 1),
      nTried := t.nTried + (if tried then 1 else 0),
      vvTried := if tried then t.vvTried[TriedSlot(t.h, x.service) := t.nIdCount] else t.vvTried)
  }

  lemma ReloadedGrows(s: State, all: seq<int>, t: State, n: nat, x: SavedInfo, tried: bool)
    requires Reloaded(s, all, t, n) && n < |all| && all[n] in s.mapInfo
    requires x == Save(s.mapInfo[all[n]]) && tried == s.mapInfo[all[n]].inTried
    ensures Reloaded(s, all, Grown(t, x, tried), n + 1)
  {
  }

  /** One more entry keeps Core, whichever list it comes from. */
  lemma LoadKeepsCore(t: State, x: SavedInfo, tried: bool)
    requires Core(t) && x.service !in t.mapAddr && t.vvNew == map[]
    requires 0 <= x.lastSuccess && (tried ==> 0 < x.lastSuccess && TriedSlot(t.h, x.service) !in t.vvTried)
    ensures t.nIdCount !in t.mapInfo
    ensures Core(Grown(t, x, tried))
  {
    hide AddrOk, CountersOk, NewTableOk, RandomOk, TriedTableOk;
    var i := Restore(x, |t.vRandom|, tried);
    var id := t.nIdCount;
    assert id !in t.mapInfo;
    RandomAdded(t.mapInfo, t.vRandom, id, i);
    AddrAdded(t.mapInfo, t.mapAddr, id, i);
    NewTableUnnamed(t.h, t.mapInfo, t.vvNew, id, i);
    if tried {
      TriedTableAdded(t.h, t.mapInfo, t.vvTried, id, i);
      CountersAddTried(t.mapInfo, id, i, t.nNew, t.nTried, t.counts);
    } else {
      TriedTableUnnamed(t.h, t.mapInfo, t.vvTried, id, i);
      CountersAdd(t.mapInfo, id, i, t.nNew, t.nTried, t.counts);
    }
  }

  lemma CountersAddTried(m: InfoMap, id: int, i: AddrInfo, nNew: int, nTried: int, c: NetCounts)
    requires id !in m && i.inTried
    requires CountersOk(m, nNew, nTried, c)
    ensures CountersOk(m[id := i], nNew, nTried + 1, Bump(c, i.service.net.network, 0, 1))
  {
    hide IdsIn, IdsInNet;
    SizeAdd(m, id, i);
    forall net: Network
      ensures CountOf(Bump(c, i.service.net.network, 0, 1), net)
           == NetCount(|IdsInNet(m[id := i], false, net)|, |IdsInNet(m[id := i], true, net)|)
    {
      NetAdd(m, id, i, net);
    }
  }

  /** What the loader needs to know of the saved manager and its listing. */
  ghost predicate Source(s: State, all: seq<int>, nNew: nat) {
    && Core(s) && Distinct(all) && nNew <= |all|
    && (forall id :: id in all <==> id in s.mapInfo)
    && (forall j | 0 <= j < |all| ::
          all[j] in s.mapInfo && (s.mapInfo[all[j]].inTried <==> j >= nNew)
          && s.h.valid(s.mapInfo[all[j]].service.net))
  }

  /** The state after n new entries, with the counters the loader sets afterwards. */
  function AfterNew(h: Hashing, xs: seq<SavedInfo>): State {
    LoadNew(Empty(h), xs).(nIdCount := |xs|, nNew := |xs|)
  }

  lemma {:induction false} LoadNewSpec(s: State, all: seq<int>, nNew: nat, xs: seq<SavedInfo>)
    requires Source(s, all, nNew) && |xs| <= nNew
    requires forall j | 0 <= j < |xs| :: xs[j] == Save(s.mapInfo[all[j]])
    ensures Core(AfterNew(s.h, xs)) && Reloaded(s, all, AfterNew(s.h, xs), |xs|)
    ensures AfterNew(s.h, xs).vvTried == map[] && AfterNew(s.h, xs).nNew == |xs| && AfterNew(s.h, xs).nTried == 0
  {
    hide Core;
    if xs == [] {
      EmptyCore(s.h);
    } else {
      hide Reloaded;
      var n := |xs| - 1;
      LoadNewSpec(s, all, nNew, xs[..n]);
      var t := AfterNew(s.h, xs[..n]);
      LoadNewStep(s, all, nNew, t, n, xs[n]);
      AfterNewGrows(s.h, xs);
    }
  }

  lemma LoadNewStep(s: State, all: seq<int>, nNew: nat, t: State, n: nat, x: SavedInfo)
    requires Source(s, all, nNew) && n < nNew
    requires Core(t) && Reloaded(s, all, t, n) && x == Save(s.mapInfo[all[n]])
    requires t.vvTried == map[] && t.nTried == 0
    ensures Core(Grown(t, x, false)) && Reloaded(s, all, Grown(t, x, false), n + 1)
  {
    hide Core;
    NotYetLoaded(s, all, t, n);
    CoreEntry(s, all[n]);
    LoadKeepsCore(t, x, false);
    ReloadedGrows(s, all, t, n, x, false);
  }

  lemma AfterNewGrows(h: Hashing, xs: seq<SavedInfo>)
    requires xs != []
    ensures AfterNew(h, xs) == Grown(AfterNew(h, xs[..|xs| - 1]), xs[|xs| - 1], false)
  {
  }

  lemma LoadTriedStep(s: State, all: seq<int>, nNew: nat, t: State, n: nat, x: SavedInfo)
    requires Source(s, all, nNew) && nNew <= n < |all|
    requires Core(t) && Reloaded(s, all, t, n) && x == Save(s.mapInfo[all[n]])
    ensures LoadTriedEntry(t, x) == Grown(t, x, true)
    ensures Core(Grown(t, x, true)) && Reloaded(s, all, Grown(t, x, true), n + 1)
  {
    hide Core;
    NotYetLoaded(s, all, t, n);
    CoreEntry(s, all[n]);
    LoadKeepsCore(t, x, true);
    ReloadedGrows(s, all, t, n, x, true);
  }

  lemma {:induction false} LoadTriedSpec(s: State, all: seq<int>, nNew: nat, t0: State, xs: seq<SavedInfo>)
    requires Source(s, all, nNew) && nNew + |xs| <= |all|
    requires Core(t0) && Reloaded(s, all, t0, nNew) && t0.nNew == nNew && t0.nTried == 0
    requires forall j | 0 <= j < |xs| :: xs[j] == Save(s.mapInfo[all[nNew + j]])
    ensures var t := LoadTried(t0, xs);
      Core(t) && Reloaded(s, all, t, nNew + |xs|) && t.nNew == nNew && t.nTried == |xs|
  {
    hide Core, Reloaded, LoadTriedEntry;
    if xs != [] {
      var n := |xs| - 1;
      LoadTriedSpec(s, all, nNew, t0, xs[..n]);
      assert LoadTried(t0, xs) == LoadTriedEntry(LoadTried(t0, xs[..n]), xs[n]);
      LoadTriedStep(s, all, nNew, LoadTried(t0, xs[..n]), nNew + n, xs[n]);
    }
  }

  // ---- Restoring the new table ----

  /** Ranks agree with the listing. */
  ghost predicate RanksOk(all: seq<int>, nNew: nat, r: map<int, int>) {
    nNew <= |all| && forall j | 0 <= j < nNew :: RankOf(r, all[j]) == j
  }

  /** All entries are loaded, and every reference the saved table holds before
      slot (b, i) has been restored to its own slot. */
  ghost predicate Placed(s: State, all: seq<int>, t: State, b: int, i: int) {
    && t.h == s.h && t.nIdCount == |all| && t.collisions == {}
    && (forall id :: id in t.mapInfo <==> 0 <= id < |all|)
    && (forall j | 0 <= j < |all| ::
          all[j] in s.mapInfo && t.mapInfo[j]
            == Restore(Save(s.mapInfo[all[j]]), j, s.mapInfo[all[j]].inTried).(
                 nRefCount := |SeenRefs(s.vvNew, all[j], b, i)|))
    && (forall k | k in t.vvNew ::
          k in s.vvNew && Before(k, b, i) && 0 <= t.vvNew[k] < |all| && all[t.vvNew[k]] == s.vvNew[k])
    && (forall k | k in s.vvNew && Before(k, b, i) :: k in t.vvNew)
  }

  lemma StartPlacing(s: State, all: seq<int>, nNew: nat, t: State)
    requires Source(s, all, nNew) && Reloaded(s, all, t, |all|)
    ensures Placed(s, all, t, 0, 0)
  {
    hide Core;
    forall j | 0 <= j < |all| ensures |SeenRefs(s.vvNew, all[j], 0, 0)| == 0 {
      forall k | k in s.vvNew ensures !Before(k, 0, 0) {
        InNewGrid(s, k);
      }
      assert SeenRefs(s.vvNew, all[j], 0, 0) == {};
    }
    forall k | k in s.vvNew ensures !Before(k, 0, 0) {
      InNewGrid(s, k);
    }
  }

  lemma InNewGrid(s: State, k: Slot)
    requires Core(s) && k in s.vvNew
    ensures 0 <= k.0 < NEW_BUCKET_COUNT && 0 <= k.1 < BUCKET_SIZE
    ensures s.vvNew[k] in s.mapInfo && !s.mapInfo[s.vvNew[k]].inTried
    ensures k.1 == Position(s.h, true, k.0, s.mapInfo[s.vvNew[k]].service)
  {
    hide EntriesOk, AddrOk, CountersOk, TriedTableOk, RandomOk;
  }

  /** Restoring the reference at an occupied slot. */
  lemma PlaceStep(s: State, all: seq<int>, nNew: nat, r: map<int, int>, t: State, b: int, i: int)
    requires Source(s, all, nNew) && RanksOk(all, nNew, r) && (b, i) in s.vvNew
    requires Core(t) && Placed(s, all, t, b, i) && t.nNew == nNew
    ensures var u := LoadSlot(t, b, RankOf(r, s.vvNew[(b, i)]), true);
      Core(u) && Placed(s, all, u, b, i + 1) && u.nNew == nNew && u.nTried == t.nTried
  {
    hide Core, SeenRefs, Position, Distinct;
    var id := s.vvNew[(b, i)];
    InNewGrid(s, (b, i));
    assert id in all;
    var j :| 0 <= j < |all| && all[j] == id;
    assert RankOf(r, id) == j && j < nNew;
    FewSeen(s, b, i);
    assert (b, i) !in t.vvNew;
    AddRefKeepsCore(t, (b, i), j);
    assert LoadSlot(t, b, j, true) == AddRef(t, (b, i), j);
    PlacedGrows(s, all, t, b, i, j);
  }

  lemma FewSeen(s: State, b: int, i: int)
    requires Core(s) && (b, i) in s.vvNew
    ensures |SeenRefs(s.vvNew, s.vvNew[(b, i)], b, i)| < NEW_BUCKETS_PER_ADDRESS
  {
    hide EntriesOk, AddrOk, CountersOk, TriedTableOk, RandomOk, SeenRefs, Refs;
    SeenSome(s.vvNew, s.vvNew[(b, i)], b, i);
    RefsOf(s, (b, i));
  }

  lemma PlacedGrows(s: State, all: seq<int>, t: State, b: int, i: int, j: int)
    requires Placed(s, all, t, b, i) && (b, i) in s.vvNew
    requires 0 <= j < |all| && all[j] == s.vvNew[(b, i)] && Distinct(all)
    ensures Placed(s, all, AddRef(t, (b, i), j), b, i + 1)
  {
    hide SeenRefs;
    forall x | 0 <= x < |all|
      ensures |SeenRefs(s.vvNew, all[x], b, i + 1)| == |SeenRefs(s.vvNew, all[x], b, i)| + if x == j then 1 else 0
    {
      SeenStep(s.vvNew, all[x], b, i);
    }
    forall k | k in s.vvNew ensures Before(k, b, i + 1) <==> Before(k, b, i) || k == (b, i) {
    }
  }

  lemma PlacedSkips(s: State, all: seq<int>, t: State, b: int, i: int)
    requires Placed(s, all, t, b, i) && (b, i) !in s.vvNew
    ensures Placed(s, all, t, b, i + 1)
  {
    hide SeenRefs;
    forall x | 0 <= x < |all|
      ensures |SeenRefs(s.vvNew, all[x], b, i + 1)| == |SeenRefs(s.vvNew, all[x], b, i)|
    {
      SeenStep(s.vvNew, all[x], b, i);
    }
    forall k | k in s.vvNew ensures Before(k, b, i + 1) <==> Before(k, b, i) {
      assert k != (b, i);
    }
  }

  lemma PlacedNextRow(s: State, all: seq<int>, t: State, b: int)
    requires Placed(s, all, t, b, BUCKET_SIZE) && Core(s)
    ensures Placed(s, all, t, b + 1, 0)
  {
    hide Core;
    forall k | k in s.vvNew ensures Before(k, b + 1, 0) <==> Before(k, b, BUCKET_SIZE) {
      InNewGrid(s, k);
    }
    forall x | 0 <= x < |all|
      ensures SeenRefs(s.vvNew, all[x], b + 1, 0) == SeenRefs(s.vvNew, all[x], b, BUCKET_SIZE)
    {
    }
  }

  lemma {:induction false} LoadRowSpec(s: State, all: seq<int>, nNew: nat, r: map<int, int>, t: State, b: int, i: int)
    requires Source(s, all, nNew) && RanksOk(all, nNew, r) && 0 <= i <= BUCKET_SIZE
    requires Core(t) && Placed(s, all, t, b, i) && t.nNew == nNew
    ensures var u := LoadRow(t, b, Row(s.vvNew, r, b, i), true);
      Core(u) && Placed(s, all, u, b, BUCKET_SIZE) && u.nNew == nNew && u.nTried == t.nTried
    decreases BUCKET_SIZE - i
  {
    hide Core, Source, Placed, RanksOk, LoadSlot;
    if i < BUCKET_SIZE {
      if (b, i) in s.vvNew {
        PlaceStep(s, all, nNew, r, t, b, i);
        var row := Row(s.vvNew, r, b, i);
        assert row[0] == RankOf(r, s.vvNew[(b, i)]) && row[1..] == Row(s.vvNew, r, b, i + 1);
        LoadRowSpec(s, all, nNew, r, LoadSlot(t, b, row[0], true), b, i + 1);
      } else {
        PlacedSkips(s, all, t, b, i);
        assert Row(s.vvNew, r, b, i) == Row(s.vvNew, r, b, i + 1);
        LoadRowSpec(s, all, nNew, r, t, b, i + 1);
      }
    }
  }

  lemma {:induction false} LoadRowsSpec(s: State, all: seq<int>, nNew: nat, r: map<int, int>, t: State,
                                        rows: seq<seq<int>>)
    requires Source(s, all, nNew) && RanksOk(all, nNew, r)
    requires forall b | 0 <= b < |rows| :: rows[b] == Row(s.vvNew, r, b, 0)
    requires Core(t) && Placed(s, all, t, 0, 0) && t.nNew == nNew
    ensures var u := LoadRows(t, rows, true);
      Core(u) && Placed(s, all, u, |rows|, 0) && u.nNew == nNew && u.nTried == t.nTried
  {
    hide Core, Placed, RanksOk, LoadRow, Row;
    if rows != [] {
      var b := |rows| - 1;
      LoadRowsSpec(s, all, nNew, r, t, rows[..b]);
      var u := LoadRows(t, rows[..b], true);
      LoadRowSpec(s, all, nNew, r, u, b, 0);
      PlacedNextRow(s, all, LoadRow(u, b, rows[b], true), b);
    }
  }

  // ---- The round trip ----

  /** The address an occupied slot holds. */
  function AddressAt(m: InfoMap, t: Table, k: Slot): Service
    requires k in t
  {
    Rec(m, t[k]).service
  }

  /** Two managers with the same tables and entries, whatever ids they use. */
  ghost predicate SameUpToIds(s: State, t: State) {
    && t.nNew == s.nNew && t.nTried == s.nTried
    && (forall k :: k in t.vvNew <==> k in s.vvNew)
    && (forall k | k in s.vvNew :: AddressAt(t.mapInfo, t.vvNew, k) == AddressAt(s.mapInfo, s.vvNew, k))
    && (forall k :: k in t.vvTried <==> k in s.vvTried)
    && (forall k | k in s.vvTried :: AddressAt(t.mapInfo, t.vvTried, k) == AddressAt(s.mapInfo, s.vvTried, k))
    && (forall a :: a in t.mapAddr <==> a in s.mapAddr)
    && (forall a | a in s.mapAddr :: SameEntry(Rec(s.mapInfo, s.mapAddr[a]), Rec(t.mapInfo, t.mapAddr[a])))
  }

  /** All but the memory-only fields agree. */
  ghost predicate SameEntry(i: AddrInfo, j: AddrInfo) {
    Save(i) == Save(j) && i.nRefCount == j.nRefCount && i.inTried == j.inTried
  }

  /** Every entry sits at the position its place in the listing says, with its
      old references. */
  ghost predicate Renumbered(s: State, all: seq<int>, t: State) {
    && t.h == s.h && t.nNew == s.nNew && t.nTried == s.nTried
    && (forall id :: id in t.mapInfo <==> 0 <= id < |all|)
    && (forall j | 0 <= j < |all| :: all[j] in s.mapInfo && SameEntry(s.mapInfo[all[j]], t.mapInfo[j]))
    && (forall k :: k in t.vvNew <==> k in s.vvNew)
    && (forall k | k in s.vvNew :: 0 <= t.vvNew[k] < |all| && all[t.vvNew[k]] == s.vvNew[k])
  }

  lemma AllPlaced(s: State, all: seq<int>, t: State)
    requires Core(s) && Placed(s, all, t, NEW_BUCKET_COUNT, 0) && t.nNew == s.nNew && t.nTried == s.nTried
    ensures Renumbered(s, all, t)
  {
    hide Core, SeenRefs, Refs;
    forall k | k in s.vvNew ensures Before(k, NEW_BUCKET_COUNT, 0) {
      InNewGrid(s, k);
    }
    forall j | 0 <= j < |all| ensures SameEntry(s.mapInfo[all[j]], t.mapInfo[j]) {
      AllSeen(s, all[j]);
      RefCountIs(s, all[j]);
    }
  }

  lemma AllSeen(s: State, id: int)
    requires forall k | k in s.vvNew :: Before(k, NEW_BUCKET_COUNT, 0)
    ensures SeenRefs(s.vvNew, id, NEW_BUCKET_COUNT, 0) == Refs(s.vvNew, id)
  {
  }

  lemma RefCountIs(s: State, id: int)
    requires Core(s) && id in s.mapInfo
    ensures |Refs(s.vvNew, id)| == s.mapInfo[id].nRefCount
  {
    hide EntriesOk, AddrOk, CountersOk, TriedTableOk, RandomOk;
  }

  lemma RenumberedIsConsistent(s: State, all: seq<int>, t: State)
    requires Consistent(s) && Core(t) && Renumbered(s, all, t)
    ensures Consistent(t)
  {
    hide Core;
    forall id | id in t.mapInfo && !t.mapInfo[id].inTried ensures t.mapInfo[id].nRefCount != 0 {
      var was := all[id];
      assert was in s.mapInfo && SameEntry(s.mapInfo[was], t.mapInfo[id]);
    }
  }

  lemma RenumberedAddresses(s: State, all: seq<int>, t: State, a: Service)
    requires Core(s) && Core(t) && Renumbered(s, all, t) && forall id | id in s.mapInfo :: id in all
    ensures a in t.mapAddr <==> a in s.mapAddr
    ensures a in s.mapAddr ==> SameEntry(Rec(s.mapInfo, s.mapAddr[a]), Rec(t.mapInfo, t.mapAddr[a]))
  {
    hide Core;
    if a in s.mapAddr {
      CoreAddr(s, a);
      var id := s.mapAddr[a];
      assert id in s.mapInfo;
      var j :| 0 <= j < |all| && all[j] == id;
      CoreEntry(t, j);
    }
    if a in t.mapAddr {
      CoreAddr(t, a);
      var j := t.mapAddr[a];
      assert j in t.mapInfo && SameEntry(s.mapInfo[all[j]], t.mapInfo[j]);
      CoreEntry(s, all[j]);
    }
  }

  lemma RenumberedTried(s: State, all: seq<int>, t: State, k: Slot)
    requires Core(s) && Core(t) && Renumbered(s, all, t) && forall id | id in s.mapInfo :: id in all
    ensures k in t.vvTried <==> k in s.vvTried
    ensures k in s.vvTried ==> AddressAt(t.mapInfo, t.vvTried, k) == AddressAt(s.mapInfo, s.vvTried, k)
  {
    hide Core;
    if k in s.vvTried {
      CoreParts(s, k);
      var id := s.vvTried[k];
      assert id in s.mapInfo;
      var j :| 0 <= j < |all| && all[j] == id;
      assert SameEntry(s.mapInfo[id], t.mapInfo[j]);
      TriedIsHome(t, j);
    }
    if k in t.vvTried {
      CoreParts(t, k);
      var j := t.vvTried[k];
      assert j in t.mapInfo && SameEntry(s.mapInfo[all[j]], t.mapInfo[j]);
      TriedIsHome(s, all[j]);
    }
  }

  lemma TriedIsHome(s: State, id: int)
    requires Core(s) && id in s.mapInfo && s.mapInfo[id].inTried
    ensures TriedSlot(s.h, s.mapInfo[id].service) in s.vvTried
    ensures s.vvTried[TriedSlot(s.h, s.mapInfo[id].service)] == id
  {
    hide EntriesOk, AddrOk, CountersOk, NewTableOk, RandomOk;
  }

  lemma RenumberedIsSame(s: State, all: seq<int>, t: State)
    requires Core(s) && Core(t) && Renumbered(s, all, t) && forall id | id in s.mapInfo :: id in all
    ensures SameUpToIds(s, t)
  {
    hide Core;
    forall a
      ensures a in t.mapAddr <==> a in s.mapAddr
      ensures a in s.mapAddr ==> SameEntry(Rec(s.mapInfo, s.mapAddr[a]), Rec(t.mapInfo, t.mapAddr[a]))
    {
      RenumberedAddresses(s, all, t, a);
    }
    forall k
      ensures k in t.vvTried <==> k in s.vvTried
      ensures k in s.vvTried ==> AddressAt(t.mapInfo, t.vvTried, k) == AddressAt(s.mapInfo, s.vvTried, k)
    {
      RenumberedTried(s, all, t, k);
    }
    forall k | k in s.vvNew ensures AddressAt(t.mapInfo, t.vvNew, k) == AddressAt(s.mapInfo, s.vvNew, k) {
      InNewGrid(s, k);
      var j := t.vvNew[k];
      assert j in t.mapInfo && SameEntry(s.mapInfo[all[j]], t.mapInfo[j]);
    }
  }

  lemma {:induction false} NothingPruned(s: State, order: seq<int>)
    requires Consistent(s)
    ensures Prune(s, order) == s
  {
    hide Core;
    if order != [] {
      NothingPruned(s, order[1..]);
    }
  }

  // ---- Sizes: the loader's limits are never exceeded by a consistent manager ----

  lemma {:induction false} NewFits(s: State, ids: seq<int>, free: set<Slot>)
    requires Consistent(s) && Distinct(ids)
    requires forall p | 0 <= p < |ids| :: ids[p] in s.mapInfo && !s.mapInfo[ids[p]].inTried
    requires forall p, k | 0 <= p < |ids| && k in s.vvNew && s.vvNew[k] == ids[p] :: k in free
    ensures |ids| <= |free|
    decreases |ids|
  {
    hide Core;
    if ids != [] {
      var last := |ids| - 1;
      var id := ids[last];
      RefCountIs(s, id);
      CoreEntry(s, id);
      assert Refs(s.vvNew, id) != {};
      assert (forall x :: x !in Refs(s.vvNew, id)) ==> Refs(s.vvNew, id) == {};
      var k :| k in Refs(s.vvNew, id);
      NewFits(s, ids[..last], free - {k});
    }
  }

  lemma {:induction false} TriedFits(s: State, ids: seq<int>, free: set<Slot>)
    requires Core(s) && Distinct(ids)
    requires forall p | 0 <= p < |ids| :: ids[p] in s.mapInfo && s.mapInfo[ids[p]].inTried
    requires forall p | 0 <= p < |ids| :: TriedHome(s, ids[p]) in free
    ensures |ids| <= |free|
    decreases |ids|
  {
    hide Core;
    if ids != [] {
      var last := |ids| - 1;
      forall p | 0 <= p < last ensures TriedHome(s, ids[p]) != TriedHome(s, ids[last]) {
        TriedApart(s, ids[p], ids[last]);
      }
      TriedFits(s, ids[..last], free - {TriedHome(s, ids[last])});
    }
  }

  /** All slots of a table, row by row. */
  function AllSlots(n: nat): (g: set<Slot>)
    ensures forall k: Slot :: k in g <==> 0 <= k.0 < n && 0 <= k.1 < BUCKET_SIZE
    ensures |g| == n * BUCKET_SIZE
  {
    if n == 0 then {} else AllSlots(n - 1) + RowSlots(n - 1, BUCKET_SIZE)
  }

  function RowSlots(b: int, m: nat): (g: set<Slot>)
    ensures forall k: Slot :: k in g <==> k.0 == b && 0 <= k.1 < m
    ensures |g| == m
  {
    if m == 0 then {} else RowSlots(b, m - 1) + {(b, m - 1)}
  }

  lemma SizesFit(s: State, order: seq<int>)
    requires Consistent(s) && Enumerates(order, s.mapInfo)
    ensures |Listed(s.mapInfo, order, false)| <= NEW_BUCKET_COUNT * BUCKET_SIZE
    ensures |Listed(s.mapInfo, order, true)| <= TRIED_BUCKET_COUNT * BUCKET_SIZE
  {
    hide Core, AllSlots, Listed;
    var a, b := Listed(s.mapInfo, order, false), Listed(s.mapInfo, order, true);
    AllListedFacts(s, order);
    ListedFacts(s.mapInfo, order, false);
    ListedFacts(s.mapInfo, order, true);
    forall k | k in s.vvNew ensures k in AllSlots(NEW_BUCKET_COUNT) {
      InNewGrid(s, k);
    }
    forall p | 0 <= p < |a| ensures a[p] in s.mapInfo && !s.mapInfo[a[p]].inTried {
      assert AllListed(s.mapInfo, order)[p] == a[p];
    }
    forall p | 0 <= p < |b| ensures b[p] in s.mapInfo && s.mapInfo[b[p]].inTried {
      assert AllListed(s.mapInfo, order)[|a| + p] == b[p];
    }
    NewFits(s, a, AllSlots(NEW_BUCKET_COUNT));
    TriedFits(s, b, AllSlots(TRIED_BUCKET_COUNT));
  }

  /** The counters that Serialize asserts on are exactly the list lengths. */
  lemma ListedSizes(s: State, order: seq<int>)
    requires Consistent(s) && Enumerates(order, s.mapInfo)
    ensures |Listed(s.mapInfo, order, false)| == s.nNew && |Listed(s.mapInfo, order, true)| == s.nTried
  {
    hide Core;
    var a, b := Listed(s.mapInfo, order, false), Listed(s.mapInfo, order, true);
    ListedFacts(s.mapInfo, order, false);
    ListedFacts(s.mapInfo, order, true);
    CoreSizes(s);
    forall id ensures id in a <==> id in IdsIn(s.mapInfo, false) {
      if id in s.mapInfo {
        CoreEntry(s, id);
      }
    }
    forall id ensures id in b <==> id in IdsIn(s.mapInfo, true) {
    }
    SeqCard(a, IdsIn(s.mapInfo, false));
    SeqCard(b, IdsIn(s.mapInfo, true));
  }

  lemma CoreSizes(s: State)
    requires Core(s)
    ensures s.nNew == |IdsIn(s.mapInfo, false)| && s.nTried == |IdsIn(s.mapInfo, true)|
  {
    hide EntriesOk, AddrOk, NewTableOk, TriedTableOk, RandomOk;
  }

  lemma {:induction false} SeqCard(ids: seq<int>, c: set<int>)
    requires Distinct(ids) && forall id :: id in ids <==> id in c
    ensures |ids| == |c|
  {
    if ids == [] {
      assert forall id :: id in c ==> id in ids;
      assert c == {};
    } else {
      var last := ids[|ids| - 1];
      var rest := ids[..|ids| - 1];
      assert ids == rest + [last];
      SeqCard(rest, c - {last});
    }
  }

  /** Saving and loading with unchanged bucketing loses nothing: the loaded
      manager is consistent, and both tables hold the same addresses in the same
      slots with the same persistent statistics and reference counts. */
  lemma RoundTrip(s: State, order: seq<int>, asmap: int, order': seq<int>)
    requires Consistent(s) && Enumerates(order, s.mapInfo)
    requires forall id | id in s.mapInfo :: s.h.valid(s.mapInfo[id].service.net)
    ensures var r := Unserialize(s.h, Serialize(s, order, asmap), asmap, order');
      r.Ok? && Consistent(r.state) && SameUpToIds(s, r.state)
  {
    hide Consistent, SameUpToIds, LoadNew, LoadTried, LoadRows, Prune, Checked, Listed, Ranks, Row;
    var t := Restored(s, order, asmap);
    ConsistentPasses(t);
    NothingPruned(t, order');
    SizesFit(s, order);
  }

  lemma SourceReady(s: State, order: seq<int>)
    requires Consistent(s) && Enumerates(order, s.mapInfo)
    requires forall id | id in s.mapInfo :: s.h.valid(s.mapInfo[id].service.net)
    ensures Source(s, AllListed(s.mapInfo, order), |Listed(s.mapInfo, order, false)|)
    ensures RanksOk(AllListed(s.mapInfo, order), |Listed(s.mapInfo, order, false)|, Ranks(s.mapInfo, order))
  {
    hide Core, Listed, Ranks;
    AllListedFacts(s, order);
    RanksFacts(s.mapInfo, order);
    var all := AllListed(s.mapInfo, order);
    forall j | 0 <= j < |all| ensures s.h.valid(s.mapInfo[all[j]].service.net) {
      var id := all[j];
      assert id in s.mapInfo;
    }
  }

  lemma SourceIds(s: State, all: seq<int>, nNew: nat)
    requires Source(s, all, nNew)
    ensures forall j | 0 <= j < |all| :: all[j] in s.mapInfo
  {
    hide Core, Distinct;
  }

  /** The two saved lists are the listing, split at the first tried entry. */
  lemma SavedSplit(m: InfoMap, p: seq<int>, q: seq<int>)
    requires forall j | 0 <= j < |p + q| :: (p + q)[j] in m
    ensures forall j | 0 <= j < |p| :: SaveAll(m, p)[j] == Save(m[(p + q)[j]])
    ensures forall j | 0 <= j < |q| :: SaveAll(m, q)[j] == Save(m[(p + q)[|p| + j]])
  {
    hide Save;
    forall j | 0 <= j < |q|
      ensures SaveAll(m, q)[j] == Save(m[(p + q)[|p| + j]])
    {
      assert (p + q)[|p| + j] == q[j];
    }
  }

  lemma EntriesLoaded(s: State, order: seq<int>, asmap: int) returns (t: State)
    requires Consistent(s) && Enumerates(order, s.mapInfo)
    requires Source(s, AllListed(s.mapInfo, order), |Listed(s.mapInfo, order, false)|)
    ensures var x := Serialize(s, order, asmap);
      t == LoadTried(AfterNew(s.h, x.newEntries), x.triedEntries)
    ensures Core(t) && Reloaded(s, AllListed(s.mapInfo, order), t, |AllListed(s.mapInfo, order)|)
    ensures t.nNew == |Listed(s.mapInfo, order, false)| && t.nTried == |Listed(s.mapInfo, order, true)|
  {
    hide Core, AfterNew, LoadTried, Listed, Ranks, Rows, Reloaded, Source, Save, Consistent;
    var x := Serialize(s, order, asmap);
    var nNew := |Listed(s.mapInfo, order, false)|;
    var all := AllListed(s.mapInfo, order);
    SourceIds(s, all, nNew);
    SavedSplit(s.mapInfo, Listed(s.mapInfo, order, false), Listed(s.mapInfo, order, true));
    LoadNewSpec(s, all, nNew, x.newEntries);
    var t1 := AfterNew(s.h, x.newEntries);
    LoadTriedSpec(s, all, nNew, t1, x.triedEntries);
    t := LoadTried(t1, x.triedEntries);
  }

  lemma Restored(s: State, order: seq<int>, asmap: int) returns (t: State)
    requires Consistent(s) && Enumerates(order, s.mapInfo)
    requires forall id | id in s.mapInfo :: s.h.valid(s.mapInfo[id].service.net)
    ensures var x := Serialize(s, order, asmap);
      t == LoadRows(LoadTried(AfterNew(s.h, x.newEntries), x.triedEntries), x.buckets, true)
    ensures Consistent(t) && SameUpToIds(s, t)
  {
    hide Core, AfterNew, LoadTried, LoadRows, Listed, Ranks, Row;
    hide SameUpToIds, Reloaded, Placed, Renumbered, RanksOk, Save;
    var nNew := |Listed(s.mapInfo, order, false)|;
    var all := AllListed(s.mapInfo, order);
    SourceReady(s, order);
    ListedSizes(s, order);
    var t2 := EntriesLoaded(s, order, asmap);
    StartPlacing(s, all, nNew, t2);
    var x := Serialize(s, order, asmap);
    LoadRowsSpec(s, all, nNew, Ranks(s.mapInfo, order), t2, x.buckets);
    t := LoadRows(t2, x.buckets, true);
    AllPlaced(s, all, t);
    RenumberedIsConsistent(s, all, t);
    RenumberedIsSame(s, all, t);
  }
}
