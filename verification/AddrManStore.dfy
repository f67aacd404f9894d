/** `Serialize` and `Unserialize` as the source runs them: loops over the maps and
    the two tables in place. */
module AddrManStore {
  import opened AddrManTypes
  import opened AddrManPrimitives
  import opened AddrManOps
  import opened AddrManRuns
  import opened AddrManCheck
  import opened AddrManImpl
  import opened AddrManSerialize
  import opened AddrManLoaded

  // ---- Serialize ----

  lemma ListedStep(m: InfoMap, order: seq<int>, p: nat, tried: bool)
    requires p < |order|
    ensures Listed(m, order[..p + 1], tried) == Listed(m, order[..p], tried)
      + if (if tried then Rec(m, order[p]).inTried else Rec(m, order[p]).nRefCount != 0) then [order[p]] else []
    ensures Ranks(m, order[..p + 1]) == Ranks(m, order[..p])[order[p] := |Listed(m, order[..p], false)|]
  {
    assert order[..p + 1][..p] == order[..p];
  }

  lemma {:induction false} ListedGrows(m: InfoMap, order: seq<int>, p: nat, tried: bool)
    requires p <= |order|
    ensures |Listed(m, order[..p], tried)| <= |Listed(m, order, tried)|
    decreases |order| - p
  {
    if p == |order| {
      assert order[..p] == order;
    } else {
      ListedStep(m, order, p, tried);
      ListedGrows(m, order, p + 1, tried);
    }
  }

  lemma SaveSnoc(m: InfoMap, ids: seq<int>, id: int)
    ensures SaveAll(m, ids + [id]) == SaveAll(m, ids) + [Save(Rec(m, id))]
  {
  }

  /** One of the two entry loops; `nMax` is the counter the source asserts. */
  method WriteEntries(m: InfoMap, order: seq<int>, tried: bool, nMax: int)
    returns (entries: seq<SavedInfo>, mapUnkIds: map<int, int>)
    requires (forall p | 0 <= p < |order| :: order[p] in m) && |Listed(m, order, tried)| == nMax
    ensures entries == SaveAll(m, Listed(m, order, tried))
    ensures !tried ==> mapUnkIds == Ranks(m, order)
  {
    hide Listed, Ranks, Save;
    entries, mapUnkIds := [], map[];
    var nIds, p := 0, 0;
    NothingListed(m, order, tried);
    while p < |order|
      invariant 0 <= p <= |order| && nIds == |entries|
      invariant entries == SaveAll(m, Listed(m, order[..p], tried))
      invariant !tried ==> mapUnkIds == Ranks(m, order[..p])
    {
      ListedStep(m, order, p, tried);
      ListedGrows(m, order, p + 1, tried);
      var info := m[order[p]];
      mapUnkIds := mapUnkIds[order[p] := nIds];
      if if tried then info.inTried else info.nRefCount != 0 {
        assert nIds != nMax;
        SaveSnoc(m, Listed(m, order[..p], tried), order[p]);
        entries := entries + [Save(info)];
        nIds := nIds + 1;
      }
      p := p + 1;
    }
    assert order[..p] == order;
  }

  lemma NothingListed(m: InfoMap, order: seq<int>, tried: bool)
    ensures Listed(m, order[..0], tried) == [] && Ranks(m, order[..0]) == map[]
  {
  }

  /** The indexes of one new bucket. */
  method WriteBucket(vvNew: array2<int>, ranks: map<int, int>, b: int) returns (row: seq<int>)
    requires vvNew.Length0 == NEW_BUCKET_COUNT && vvNew.Length1 == BUCKET_SIZE && 0 <= b < NEW_BUCKET_COUNT
    ensures row == Row(TableOf(vvNew), ranks, b, 0)
  {
    hide TableOf, Row, Occupant;
    ghost var t := TableOf(vvNew);
    row := [];
    var i := 0;
    while i < BUCKET_SIZE
      invariant 0 <= i <= BUCKET_SIZE && row + Row(t, ranks, b, i) == Row(t, ranks, b, 0)
    {
      TableAt(vvNew, b, i);
      RowStep(t, ranks, b, i);
      if vvNew[b, i] != -1 {
        row := row + [RankOf(ranks, vvNew[b, i])];
      }
      i := i + 1;
    }
    RowEnd(t, ranks, b);
  }

  lemma RowStep(t: Table, r: map<int, int>, b: int, i: int)
    requires i < BUCKET_SIZE
    ensures Row(t, r, b, i) == (if (b, i) in t then [RankOf(r, t[(b, i)])] else []) + Row(t, r, b, i + 1)
  {
  }

  lemma RowEnd(t: Table, r: map<int, int>, b: int)
    ensures Row(t, r, b, BUCKET_SIZE) == []
  {
  }

  /** Serialize */
  method Store(m: AddrMan, order: seq<int>, asmap: int) returns (x: Saved)
    requires m.Shaped() && Consistent(m.View()) && Enumerates(order, m.mapInfo)
    ensures x == Serialize(m.View(), order, asmap)
  {
    hide Consistent, Enumerates, Listed, Ranks, TableOf, Row, SaveAll;
    ghost var s := m.View();
    ListedSizes(s, order);
    OrderKnown(order, m.mapInfo);
    var newEntries, mapUnkIds := WriteEntries(m.mapInfo, order, false, m.nNew);
    var triedEntries, _ := WriteEntries(m.mapInfo, order, true, m.nTried);
    var rows := WriteBuckets(m.vvNew, mapUnkIds);
    x := Saved(newEntries, triedEntries, rows, asmap);
  }

  lemma OrderKnown(order: seq<int>, m: InfoMap)
    requires Enumerates(order, m)
    ensures forall p | 0 <= p < |order| :: order[p] in m
  {
  }

  method WriteBuckets(vvNew: array2<int>, ranks: map<int, int>) returns (rows: seq<seq<int>>)
    requires vvNew.Length0 == NEW_BUCKET_COUNT && vvNew.Length1 == BUCKET_SIZE
    ensures rows == Rows(TableOf(vvNew), ranks, NEW_BUCKET_COUNT)
  {
    hide TableOf, Row;
    ghost var t := TableOf(vvNew);
    rows := [];
    var b := 0;
    while b < NEW_BUCKET_COUNT
      invariant 0 <= b <= NEW_BUCKET_COUNT && |rows| == b && forall j | 0 <= j < b :: rows[j] == Row(t, ranks, j, 0)
    {
      var row := WriteBucket(vvNew, ranks, b);
      rows := rows + [row];
      b := b + 1;
    }
  }

  // ---- Unserialize ----

  method LoadNewEntries(m: AddrMan, xs: seq<SavedInfo>)
    modifies m`mapInfo, m`mapAddr, m`vRandom, m`counts
    ensures m.View() == LoadNew(old(m.View()), xs)
  {
    hide TableOf, LoadNew, Bump;
    ghost var s := m.View();
    var n := 0;
    NoneLoaded(s, xs);
    while n < |xs|
      invariant 0 <= n <= |xs| && m.View() == LoadNew(s, xs[..n])
    {
      NewLoadStep(s, xs, n);
      var x := xs[n];
      m.mapInfo := m.mapInfo[n := Restore(x, |m.vRandom|, false)];
      m.mapAddr := m.mapAddr[x.service := n];
      m.vRandom := m.vRandom + [n];
      m.counts := Bump(m.counts, x.service.net.network, 1, 0);
      n := n + 1;
    }
    assert xs[..n] == xs;
  }

  lemma NoneLoaded(s: State, xs: seq<SavedInfo>)
    ensures LoadNew(s, xs[..0]) == s && LoadTried(s, xs[..0]) == s
  {
  }

  lemma NewLoadStep(s: State, xs: seq<SavedInfo>, n: nat)
    requires n < |xs|
    ensures LoadNew(s, xs[..n + 1]) == LoadEntry(LoadNew(s, xs[..n]), xs[n], n, false)
    ensures LoadTried(s, xs[..n + 1]) == LoadTriedEntry(LoadTried(s, xs[..n]), xs[n])
  {
    assert xs[..n + 1][..n] == xs[..n];
  }

  /** One saved tried entry: lost when its address is invalid or its slot taken. */
  method LoadTriedOne(m: AddrMan, x: SavedInfo) returns (kept: bool)
    requires m.Shaped() && m.nIdCount >= 0
    modifies m`mapInfo, m`mapAddr, m`vRandom, m`counts, m`nIdCount, m`nTried, m.vvTried
    ensures m.View() == LoadTriedEntry(old(m.View()), x)
    ensures m.nIdCount >= 0 && m.nTried == old(m.nTried) + if kept then 1 else 0
  {
    hide TableOf, Bump, Position, Occupant;
    var b := m.h.tried(x.service) % TRIED_BUCKET_COUNT;
    var i := Position(m.h, false, b, x.service);
    TableAt(m.vvTried, b, i);
    kept := m.h.valid(x.service.net) && m.vvTried[b, i] == -1;
    if kept {
      m.mapInfo := m.mapInfo[m.nIdCount := Restore(x, |m.vRandom|, true)];
      m.vRandom := m.vRandom + [m.nIdCount];
      m.mapAddr := m.mapAddr[x.service := m.nIdCount];
      SetSlot(m.vvTried, b, i, m.nIdCount);
      m.nIdCount := m.nIdCount + 1;
      m.counts := Bump(m.counts, x.service.net.network, 0, 1);
      m.nTried := m.nTried + 1;
    }
  }

  method LoadTriedEntries(m: AddrMan, xs: seq<SavedInfo>) returns (nLost: nat)
    requires m.Shaped() && m.nIdCount >= 0
    modifies m`mapInfo, m`mapAddr, m`vRandom, m`counts, m`nIdCount, m`nTried, m.vvTried
    ensures m.View() == LoadTried(old(m.View()), xs)
    ensures nLost == |xs| - (m.nTried - old(m.nTried))
  {
    hide TableOf, LoadTried, LoadTriedEntry;
    ghost var s := m.View();
    nLost := 0;
    var n := 0;
    NoneLoaded(s, xs);
    while n < |xs|
      invariant 0 <= n <= |xs| && m.View() == LoadTried(s, xs[..n]) && m.nIdCount >= 0
      invariant nLost == n - (m.nTried - s.nTried)
    {
      NewLoadStep(s, xs, n);
      var kept := LoadTriedOne(m, xs[n]);
      nLost := nLost + if kept then 0 else 1;
      n := n + 1;
    }
    assert xs[..n] == xs;
  }

  /** One bucket entry. */
  method LoadOne(m: AddrMan, b: int, j: int, restore: bool)
    requires m.Shaped() && 0 <= b && (restore ==> b < NEW_BUCKET_COUNT)
    requires forall id | 0 <= id < m.nNew :: id in m.mapInfo
    modifies m`mapInfo, m.vvNew
    ensures m.View() == LoadSlot(old(m.View()), b, j, restore)
    ensures forall id | 0 <= id < m.nNew :: id in m.mapInfo
  {
    hide TableOf, Position, Occupant, NewBucket;
    if !(0 <= j < m.nNew) {
      return;
    }
    var info := m.mapInfo[j];
    if !m.h.valid(info.service.net) || info.nRefCount >= NEW_BUCKETS_PER_ADDRESS {
      return;
    }
    var pos := Position(m.h, true, b, info.service);
    if restore {
      TableAt(m.vvNew, b, pos);
    }
    if restore && m.vvNew[b, pos] == -1 {
      SetSlot(m.vvNew, b, pos, j);
      m.mapInfo := m.mapInfo[j := info.(nRefCount := info.nRefCount + 1)];
    } else {
      var bucket := NewBucket(m.h, info.service, info.source);
      pos := Position(m.h, true, bucket, info.service);
      TableAt(m.vvNew, bucket, pos);
      if m.vvNew[bucket, pos] == -1 {
        SetSlot(m.vvNew, bucket, pos, j);
        m.mapInfo := m.mapInfo[j := info.(nRefCount := info.nRefCount + 1)];
      }
    }
  }

  method LoadBucket(m: AddrMan, b: int, row: seq<int>, restore: bool)
    requires m.Shaped() && 0 <= b && (restore ==> b < NEW_BUCKET_COUNT)
    requires forall id | 0 <= id < m.nNew :: id in m.mapInfo
    modifies m`mapInfo, m.vvNew
    ensures m.View() == LoadRow(old(m.View()), b, row, restore)
    ensures forall id | 0 <= id < m.nNew :: id in m.mapInfo
  {
    hide TableOf, LoadSlot;
    ghost var s := m.View();
    var n := 0;
    while n < |row|
      invariant 0 <= n <= |row| && LoadRow(m.View(), b, row[n..], restore) == LoadRow(s, b, row, restore)
      invariant forall id | 0 <= id < m.nNew :: id in m.mapInfo
    {
      assert row[n..][0] == row[n] && row[n..][1..] == row[n + 1..];
      LoadOne(m, b, row[n], restore);
      n := n + 1;
    }
  }

  /** All buckets in turn. */
  method LoadBuckets(m: AddrMan, rows: seq<seq<int>>, restore: bool)
    requires m.Shaped() && (restore ==> |rows| <= NEW_BUCKET_COUNT)
    requires forall id | 0 <= id < m.nNew :: id in m.mapInfo
    modifies m`mapInfo, m.vvNew
    ensures m.View() == LoadRows(old(m.View()), rows, restore)
  {
    hide TableOf, LoadRows, LoadRow;
    ghost var s := m.View();
    var b := 0;
    NoRows(s, rows, restore);
    while b < |rows|
      invariant 0 <= b <= |rows| && m.View() == LoadRows(s, rows[..b], restore)
      invariant forall id | 0 <= id < m.nNew :: id in m.mapInfo
    {
      RowsStep(s, rows, b, restore);
      LoadBucket(m, b, rows[b], restore);
      b := b + 1;
    }
    assert rows[..b] == rows;
  }

  lemma NoRows(s: State, rows: seq<seq<int>>, restore: bool)
    ensures LoadRows(s, rows[..0], restore) == s
  {
  }

  lemma RowsStep(s: State, rows: seq<seq<int>>, b: nat, restore: bool)
    requires b < |rows|
    ensures LoadRows(s, rows[..b + 1], restore) == LoadRow(LoadRows(s, rows[..b], restore), b, rows[b], restore)
  {
    hide LoadRow;
    assert rows[..b + 1][..b] == rows[..b];
  }

  /** The pruning loop. */
  method PruneOrphans(m: AddrMan, order: seq<int>)
    requires Sound(m.View())
    modifies m`vRandom, m`mapInfo, m`mapAddr, m`nNew, m`counts
    ensures m.View() == Prune(old(m.View()), order)
  {
    hide TableOf, RandomOk, Indexed, Delete;
    ghost var s := m.View();
    var n := 0;
    while n < |order|
      invariant 0 <= n <= |order| && Prune(m.View(), order[n..]) == Prune(s, order)
      invariant Sound(m.View())
    {
      assert order[n..][0] == order[n] && order[n..][1..] == order[n + 1..];
      var id := order[n];
      if id in m.mapInfo && !m.mapInfo[id].inTried && m.mapInfo[id].nRefCount == 0 {
        DeleteIsSound(m.View(), id);
        m.Delete(id);
      }
      n := n + 1;
    }
  }

  /** Everything up to the pruning. */
  method Rebuild(m: AddrMan, x: Saved, asmap: int)
    requires m.Shaped() && m.View() == Empty(m.h)
    modifies m, m.vvNew, m.vvTried
    ensures m.View() == Rebuilt(m.h, x, asmap)
  {
    hide TableOf, LoadNew, LoadTried, LoadRows, Sound;
    NewIsSound(m.h, x.newEntries);
    LoadNewEntries(m, x.newEntries);
    m.nIdCount, m.nNew := |x.newEntries|, |x.newEntries|;
    TriedIsSound(m.View(), x.triedEntries);
    var nLost := LoadTriedEntries(m, x.triedEntries);
    var restore := |x.buckets| == NEW_BUCKET_COUNT && x.asmap == asmap;
    LoadBuckets(m, x.buckets, restore);
  }

  /** Unserialize into an empty manager; not `ok` is the thrown failure. */
  method Load(m: AddrMan, x: Saved, asmap: int, order: seq<int>) returns (ok: bool)
    requires m.Shaped() && m.View() == Empty(m.h)
    modifies m, m.vvNew, m.vvTried
    ensures Unserialize(m.h, x, asmap, order) == if ok then Ok(m.View()) else Corrupt
    ensures ok ==> Inv(m.View())
  {
    LoadedIsConsistent(m.h, x, asmap, order);
    hide TableOf, Rebuilt, Prune, Checked, Sound, Inv;
    if |x.newEntries| > NEW_BUCKET_COUNT * BUCKET_SIZE || |x.triedEntries| > TRIED_BUCKET_COUNT * BUCKET_SIZE {
      return false;
    }
    RebuiltIsSound(m.h, x, asmap);
    Rebuild(m, x, asmap);
    PruneOrphans(m, order);
    TablesInGrid(m);
    var code := CheckAddrman(m.View(), false);
    ok := code == 0;
  }

  lemma TablesInGrid(m: AddrMan)
    requires m.Shaped()
    ensures InGrid(m.View().vvTried, TRIED_BUCKET_COUNT) && InGrid(m.View().vvNew, NEW_BUCKET_COUNT)
  {
  }

  /** Saving a consistent manager and loading it again under the same bucketing. */
  method SaveAndLoad(m: AddrMan, order: seq<int>, asmap: int, order': seq<int>) returns (r: AddrMan, ok: bool)
    requires m.Shaped() && Consistent(m.View()) && Enumerates(order, m.mapInfo)
    requires forall id | id in m.mapInfo :: m.h.valid(m.mapInfo[id].service.net)
    ensures ok && Consistent(r.View()) && SameUpToIds(m.View(), r.View())
  {
    hide Consistent, Enumerates, SameUpToIds, TableOf, Serialize, Unserialize;
    var x := Store(m, order, asmap);
    r := new AddrMan(m.h);
    RoundTrip(m.View(), order, asmap, order');
    ghost var s := m.View();
    ok := Load(r, x, asmap, order');
    assert m.View() == s;
  }
}
