/** Whatever a saved form holds, the manager rebuilt from it is sound enough for
    pruning, and one that then passes the check is consistent. */
module AddrManLoaded {
  import opened AddrManTypes
  import opened AddrManPrimitives
  import opened AddrManOps
  import opened AddrManCheck
  import opened AddrManSerialize

  /** What CheckAddrman would not notice is in order, and the new table lies
      within its buckets. */
  ghost predicate Indexed(s: State) {
    && BlindSpotsClear(s) && InGrid(s.vvNew, NEW_BUCKET_COUNT) && s.collisions == {}
  }

  ghost predicate Sound(s: State) {
    RandomOk(s.mapInfo, s.vRandom) && Indexed(s)
  }

  /** The new entries are all there. */
  ghost predicate HoldsNew(s: State) {
    forall id | 0 <= id < s.nNew :: id in s.mapInfo
  }

  // ---- Entries ----

  lemma EntryIndexed(s: State, x: SavedInfo, tried: bool)
    requires Indexed(s)
    ensures Indexed(LoadEntry(s, x, s.nIdCount, tried).(nIdCount := s.nIdCount + 1))
  {
    var t := LoadEntry(s, x, s.nIdCount, tried);
    NetworksAdded(s.mapInfo, s.nIdCount, t.mapInfo[s.nIdCount]);
    hide Networks;
  }

  lemma NetworksAdded(m: InfoMap, id: int, i: AddrInfo)
    ensures Networks(m[id := i]) <= Networks(m) + {i.service.net.network}
  {
  }

  lemma EntryIsSound(s: State, x: SavedInfo, tried: bool)
    requires Sound(s)
    ensures Sound(LoadEntry(s, x, s.nIdCount, tried).(nIdCount := s.nIdCount + 1))
    ensures s.nIdCount !in s.mapInfo
  {
    EntryIndexed(s, x, tried);
    assert s.nIdCount !in s.mapInfo;
    hide RandomOk, Indexed;
    RandomAdded(s.mapInfo, s.vRandom, s.nIdCount, Restore(x, |s.vRandom|, tried));
  }

  lemma EmptyIsSound(h: Hashing)
    ensures Sound(AfterNew(h, []))
  {
    assert Networks(map[]) == {};
  }

  lemma {:induction false} NewIsSound(h: Hashing, xs: seq<SavedInfo>)
    ensures var s := AfterNew(h, xs);
      Sound(s) && HoldsNew(s) && |s.vRandom| == |xs| && forall id | id in s.mapInfo :: 0 <= id < |xs|
  {
    hide RandomOk, Indexed;
    if xs == [] {
      EmptyIsSound(h);
    } else {
      var n := |xs| - 1;
      NewIsSound(h, xs[..n]);
      var s := AfterNew(h, xs[..n]);
      EntryIsSound(s, xs[n], false);
      var t := LoadEntry(s, xs[n], n, false).(nIdCount := n + 1);
      assert AfterNew(h, xs) == t.(nNew := n + 1);
      CountersDoNotMatter(t, n + 1, t.nTried);
    }
  }

  /** The two totals and the tried table play no part in it. */
  lemma CountersDoNotMatter(s: State, nNew: int, nTried: int)
    requires Sound(s)
    ensures Sound(s.(nNew := nNew, nTried := nTried))
  {
    hide RandomOk;
  }

  lemma TriedEntryIsSound(s: State, x: SavedInfo)
    requires Sound(s)
    ensures var t := LoadTriedEntry(s, x);
      Sound(t) && t.nNew == s.nNew && (HoldsNew(s) ==> HoldsNew(t))
  {
    EntryIsSound(s, x, true);
    hide RandomOk;
  }

  lemma {:induction false} TriedIsSound(s: State, xs: seq<SavedInfo>)
    requires Sound(s)
    ensures var t := LoadTried(s, xs);
      Sound(t) && t.nNew == s.nNew && (HoldsNew(s) ==> HoldsNew(t))
  {
    hide Sound, HoldsNew, LoadTriedEntry;
    if xs != [] {
      var n := |xs| - 1;
      TriedIsSound(s, xs[..n]);
      TriedEntryIsSound(LoadTried(s, xs[..n]), xs[n]);
    }
  }

  // ---- References ----

  lemma RefIsSound(s: State, k: Slot, id: int)
    requires Sound(s) && id in s.mapInfo && 0 <= k.0 < NEW_BUCKET_COUNT && 0 <= k.1 < BUCKET_SIZE
    ensures Sound(AddRef(s, k, id)) && (HoldsNew(s) ==> HoldsNew(AddRef(s, k, id)))
  {
    hide RandomOk, BlindSpotsClear, InGrid;
    var i := s.mapInfo[id].(nRefCount := s.mapInfo[id].nRefCount + 1);
    PlaceKept(s.mapInfo, s.vRandom, id, i);
    SpotsKept(s, id, i, s.vvNew[k := id]);
    GridKept(s.vvNew, k, id);
  }

  lemma SpotsKept(s: State, id: int, i: AddrInfo, t: Table)
    requires BlindSpotsClear(s) && id in s.mapInfo && i.service == s.mapInfo[id].service
    ensures BlindSpotsClear(SetInfo(s, id, i).(vvNew := t))
  {
    SameNetworks(s.mapInfo, s.mapInfo[id := i]);
    hide Networks;
  }

  lemma GridKept(t: Table, k: Slot, id: int)
    requires InGrid(t, NEW_BUCKET_COUNT) && 0 <= k.0 < NEW_BUCKET_COUNT && 0 <= k.1 < BUCKET_SIZE
    ensures InGrid(t[k := id], NEW_BUCKET_COUNT)
  {
  }

  lemma PlaceKept(m: InfoMap, r: seq<int>, id: int, i: AddrInfo)
    requires RandomOk(m, r) && id in m && i.randomPos == m[id].randomPos
    ensures RandomOk(m[id := i], r)
  {
  }

  lemma SameNetworks(m: InfoMap, n: InfoMap)
    requires forall id | id in n :: id in m && n[id].service == m[id].service
    ensures Networks(n) <= Networks(m)
  {
  }

  lemma SlotIsSound(s: State, b: int, j: int, restore: bool)
    requires Sound(s) && HoldsNew(s) && (restore ==> 0 <= b < NEW_BUCKET_COUNT)
    ensures var t := LoadSlot(s, b, j, restore);
      Sound(t) && t.nNew == s.nNew && HoldsNew(t)
  {
    if 0 <= j < s.nNew {
      var i := Rec(s.mapInfo, j);
      var k, k' := (b, Position(s.h, true, b, i.service)), NewSlot(s.h, i.service, i.source);
      assert j in s.mapInfo;
      hide Sound, HoldsNew;
      if restore {
        RefIsSound(s, k, j);
      }
      RefIsSound(s, k', j);
    }
  }

  lemma {:induction false} RowIsSound(s: State, b: int, row: seq<int>, restore: bool)
    requires Sound(s) && HoldsNew(s) && (restore ==> 0 <= b < NEW_BUCKET_COUNT)
    ensures var t := LoadRow(s, b, row, restore);
      Sound(t) && t.nNew == s.nNew && HoldsNew(t)
    decreases |row|
  {
    hide Sound, HoldsNew, LoadSlot;
    if row != [] {
      SlotIsSound(s, b, row[0], restore);
      RowIsSound(LoadSlot(s, b, row[0], restore), b, row[1..], restore);
    }
  }

  lemma {:induction false} RowsAreSound(s: State, rows: seq<seq<int>>, restore: bool)
    requires Sound(s) && HoldsNew(s) && (restore ==> |rows| <= NEW_BUCKET_COUNT)
    ensures var t := LoadRows(s, rows, restore);
      Sound(t) && t.nNew == s.nNew && HoldsNew(t)
  {
    hide Sound, HoldsNew, LoadRow;
    if rows != [] {
      RowsAreSound(s, rows[..|rows| - 1], restore);
      RowIsSound(LoadRows(s, rows[..|rows| - 1], restore), |rows| - 1, rows[|rows| - 1], restore);
    }
  }

  lemma RebuiltIsSound(h: Hashing, x: Saved, asmap: int)
    ensures Sound(Rebuilt(h, x, asmap))
  {
    hide Sound, HoldsNew, LoadNew, LoadTried, LoadRows;
    NewIsSound(h, x.newEntries);
    var s := AfterNew(h, x.newEntries);
    TriedIsSound(s, x.triedEntries);
    RowsAreSound(LoadTried(s, x.triedEntries), x.buckets, |x.buckets| == NEW_BUCKET_COUNT && x.asmap == asmap);
  }

  // ---- Pruning ----

  lemma DeleteKeepsRandom(s: State, id: int)
    requires RandomOk(s.mapInfo, s.vRandom) && id in s.mapInfo
    ensures RandomOk(Delete(s, id).mapInfo, Delete(s, id).vRandom)
    ensures forall x | x in Delete(s, id).mapInfo ::
      x in s.mapInfo && x != id && Delete(s, id).mapInfo[x].service == s.mapInfo[x].service
    ensures forall x | x in s.mapInfo && x != id :: x in Delete(s, id).mapInfo
  {
    hide RandomOk, Swappable, SwapRandom, Delete;
    var p, last := DeletePlaces(s, id);
    SwapPlaces(s, p, last);
    var t := SwapRandom(s, p, last);
    SwapKeepsIds(s, p, last, id);
    RemoveKeepsRandom(t.mapInfo, t.vRandom, id);
    DeleteRemoves(s, id);
  }

  lemma SwapKeepsIds(s: State, p: int, last: int, id: int)
    requires id in s.mapInfo && SameButPlaces(s.mapInfo, SwapRandom(s, p, last).mapInfo)
    ensures id in SwapRandom(s, p, last).mapInfo
  {
    hide SwapRandom;
  }

  lemma DeleteRemoves(s: State, id: int)
    requires id in s.mapInfo
    ensures var t := SwapRandom(s, s.mapInfo[id].randomPos, |s.vRandom| - 1);
      && Delete(s, id).mapInfo == t.mapInfo - {id}
      && (|t.vRandom| > 0 ==> Delete(s, id).vRandom == t.vRandom[..|t.vRandom| - 1])
  {
    hide SwapRandom, Bump;
  }

  /** The fields Delete does not need vRandom for. */
  lemma DeleteFields(s: State, id: int)
    requires id in s.mapInfo
    ensures var t := Delete(s, id);
      && t.mapAddr == s.mapAddr - {s.mapInfo[id].service} && s.counts.Keys <= t.counts.Keys
      && t.nIdCount == s.nIdCount && t.vvNew == s.vvNew && t.collisions == s.collisions && t.h == s.h
  {
    SwapFields(s, s.mapInfo[id].randomPos, |s.vRandom| - 1);
    hide SwapRandom;
  }

  lemma SwapFields(s: State, p: int, q: int)
    ensures var t := SwapRandom(s, p, q);
      && t.mapAddr == s.mapAddr && t.counts == s.counts
      && t.nIdCount == s.nIdCount && t.vvNew == s.vvNew && t.collisions == s.collisions && t.h == s.h
  {
  }

  /** Deleting an orphan leaves the rest sound, even if its address is also that
      of another entry. */
  lemma DeleteIsSound(s: State, id: int)
    requires Sound(s) && id in s.mapInfo
    ensures Sound(Delete(s, id))
  {
    hide RandomOk, Delete;
    DeleteKeepsRandom(s, id);
    DeleteFields(s, id);
    var t := Delete(s, id);
    SameNetworks(s.mapInfo, t.mapInfo);
    hide Networks;
    forall a | a in t.mapAddr ensures t.mapAddr[a] in t.mapInfo && t.mapInfo[t.mapAddr[a]].service == a {
      assert s.mapAddr[a] in s.mapInfo && s.mapInfo[s.mapAddr[a]].service == a;
      assert s.mapAddr[a] != id;
    }
  }

  lemma {:induction false} PruneIsSound(s: State, order: seq<int>)
    requires Sound(s)
    ensures Sound(Prune(s, order)) && Prune(s, order).h == s.h
    decreases |order|
  {
    hide Sound, Delete;
    if order != [] {
      if Deletable(s, order[0]) {
        DeleteIsSound(s, order[0]);
        DeleteFields(s, order[0]);
        PruneIsSound(Delete(s, order[0]), order[1..]);
      } else {
        PruneIsSound(s, order[1..]);
      }
    }
  }

  /** Every file that loads, whatever it holds, gives a consistent manager. */
  lemma LoadedIsConsistent(h: Hashing, x: Saved, asmap: int, order: seq<int>)
    ensures var r := Unserialize(h, x, asmap, order);
      r.Ok? ==> Inv(r.state)
  {
    var r := Unserialize(h, x, asmap, order);
    RebuiltIsSound(h, x, asmap);
    PruneIsSound(Rebuilt(h, x, asmap), order);
    if r.Ok? {
      hide Rebuilt, Prune, RandomOk, Consistent;
      PassingMeansConsistent(r.state);
    }
  }
}
