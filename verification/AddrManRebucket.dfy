/** Loading saved data when the bucketing has changed: which entries survive, and
    where each of them goes. */
module AddrManRebucket {
  import opened AddrManTypes
  import opened AddrManPrimitives
  import opened AddrManOps
  import opened AddrManCheck
  import opened AddrManSerialize

  // ---- Pruning ----

  /** Pruning removes exactly the new entries without a slot. */
  lemma {:induction false} PruneRemovesOrphans(s: State, order: seq<int>)
    requires Core(s) && forall id | Deletable(s, id) :: id in order
    ensures var t := Prune(s, order);
      && Consistent(t) && t.h == s.h && t.vvNew == s.vvNew && t.vvTried == s.vvTried && t.collisions == s.collisions
      && (forall id :: id in t.mapInfo <==> id in s.mapInfo && !Deletable(s, id))
      && (forall id | id in t.mapInfo :: SameRecord(s.mapInfo[id], t.mapInfo[id]))
    decreases |order|
  {
    hide Core, Delete;
    if order == [] {
      assert forall id | id in s.mapInfo :: !Deletable(s, id);
    } else if Deletable(s, order[0]) {
      var t := Delete(s, order[0]);
      DeleteKeepsCore(s, order[0]);
      DeleteFrame(s, order[0]);
      forall id ensures Deletable(t, id) <==> Deletable(s, id) && id != order[0] {
      }
      forall id | Deletable(t, id) ensures id in order[1..] {
        assert id in order;
      }
      PruneRemovesOrphans(t, order[1..]);
    } else {
      forall id | Deletable(s, id) ensures id in order[1..] {
        assert id in order;
      }
      PruneRemovesOrphans(s, order[1..]);
    }
  }

  // ---- One reference ----

  /** Where the reference to entry `j` read from bucket `b` goes: nowhere if the
      entry is unknown, invalid or in eight slots already; back to its own slot of
      that bucket if the bucketing has not changed and the slot is free; otherwise
      to the slot of its primary source if that one is free. */
  lemma ReferenceGoes(s: State, b: int, j: int, restore: bool)
    requires forall id | 0 <= id < s.nNew :: id in s.mapInfo
    ensures var t := LoadSlot(s, b, j, restore);
      && t == s.(vvNew := t.vvNew, mapInfo := t.mapInfo)
      && (t == s || (
            && 0 <= j < s.nNew
            && t.mapInfo == s.mapInfo[j := s.mapInfo[j].(nRefCount := s.mapInfo[j].nRefCount + 1)]))
      && (forall k :: k in t.vvNew && k !in s.vvNew <==>
           && k !in s.vvNew && 0 <= j < s.nNew && s.h.valid(s.mapInfo[j].service.net) && s.mapInfo[j].nRefCount < 8
           && var own := (b, Position(s.h, true, b, s.mapInfo[j].service));
              if restore && own !in s.vvNew then k == own
              else k == NewSlot(s.h, s.mapInfo[j].service, s.mapInfo[j].source))
      && (forall k | k in t.vvNew :: t.vvNew[k] == if k in s.vvNew then s.vvNew[k] else j)
      && (forall k | k in s.vvNew :: k in t.vvNew)
  {
    hide Position, NewSlot;
  }

  // ---- References without their old buckets ----

  /** The indexes of all buckets, in the order in which they are read. */
  function Flat(rows: seq<seq<int>>): seq<int> {
    if rows == [] then [] else Flat(rows[..|rows| - 1]) + rows[|rows| - 1]
  }

  /** The saved entry `j` is valid, and its source selects slot `k`. */
  predicate Claims(h: Hashing, xs: seq<SavedInfo>, j: int, k: Slot) {
    0 <= j < |xs| && h.valid(xs[j].service.net) && NewSlot(h, xs[j].service, xs[j].source) == k
  }

  /** The first of the indexes that claims slot `k`; -1 if none does. */
  function Winner(h: Hashing, xs: seq<SavedInfo>, refs: seq<int>, k: Slot): (w: int)
    ensures -1 <= w < |xs|
  {
    if refs == [] then -1 else
      var w := Winner(h, xs, refs[..|refs| - 1], k);
      if w != -1 then w else if Claims(h, xs, refs[|refs| - 1], k) then refs[|refs| - 1] else -1
  }

  lemma {:induction false} WinnerIsFirst(h: Hashing, xs: seq<SavedInfo>, refs: seq<int>, k: Slot)
    ensures var w := Winner(h, xs, refs, k);
      if w == -1 then forall p | 0 <= p < |refs| :: !Claims(h, xs, refs[p], k)
      else
        && Claims(h, xs, w, k)
        && exists p :: 0 <= p < |refs| && refs[p] == w && (forall q | 0 <= q < p :: !Claims(h, xs, refs[q], k))
  {
    hide NewSlot;
    if refs != [] {
      var n := |refs| - 1;
      var rest := refs[..n];
      WinnerIsFirst(h, xs, rest, k);
      var w := Winner(h, xs, rest, k);
      if w != -1 {
        var p :| 0 <= p < |rest| && rest[p] == w && forall q | 0 <= q < p :: !Claims(h, xs, rest[q], k);
        assert refs[p] == w && forall q | 0 <= q < p :: refs[q] == rest[q];
      } else {
        assert forall q | 0 <= q < n :: refs[q] == rest[q];
      }
    }
  }

  lemma WinnerNext(h: Hashing, xs: seq<SavedInfo>, refs: seq<int>, j: int, k: Slot)
    ensures Winner(h, xs, refs + [j], k) ==
      if Winner(h, xs, refs, k) != -1 then Winner(h, xs, refs, k) else if Claims(h, xs, j, k) then j else -1
  {
    assert (refs + [j])[..|refs|] == refs;
  }

  /** `s` holds the saved new entries, none of them placed. */
  ghost predicate Unplaced(s: State, xs: seq<SavedInfo>) {
    && s.nNew == |xs| && s.vvNew == map[]
    && (forall id | 0 <= id < |xs| ::
          && id in s.mapInfo && !s.mapInfo[id].inTried
          && s.mapInfo[id].service == xs[id].service && s.mapInfo[id].source == xs[id].source)
    && (forall id | id in s.mapInfo :: s.mapInfo[id].nRefCount == 0)
  }

  /** `t` is `s` with every slot given to its winner. */
  ghost predicate Rebucketed(s: State, xs: seq<SavedInfo>, refs: seq<int>, t: State) {
    && t == s.(vvNew := t.vvNew, mapInfo := t.mapInfo)
    && (forall k :: k in t.vvNew <==> Winner(s.h, xs, refs, k) != -1)
    && (forall k | k in t.vvNew :: t.vvNew[k] == Winner(s.h, xs, refs, k))
    && t.mapInfo.Keys == s.mapInfo.Keys
    && (forall id | id in s.mapInfo :: t.mapInfo[id] == s.mapInfo[id].(nRefCount := Won(s.h, xs, refs, id)))
  }

  /** How many slots an entry gets: its own one, if it is the first to claim it. */
  function Won(h: Hashing, xs: seq<SavedInfo>, refs: seq<int>, id: int): nat {
    if 0 <= id < |xs| && Winner(h, xs, refs, NewSlot(h, xs[id].service, xs[id].source)) == id then 1 else 0
  }

  lemma WonNext(h: Hashing, xs: seq<SavedInfo>, refs: seq<int>, j: int, id: int)
    ensures Won(h, xs, refs + [j], id) ==
      if id == j && 0 <= j < |xs| && h.valid(xs[j].service.net)
         && Winner(h, xs, refs, NewSlot(h, xs[j].service, xs[j].source)) == -1 then 1
      else Won(h, xs, refs, id)
  {
    hide Winner, NewSlot;
    if 0 <= id < |xs| {
      var k := NewSlot(h, xs[id].service, xs[id].source);
      WinnerNext(h, xs, refs, j, k);
      WinnerIsFirst(h, xs, refs, k);
    }
  }

  lemma SlotRebuckets(s: State, xs: seq<SavedInfo>, refs: seq<int>, t: State, b: int, j: int)
    requires Core(t) && Unplaced(s, xs) && Rebucketed(s, xs, refs, t)
    ensures Core(LoadSlot(t, b, j, false)) && Rebucketed(s, xs, refs + [j], LoadSlot(t, b, j, false))
  {
    hide Core, Winner, NewSlot, Won;
    var u := LoadSlot(t, b, j, false);
    forall k ensures Winner(s.h, xs, refs + [j], k) ==
      if Winner(s.h, xs, refs, k) != -1 then Winner(s.h, xs, refs, k) else if Claims(s.h, xs, j, k) then j else -1
    {
      WinnerNext(s.h, xs, refs, j, k);
    }
    forall id ensures Won(s.h, xs, refs + [j], id) ==
      if id == j && 0 <= j < |xs| && s.h.valid(xs[j].service.net)
         && Winner(s.h, xs, refs, NewSlot(s.h, xs[j].service, xs[j].source)) == -1 then 1
      else Won(s.h, xs, refs, id)
    {
      WonNext(s.h, xs, refs, j, id);
    }
    if 0 <= j < |xs| {
      WonAtMostOne(s.h, xs, refs, j);
      var k := NewSlot(s.h, xs[j].service, xs[j].source);
      if s.h.valid(xs[j].service.net) && k !in t.vvNew {
        SlotRange(s.h, xs[j].service, xs[j].source);
        NotWon(s.h, xs, refs, j);
        AddRefKeepsCore(t, k, j);
      }
    }
  }

  lemma WonAtMostOne(h: Hashing, xs: seq<SavedInfo>, refs: seq<int>, id: int)
    ensures Won(h, xs, refs, id) <= 1
  {
  }

  lemma NotWon(h: Hashing, xs: seq<SavedInfo>, refs: seq<int>, id: int)
    requires 0 <= id < |xs| && Winner(h, xs, refs, NewSlot(h, xs[id].service, xs[id].source)) == -1
    ensures Won(h, xs, refs, id) == 0
  {
  }

  lemma SlotRange(h: Hashing, a: Service, source: NetAddr)
    ensures var k := NewSlot(h, a, source);
      0 <= k.0 < NEW_BUCKET_COUNT && k.1 == Position(h, true, k.0, a)
  {
  }

  lemma {:induction false} RowRebuckets(s: State, xs: seq<SavedInfo>, refs: seq<int>, t: State, b: int, row: seq<int>)
    requires Core(t) && Unplaced(s, xs) && Rebucketed(s, xs, refs, t)
    ensures Core(LoadRow(t, b, row, false)) && Rebucketed(s, xs, refs + row, LoadRow(t, b, row, false))
    decreases |row|
  {
    hide Core, Rebucketed, LoadSlot, Unplaced;
    if row == [] {
      assert refs + row == refs;
    } else {
      SlotRebuckets(s, xs, refs, t, b, row[0]);
      RowRebuckets(s, xs, refs + [row[0]], LoadSlot(t, b, row[0], false), b, row[1..]);
      assert refs + [row[0]] + row[1..] == refs + row;
    }
  }

  lemma {:induction false} RowsRebucket(s: State, xs: seq<SavedInfo>, rows: seq<seq<int>>)
    requires Core(s) && Unplaced(s, xs)
    ensures Core(LoadRows(s, rows, false)) && Rebucketed(s, xs, Flat(rows), LoadRows(s, rows, false))
  {
    hide Core, LoadRow, Unplaced;
    if rows == [] {
      NothingRebucketed(s, xs);
    } else {
      hide Rebucketed;
      var n := |rows| - 1;
      RowsRebucket(s, xs, rows[..n]);
      RowRebuckets(s, xs, Flat(rows[..n]), LoadRows(s, rows[..n], false), n, rows[n]);
    }
  }

  lemma NothingRebucketed(s: State, xs: seq<SavedInfo>)
    requires Unplaced(s, xs)
    ensures Rebucketed(s, xs, [], s)
  {
  }

  // ---- The entries ----

  ghost predicate Separate(xs: seq<SavedInfo>) {
    forall p, q | 0 <= p < q < |xs| :: xs[p].service != xs[q].service
  }

  /** The saved new entries are ids 0 .. n-1, and there is nothing else. */
  ghost predicate Holds(h: Hashing, xs: seq<SavedInfo>, t: State) {
    && t.h == h && t.nNew == |xs| && t.nIdCount == |xs| && |t.vRandom| == |xs|
    && (forall id :: id in t.mapInfo <==> 0 <= id < |xs|)
    && (forall id | 0 <= id < |xs| :: t.mapInfo[id] == Restore(xs[id], id, false))
    && t.vvNew == map[] && t.vvTried == map[] && t.collisions == {}
  }

  lemma {:induction false} NewLoaded(h: Hashing, xs: seq<SavedInfo>)
    requires Separate(xs) && forall j | 0 <= j < |xs| :: 0 <= xs[j].lastSuccess
    ensures Core(AfterNew(h, xs)) && Holds(h, xs, AfterNew(h, xs))
  {
    hide Core;
    if xs == [] {
      EmptyCore(h);
    } else {
      var n := |xs| - 1;
      NewLoaded(h, xs[..n]);
      hide AfterNew, Grown;
      var t := AfterNew(h, xs[..n]);
      var a := xs[n].service;
      if a in t.mapAddr {
        CoreAddr(t, a);
      }
      LoadKeepsCore(t, xs[n], false);
      AfterNewGrows(h, xs);
      HoldsMore(h, xs, t);
    }
  }

  lemma HoldsMore(h: Hashing, xs: seq<SavedInfo>, t: State)
    requires xs != [] && Holds(h, xs[..|xs| - 1], t)
    ensures Holds(h, xs, Grown(t, xs[|xs| - 1], false))
  {
  }

  /** The first valid saved tried entry that hashes to slot `k`; -1 if none does. */
  function TriedWinner(h: Hashing, ys: seq<SavedInfo>, k: Slot): (w: int)
    ensures -1 <= w < |ys|
  {
    if ys == [] then -1 else
      var n := |ys| - 1;
      var w := TriedWinner(h, ys[..n], k);
      if w != -1 then w else if h.valid(ys[n].service.net) && TriedSlot(h, ys[n].service) == k then n else -1
  }

  lemma {:induction false} TriedWinnerIsFirst(h: Hashing, ys: seq<SavedInfo>, k: Slot)
    ensures var w := TriedWinner(h, ys, k);
      && (w != -1 ==> h.valid(ys[w].service.net) && TriedSlot(h, ys[w].service) == k)
      && (forall j | 0 <= j < |ys| && (w == -1 || j < w) ::
            !h.valid(ys[j].service.net) || TriedSlot(h, ys[j].service) != k)
  {
    hide TriedSlot;
    if ys != [] {
      TriedWinnerIsFirst(h, ys[..|ys| - 1], k);
    }
  }

  /** `t` is `s` after the saved tried entries have been read: every tried slot
      belongs to its winner. */
  ghost predicate Settled(s: State, ys: seq<SavedInfo>, t: State) {
    && t.h == s.h && t.nNew == s.nNew && t.vvNew == s.vvNew && t.collisions == s.collisions
    && (forall id | id in s.mapInfo :: id in t.mapInfo && t.mapInfo[id] == s.mapInfo[id])
    && (forall id | id in t.mapInfo && id !in s.mapInfo :: t.mapInfo[id].inTried)
    && (forall k :: k in t.vvTried <==> TriedWinner(s.h, ys, k) != -1)
    && (forall k | k in t.vvTried ::
          t.vvTried[k] in t.mapInfo && Save(t.mapInfo[t.vvTried[k]]) == ys[TriedWinner(s.h, ys, k)])
  }

  lemma {:induction false} TriedSettled(s: State, ys: seq<SavedInfo>)
    requires Core(s) && s.vvNew == map[] && s.vvTried == map[] && Separate(ys)
    requires forall j | 0 <= j < |ys| :: 0 < ys[j].lastSuccess && ys[j].service !in s.mapAddr
    ensures Core(LoadTried(s, ys)) && Settled(s, ys, LoadTried(s, ys))
  {
    hide Core;
    if ys != [] {
      var n := |ys| - 1;
      hide Settled;
      TriedSettled(s, ys[..n]);
      hide LoadTriedEntry;
      assert LoadTried(s, ys) == LoadTriedEntry(LoadTried(s, ys[..n]), ys[n]);
      TriedSettles(s, ys, LoadTried(s, ys[..n]));
    }
  }

  lemma TriedWinnerNext(h: Hashing, ys: seq<SavedInfo>, k: Slot)
    requires ys != []
    ensures var n := |ys| - 1;
      var w := TriedWinner(h, ys[..n], k);
      && (TriedWinner(h, ys, k) ==
            if w != -1 then w else if h.valid(ys[n].service.net) && TriedSlot(h, ys[n].service) == k then n else -1)
      && (w != -1 ==> ys[..n][w] == ys[w])
  {
  }

  lemma SettledSkips(s: State, ys: seq<SavedInfo>, t: State)
    requires ys != [] && Settled(s, ys[..|ys| - 1], t)
    requires var y := ys[|ys| - 1]; !s.h.valid(y.service.net) || TriedSlot(s.h, y.service) in t.vvTried
    ensures Settled(s, ys, t)
  {
    hide TriedSlot, TriedWinner, Save;
    forall k
      ensures k in t.vvTried <==> TriedWinner(s.h, ys, k) != -1
      ensures k in t.vvTried ==> Save(t.mapInfo[t.vvTried[k]]) == ys[TriedWinner(s.h, ys, k)]
    {
      TriedWinnerNext(s.h, ys, k);
    }
  }

  lemma SettledGrows(s: State, ys: seq<SavedInfo>, t: State)
    requires ys != [] && Settled(s, ys[..|ys| - 1], t) && t.nIdCount !in t.mapInfo
    requires var y := ys[|ys| - 1]; s.h.valid(y.service.net) && TriedSlot(s.h, y.service) !in t.vvTried
    ensures Settled(s, ys, Grown(t, ys[|ys| - 1], true))
  {
    hide TriedSlot, TriedWinner, Bump;
    var n := |ys| - 1;
    var u := Grown(t, ys[n], true);
    forall k
      ensures k in u.vvTried <==> TriedWinner(s.h, ys, k) != -1
      ensures k in u.vvTried ==>
        u.vvTried[k] in u.mapInfo && Save(u.mapInfo[u.vvTried[k]]) == ys[TriedWinner(s.h, ys, k)]
    {
      TriedWinnerNext(s.h, ys, k);
    }
  }

  lemma TriedSettles(s: State, ys: seq<SavedInfo>, t: State)
    requires ys != [] && Core(s) && Core(t) && Settled(s, ys[..|ys| - 1], t) && Separate(ys)
    requires s.vvNew == map[]
    requires 0 < ys[|ys| - 1].lastSuccess && ys[|ys| - 1].service !in s.mapAddr
    ensures var u := LoadTriedEntry(t, ys[|ys| - 1]); Core(u) && Settled(s, ys, u)
  {
    hide Core, TriedSlot, TriedWinner, Bump, Restore, Separate;
    var y := ys[|ys| - 1];
    assert t.h == s.h && t.vvNew == map[];
    if s.h.valid(y.service.net) && TriedSlot(s.h, y.service) !in t.vvTried {
      NotYetTried(s, ys, t);
      hide Settled;
      LoadKeepsCore(t, y, true);
      SettledGrows(s, ys, t);
      assert LoadTriedEntry(t, y) == Grown(t, y, true);
    } else {
      SettledSkips(s, ys, t);
    }
  }

  lemma NotYetTried(s: State, ys: seq<SavedInfo>, t: State)
    requires ys != [] && Core(s) && Core(t) && Settled(s, ys[..|ys| - 1], t) && Separate(ys)
    requires ys[|ys| - 1].service !in s.mapAddr
    ensures ys[|ys| - 1].service !in t.mapAddr
  {
    hide Core, TriedSlot, TriedWinner;
    var a := ys[|ys| - 1].service;
    if a in t.mapAddr {
      CoreAddr(t, a);
      var id := t.mapAddr[a];
      if id in s.mapInfo {
        CoreEntry(s, id);
      } else {
        TriedIsHome(t, id);
      }
    }
  }

  // ---- The loaded manager ----

  /** Saved data with one entry per address and sensible times. */
  ghost predicate Plausible(x: Saved) {
    && Separate(x.newEntries + x.triedEntries)
    && (forall j | 0 <= j < |x.newEntries| :: 0 <= x.newEntries[j].lastSuccess)
    && (forall j | 0 <= j < |x.triedEntries| :: 0 < x.triedEntries[j].lastSuccess)
  }

  lemma PlausibleLists(x: Saved)
    requires Plausible(x)
    ensures Separate(x.newEntries) && Separate(x.triedEntries)
    ensures forall i, j | 0 <= i < |x.newEntries| && 0 <= j < |x.triedEntries| ::
      x.newEntries[i].service != x.triedEntries[j].service
  {
    var xs, ys := x.newEntries, x.triedEntries;
    var all := xs + ys;
    forall p, q | 0 <= p < q < |xs| ensures xs[p].service != xs[q].service {
      assert all[p] == xs[p] && all[q] == xs[q];
    }
    forall p, q | 0 <= p < q < |ys| ensures ys[p].service != ys[q].service {
      assert all[|xs| + p] == ys[p] && all[|xs| + q] == ys[q];
    }
    forall p, q | 0 <= p < |xs| && 0 <= q < |ys| ensures xs[p].service != ys[q].service {
      assert all[p] == xs[p] && all[|xs| + q] == ys[q];
    }
  }

  /** Entry `id` has exactly the saved fields of `x`. */
  ghost predicate IsSaved(t: State, id: int, x: SavedInfo, refs: int, tried: bool) {
    id in t.mapInfo && Save(t.mapInfo[id]) == x && t.mapInfo[id].nRefCount == refs && t.mapInfo[id].inTried == tried
  }

  /** Both tables hold exactly the winners. */
  ghost predicate WinnersOnly(h: Hashing, x: Saved, t: State) {
    && (forall k :: k in t.vvNew <==> Winner(h, x.newEntries, Flat(x.buckets), k) != -1)
    && (forall k | k in t.vvNew ::
          IsSaved(t, t.vvNew[k], x.newEntries[Winner(h, x.newEntries, Flat(x.buckets), k)], 1, false))
    && (forall k :: k in t.vvTried <==> TriedWinner(h, x.triedEntries, k) != -1)
    && (forall k | k in t.vvTried ::
          IsSaved(t, t.vvTried[k], x.triedEntries[TriedWinner(h, x.triedEntries, k)], 0, true))
  }

  /** Every entry sits in the slot its own fields select, and in no other. */
  ghost predicate AllAtHome(t: State) {
    forall a | a in t.mapAddr ::
      var i := Rec(t.mapInfo, t.mapAddr[a]);
      if i.inTried then HoldsAt(t.vvTried, TriedSlot(t.h, a), t.mapAddr[a])
      else HoldsAt(t.vvNew, NewSlot(t.h, a, i.source), t.mapAddr[a])
  }

  predicate HoldsAt(t: Table, k: Slot, id: int) {
    k in t && t[k] == id
  }

  /** What pruning leaves of `u`. */
  ghost predicate Pruned(u: State, t: State) {
    && Consistent(t) && t.h == u.h && t.vvNew == u.vvNew && t.vvTried == u.vvTried
    && (forall id :: id in t.mapInfo <==> id in u.mapInfo && !Deletable(u, id))
    && (forall id | id in t.mapInfo :: SameRecord(u.mapInfo[id], t.mapInfo[id]))
  }

  lemma NewWinners(h: Hashing, xs: seq<SavedInfo>, s: State, refs: seq<int>, u: State, t: State, k: Slot)
    requires s.h == h && Unplaced(s, xs) && (forall id | 0 <= id < |xs| :: Save(s.mapInfo[id]) == xs[id])
    requires Rebucketed(s, xs, refs, u) && Pruned(u, t)
    ensures k in t.vvNew <==> Winner(h, xs, refs, k) != -1
    ensures k in t.vvNew ==> IsSaved(t, t.vvNew[k], xs[Winner(h, xs, refs, k)], 1, false)
  {
    hide Winner, NewSlot, Consistent;
    WinnerIsFirst(h, xs, refs, k);
    var w := Winner(h, xs, refs, k);
    if w != -1 {
      assert Won(h, xs, refs, w) == 1;
      assert u.mapInfo[w].nRefCount == 1;
    }
  }

  lemma TriedWinners(h: Hashing, s: State, ys: seq<SavedInfo>, s1: State, xs: seq<SavedInfo>, refs: seq<int>, u: State,
                     t: State, k: Slot)
    requires s.h == h && Settled(s, ys, s1) && Core(s1) && Rebucketed(s1, xs, refs, u) && Pruned(u, t)
    ensures k in t.vvTried <==> TriedWinner(h, ys, k) != -1
    ensures k in t.vvTried ==> IsSaved(t, t.vvTried[k], ys[TriedWinner(h, ys, k)], 0, true)
  {
    hide Winner, NewSlot, Consistent, Core, Won, TriedWinner;
    if k in t.vvTried {
      var id := s1.vvTried[k];
      assert id in s1.mapInfo && id in u.mapInfo;
      CoreParts(s1, k);
      assert !Deletable(u, id);
      PrunedTried(t, id);
    }
  }

  lemma PrunedTried(t: State, id: int)
    requires Consistent(t) && id in t.mapInfo && t.mapInfo[id].inTried
    ensures t.mapInfo[id].nRefCount == 0
  {
    CoreEntry(t, id);
  }

  lemma Homes(h: Hashing, xs: seq<SavedInfo>, s: State, refs: seq<int>, u: State, t: State, a: Service)
    requires s.h == h && Unplaced(s, xs) && (forall id | 0 <= id < |xs| :: Save(s.mapInfo[id]) == xs[id])
    requires forall id | id in s.mapInfo && !s.mapInfo[id].inTried :: 0 <= id < |xs|
    requires Rebucketed(s, xs, refs, u) && Pruned(u, t) && a in t.mapAddr
    ensures var i := Rec(t.mapInfo, t.mapAddr[a]);
      if i.inTried then HoldsAt(t.vvTried, TriedSlot(t.h, a), t.mapAddr[a])
      else HoldsAt(t.vvNew, NewSlot(t.h, a, i.source), t.mapAddr[a])
  {
    hide Winner, NewSlot, TriedSlot, Core;
    CoreAddr(t, a);
    var id := t.mapAddr[a];
    if t.mapInfo[id].inTried {
      TriedIsHome(t, id);
    } else {
      hide Consistent;
      assert id in u.mapInfo && !Deletable(u, id) && SameRecord(u.mapInfo[id], t.mapInfo[id]);
      assert Won(h, xs, refs, id) != 0;
    }
  }

  /** Loading under another bucketing: the load succeeds exactly when the lists
      are within bounds; the loaded manager is consistent, every slot holds the
      first valid entry that claims it, and nothing else is kept. */
  lemma RebucketedLoad(h: Hashing, x: Saved, asmap: int, order: seq<int>)
    requires Plausible(x) && (x.asmap != asmap || |x.buckets| != NEW_BUCKET_COUNT)
    requires Enumerates(order, Rebuilt(h, x, asmap).mapInfo)
    ensures var r := Unserialize(h, x, asmap, order);
      && (r.Ok? <==> |x.newEntries| <= NEW_BUCKET_COUNT * BUCKET_SIZE
                     && |x.triedEntries| <= TRIED_BUCKET_COUNT * BUCKET_SIZE)
      && (r.Ok? ==> Consistent(r.state) && r.state.h == h && WinnersOnly(h, x, r.state) && AllAtHome(r.state))
  {
    hide Consistent, Prune, Checked, WinnersOnly, AllAtHome;
    var t := Kept(h, x, asmap, order);
    ConsistentPasses(t);
  }

  lemma Entries(h: Hashing, x: Saved) returns (s0: State, s1: State)
    requires Plausible(x)
    ensures s0 == AfterNew(h, x.newEntries) && s1 == LoadTried(s0, x.triedEntries)
    ensures Core(s1) && s0.h == h && Settled(s0, x.triedEntries, s1) && Unplaced(s1, x.newEntries)
    ensures forall id | 0 <= id < |x.newEntries| :: Save(s1.mapInfo[id]) == x.newEntries[id]
    ensures forall id | id in s1.mapInfo && !s1.mapInfo[id].inTried :: 0 <= id < |x.newEntries|
  {
    hide Core, AfterNew, LoadTried, Separate;
    var xs, ys := x.newEntries, x.triedEntries;
    PlausibleLists(x);
    NewLoaded(h, xs);
    s0 := AfterNew(h, xs);
    forall j | 0 <= j < |ys| ensures ys[j].service !in s0.mapAddr {
      if ys[j].service in s0.mapAddr {
        CoreAddr(s0, ys[j].service);
      }
    }
    TriedSettled(s0, ys);
    s1 := LoadTried(s0, ys);
    forall id | id in s1.mapInfo ensures s1.mapInfo[id].nRefCount == 0 {
      CoreEntry(s1, id);
    }
  }

  lemma Kept(h: Hashing, x: Saved, asmap: int, order: seq<int>) returns (t: State)
    requires Plausible(x) && (x.asmap != asmap || |x.buckets| != NEW_BUCKET_COUNT)
    requires Enumerates(order, Rebuilt(h, x, asmap).mapInfo)
    ensures t == Prune(Rebuilt(h, x, asmap), order)
    ensures Consistent(t) && t.h == h && WinnersOnly(h, x, t) && AllAtHome(t)
  {
    hide Core, LoadNew, LoadTried, LoadRows, Rebucketed, Settled, Unplaced, Plausible, Winner, TriedWinner;
    var s0, s1 := Entries(h, x);
    var u := LoadRows(s1, x.buckets, false);
    RowsRebucket(s1, x.newEntries, x.buckets);
    assert u == Rebuilt(h, x, asmap);
    PruneRemovesOrphans(u, order);
    t := Prune(u, order);
    hide Prune, Consistent, OnlyUnplaced, WinnersOnly, AllAtHome, Flat;
    assert Pruned(u, t);
    Frames(s0, x.triedEntries, s1, x.newEntries, Flat(x.buckets), u);
    KeptWinners(h, x, s0, s1, u, t);
    KeptHomes(h, x, s1, u, t);
  }

  lemma KeptWinners(h: Hashing, x: Saved, s0: State, s1: State, u: State, t: State)
    requires s0.h == h == s1.h && Settled(s0, x.triedEntries, s1) && Core(s1) && Unplaced(s1, x.newEntries)
    requires forall id | 0 <= id < |x.newEntries| :: id in s1.mapInfo && Save(s1.mapInfo[id]) == x.newEntries[id]
    requires Rebucketed(s1, x.newEntries, Flat(x.buckets), u) && Pruned(u, t)
    ensures WinnersOnly(h, x, t)
  {
    hide Core, Unplaced, Rebucketed, Settled, Pruned, Winner, TriedWinner, Save, IsSaved;
    var refs := Flat(x.buckets);
    forall k
      ensures k in t.vvNew <==> Winner(h, x.newEntries, refs, k) != -1
      ensures k in t.vvNew ==> IsSaved(t, t.vvNew[k], x.newEntries[Winner(h, x.newEntries, refs, k)], 1, false)
      ensures k in t.vvTried <==> TriedWinner(h, x.triedEntries, k) != -1
      ensures k in t.vvTried ==>
        IsSaved(t, t.vvTried[k], x.triedEntries[TriedWinner(h, x.triedEntries, k)], 0, true)
    {
      NewWinners(h, x.newEntries, s1, refs, u, t, k);
      TriedWinners(h, s0, x.triedEntries, s1, x.newEntries, refs, u, t, k);
    }
  }

  lemma KeptHomes(h: Hashing, x: Saved, s1: State, u: State, t: State)
    requires h == s1.h && Unplaced(s1, x.newEntries)
    requires forall id | 0 <= id < |x.newEntries| :: id in s1.mapInfo && Save(s1.mapInfo[id]) == x.newEntries[id]
    requires forall id | id in s1.mapInfo && !s1.mapInfo[id].inTried :: 0 <= id < |x.newEntries|
    requires Rebucketed(s1, x.newEntries, Flat(x.buckets), u) && Pruned(u, t)
    ensures AllAtHome(t)
  {
    hide Unplaced, Rebucketed, Pruned, Winner, Save, TriedSlot, NewSlot, HoldsAt;
    forall a | a in t.mapAddr
      ensures var i := Rec(t.mapInfo, t.mapAddr[a]);
        if i.inTried then HoldsAt(t.vvTried, TriedSlot(t.h, a), t.mapAddr[a])
        else HoldsAt(t.vvNew, NewSlot(t.h, a, i.source), t.mapAddr[a])
    {
      Homes(h, x.newEntries, s1, Flat(x.buckets), u, t, a);
    }
  }

  lemma Frames(s0: State, ys: seq<SavedInfo>, s1: State, xs: seq<SavedInfo>, refs: seq<int>, u: State)
    requires Settled(s0, ys, s1) && Rebucketed(s1, xs, refs, u) && Unplaced(s1, xs)
    ensures s1.h == s0.h && u.h == s1.h && forall id | 0 <= id < |xs| :: id in s1.mapInfo
  {
    hide Winner, TriedWinner;
  }

  /** An address of the saved data is known afterwards exactly if its entry won
      the slot it selects. */
  lemma NewSurvives(h: Hashing, x: Saved, t: State, j: int)
    requires Plausible(x) && Consistent(t) && t.h == h && WinnersOnly(h, x, t) && AllAtHome(t)
    requires 0 <= j < |x.newEntries|
    ensures var y := x.newEntries[j];
      y.service in t.mapAddr <==> Winner(h, x.newEntries, Flat(x.buckets), NewSlot(h, y.service, y.source)) == j
  {
    hide Core, Winner, TriedWinner, NewSlot, TriedSlot, Plausible, Flat;
    PlausibleLists(x);
    var y := x.newEntries[j];
    var k := NewSlot(h, y.service, y.source);
    if y.service in t.mapAddr {
      CoreAddr(t, y.service);
    }
    if k in t.vvNew {
      CoreEntry(t, t.vvNew[k]);
    }
  }

  lemma TriedSurvives(h: Hashing, x: Saved, t: State, j: int)
    requires Plausible(x) && Consistent(t) && t.h == h && WinnersOnly(h, x, t) && AllAtHome(t)
    requires 0 <= j < |x.triedEntries|
    ensures var y := x.triedEntries[j];
      y.service in t.mapAddr <==> TriedWinner(h, x.triedEntries, TriedSlot(h, y.service)) == j
  {
    hide Core, Winner, TriedWinner, NewSlot, TriedSlot, Plausible, Flat;
    PlausibleLists(x);
    var y := x.triedEntries[j];
    var k := TriedSlot(h, y.service);
    if y.service in t.mapAddr {
      CoreAddr(t, y.service);
    }
    if k in t.vvTried {
      CoreEntry(t, t.vvTried[k]);
    }
  }

  // ---- Saving under one mapping and loading under another ----

  /** The valid new entry `id` would go to slot `k` for its own source. */
  ghost predicate Selects(s: State, h: Hashing, id: int, k: Slot) {
    id in s.mapInfo && h.valid(s.mapInfo[id].service.net)
    && NewSlot(h, s.mapInfo[id].service, s.mapInfo[id].source) == k
  }

  /** In table order, `p` is the first slot whose entry selects `k`. */
  ghost predicate FirstAt(s: State, h: Hashing, p: Slot, k: Slot) {
    && p in s.vvNew && Selects(s, h, s.vvNew[p], k)
    && (forall q | q in s.vvNew && Before(q, p.0, p.1) :: !Selects(s, h, s.vvNew[q], k))
  }

  /** `xs` are the new entries of `s` in listing order, `r` their ranks. */
  ghost predicate Lists(s: State, all: seq<int>, r: map<int, int>, xs: seq<SavedInfo>) {
    && Core(s) && RanksOk(all, |xs|, r)
    && (forall id :: id in all <==> id in s.mapInfo)
    && (forall j | 0 <= j < |all| :: all[j] in s.mapInfo && (s.mapInfo[all[j]].inTried <==> j >= |xs|))
    && (forall j | 0 <= j < |xs| :: xs[j] == Save(s.mapInfo[all[j]]))
  }

  /** `refs` are the references before slot (b, i): their winner is the entry
      found first in table order. */
  ghost predicate WinsBefore(s: State, h: Hashing, all: seq<int>, xs: seq<SavedInfo>, refs: seq<int>, b: int, i: int,
                             k: Slot)
  {
    |xs| <= |all| &&
    var w := Winner(h, xs, refs, k);
    if w == -1 then forall q | q in s.vvNew && Before(q, b, i) :: !Selects(s, h, s.vvNew[q], k)
    else exists p :: FirstAt(s, h, p, k) && Before(p, b, i) && s.vvNew[p] == all[w]
  }

  lemma WinsStep(s: State, h: Hashing, all: seq<int>, r: map<int, int>, xs: seq<SavedInfo>, refs: seq<int>, b: int,
                 i: int, k: Slot)
    requires Lists(s, all, r, xs) && WinsBefore(s, h, all, xs, refs, b, i, k)
    ensures var more := if (b, i) in s.vvNew then [RankOf(r, s.vvNew[(b, i)])] else [];
      WinsBefore(s, h, all, xs, refs + more, b, i + 1, k)
  {
    hide Core, Winner, NewSlot;
    if (b, i) in s.vvNew {
      var id := s.vvNew[(b, i)];
      InNewGrid(s, (b, i));
      assert id in all;
      var j :| 0 <= j < |all| && all[j] == id;
      WinnerNext(h, xs, refs, j, k);
      assert Claims(h, xs, j, k) <==> Selects(s, h, id, k);
      if Winner(h, xs, refs, k) == -1 && Selects(s, h, id, k) {
        assert FirstAt(s, h, (b, i), k);
      }
    } else {
      assert refs + [] == refs;
    }
  }

  lemma {:induction false} RowWins(s: State, h: Hashing, all: seq<int>, r: map<int, int>, xs: seq<SavedInfo>,
                                   refs: seq<int>, b: int, i: int, k: Slot)
    requires Lists(s, all, r, xs) && WinsBefore(s, h, all, xs, refs, b, i, k) && 0 <= i <= BUCKET_SIZE
    ensures WinsBefore(s, h, all, xs, refs + Row(s.vvNew, r, b, i), b, BUCKET_SIZE, k)
    decreases BUCKET_SIZE - i
  {
    hide Lists, WinsBefore;
    if i == BUCKET_SIZE {
      assert refs + Row(s.vvNew, r, b, i) == refs;
    } else {
      WinsStep(s, h, all, r, xs, refs, b, i, k);
      var more := if (b, i) in s.vvNew then [RankOf(r, s.vvNew[(b, i)])] else [];
      RowWins(s, h, all, r, xs, refs + more, b, i + 1, k);
      assert refs + more + Row(s.vvNew, r, b, i + 1) == refs + Row(s.vvNew, r, b, i);
    }
  }

  lemma NextRowWins(s: State, h: Hashing, all: seq<int>, xs: seq<SavedInfo>, refs: seq<int>, b: int, k: Slot)
    requires Core(s) && WinsBefore(s, h, all, xs, refs, b, BUCKET_SIZE, k)
    ensures WinsBefore(s, h, all, xs, refs, b + 1, 0, k)
  {
    hide Core, Winner, Selects;
    forall q | q in s.vvNew ensures Before(q, b + 1, 0) <==> Before(q, b, BUCKET_SIZE) {
      InNewGrid(s, q);
    }
  }

  lemma {:induction false} RowsWin(s: State, h: Hashing, all: seq<int>, r: map<int, int>, xs: seq<SavedInfo>,
                                   rows: seq<seq<int>>, k: Slot)
    requires Lists(s, all, r, xs) && forall b | 0 <= b < |rows| :: rows[b] == Row(s.vvNew, r, b, 0)
    ensures WinsBefore(s, h, all, xs, Flat(rows), |rows|, 0, k)
  {
    hide Core, Row;
    if rows == [] {
      forall q | q in s.vvNew ensures !Before(q, 0, 0) {
        InNewGrid(s, q);
      }
    } else {
      hide WinsBefore;
      var b := |rows| - 1;
      RowsWin(s, h, all, r, xs, rows[..b], k);
      RowWins(s, h, all, r, xs, Flat(rows[..b]), b, 0, k);
      NextRowWins(s, h, all, xs, Flat(rows), b, k);
    }
  }

  lemma FirstIsOnly(s: State, h: Hashing, p: Slot, q: Slot, k: Slot)
    requires FirstAt(s, h, p, k) && FirstAt(s, h, q, k)
    ensures p == q
  {
    hide Selects;
    assert Before(p, q.0, q.1) || Before(q, p.0, p.1) || p == q;
  }

  ghost predicate FirstToSelect(s: State, h: Hashing, id: int, k: Slot) {
    exists p :: FirstAt(s, h, p, k) && s.vvNew[p] == id
  }

  lemma WinnerSelects(s: State, h: Hashing, all: seq<int>, r: map<int, int>, xs: seq<SavedInfo>, rows: seq<seq<int>>,
                      k: Slot, j: int)
    requires Lists(s, all, r, xs) && Distinct(all) && 0 <= j < |xs| && |rows| == NEW_BUCKET_COUNT
    requires forall b | 0 <= b < |rows| :: rows[b] == Row(s.vvNew, r, b, 0)
    ensures Winner(h, xs, Flat(rows), k) == j <==> FirstToSelect(s, h, all[j], k)
  {
    hide Core, Winner, Row, Flat, Selects;
    RowsWin(s, h, all, r, xs, rows, k);
    var w := Winner(h, xs, Flat(rows), k);
    forall q | q in s.vvNew ensures Before(q, |rows|, 0) {
      InNewGrid(s, q);
    }
    if w != -1 {
      var p :| FirstAt(s, h, p, k) && s.vvNew[p] == all[w];
      if FirstToSelect(s, h, all[j], k) {
        var q :| FirstAt(s, h, q, k) && s.vvNew[q] == all[j];
        FirstIsOnly(s, h, p, q, k);
      }
    }
  }

  lemma SomeoneWins(s: State, h: Hashing, all: seq<int>, r: map<int, int>, xs: seq<SavedInfo>, rows: seq<seq<int>>,
                    k: Slot, id: int)
    requires Lists(s, all, r, xs) && |rows| == NEW_BUCKET_COUNT && Consistent(s)
    requires forall b | 0 <= b < |rows| :: rows[b] == Row(s.vvNew, r, b, 0)
    requires Selects(s, h, id, k) && !s.mapInfo[id].inTried
    ensures Winner(h, xs, Flat(rows), k) != -1
  {
    hide Core, Winner, Row, Flat, NewSlot;
    RowsWin(s, h, all, r, xs, rows, k);
    RefCountIs(s, id);
    CoreEntry(s, id);
    assert Refs(s.vvNew, id) != {};
    var q :| q in Refs(s.vvNew, id);
    InNewGrid(s, q);
  }

  ghost predicate Earlier(order: seq<int>, a: int, b: int) {
    exists p, q :: 0 <= p < q < |order| && order[p] == a && order[q] == b
  }

  /** No valid tried entry visited before `id` hashes to the same tried slot. */
  ghost predicate FirstTried(s: State, h: Hashing, order: seq<int>, id: int) {
    forall x | x in s.mapInfo && s.mapInfo[x].inTried && h.valid(s.mapInfo[x].service.net) && Earlier(order, x, id) ::
      TriedSlot(h, s.mapInfo[x].service) != TriedSlot(h, Rec(s.mapInfo, id).service)
  }

  /** What the manager `t`, loaded under hashing `h`, keeps of `s`: the valid
      tried entries that are the first ones for their slot in saving order, and of
      the valid new entries that select the same slot the one found first in table
      order.  Each keeps its saved fields; a new one has one reference, in that
      slot.  No slot that a valid new entry selects stays empty. */
  ghost predicate Survivors(s: State, h: Hashing, order: seq<int>, t: State) {
    && (forall id | id in s.mapInfo && s.mapInfo[id].inTried ::
          s.mapInfo[id].service in t.mapAddr <==>
          h.valid(s.mapInfo[id].service.net) && FirstTried(s, h, order, id))
    && (forall id | id in s.mapInfo && !s.mapInfo[id].inTried ::
          s.mapInfo[id].service in t.mapAddr <==>
          FirstToSelect(s, h, id, NewSlot(h, s.mapInfo[id].service, s.mapInfo[id].source)))
    && (forall id, k | Selects(s, h, id, k) && !s.mapInfo[id].inTried :: k in t.vvNew)
    && (forall a | a in t.mapAddr ::
          a in s.mapAddr && Kin(Rec(s.mapInfo, s.mapAddr[a]), Rec(t.mapInfo, t.mapAddr[a])))
    && AllAtHome(t)
  }

  ghost predicate Kin(i: AddrInfo, j: AddrInfo) {
    Save(j) == Save(i) && j.inTried == i.inTried && j.nRefCount == if i.inTried then 0 else 1
  }

  /** Everything the proofs below use of the saved form. */
  ghost predicate SavedForm(s: State, order: seq<int>, x: Saved) {
    var all := AllListed(s.mapInfo, order);
    && Consistent(s) && Plausible(x) && Distinct(all) && |all| == |x.newEntries| + |x.triedEntries|
    && |Listed(s.mapInfo, order, false)| == |x.newEntries|
    && Lists(s, all, Ranks(s.mapInfo, order), x.newEntries)
    && (forall j | 0 <= j < |x.triedEntries| :: x.triedEntries[j] == Save(s.mapInfo[all[|x.newEntries| + j]]))
    && |x.buckets| == NEW_BUCKET_COUNT
    && (forall b | 0 <= b < |x.buckets| :: x.buckets[b] == Row(s.vvNew, Ranks(s.mapInfo, order), b, 0))
  }

  lemma SavedFormHolds(s: State, order: seq<int>, asmap: int)
    requires Consistent(s) && Enumerates(order, s.mapInfo)
    ensures SavedForm(s, order, Serialize(s, order, asmap))
  {
    hide Consistent, Listed, Ranks, Row, Save, Plausible, Lists, Enumerates, Distinct, SaveAll;
    var p, q := Listed(s.mapInfo, order, false), Listed(s.mapInfo, order, true);
    ListsHolds(s, order, p, q);
    TriedHolds(s, order, p, q, Serialize(s, order, asmap));
  }

  lemma TriedHolds(s: State, order: seq<int>, p: seq<int>, q: seq<int>, x: Saved)
    requires Consistent(s) && Enumerates(order, s.mapInfo)
    requires p == Listed(s.mapInfo, order, false) && q == Listed(s.mapInfo, order, true)
    requires x.newEntries == SaveAll(s.mapInfo, p) && x.triedEntries == SaveAll(s.mapInfo, q)
    ensures Distinct(p + q) && Plausible(x)
    ensures forall j | 0 <= j < |q| ::
      (p + q)[|p| + j] in s.mapInfo && x.triedEntries[j] == Save(s.mapInfo[(p + q)[|p| + j]])
  {
    hide Core, Listed, Save, Plausible, OnlyUnplaced;
    AllListedFacts(s, order);
    hide Enumerates, Distinct;
    SavedSplit(s.mapInfo, p, q);
    hide SaveAll;
    SavedIsPlausible(s, p + q, x);
  }

  lemma ListsHolds(s: State, order: seq<int>, p: seq<int>, q: seq<int>)
    requires Consistent(s) && Enumerates(order, s.mapInfo)
    requires p == Listed(s.mapInfo, order, false) && q == Listed(s.mapInfo, order, true)
    ensures Lists(s, p + q, Ranks(s.mapInfo, order), SaveAll(s.mapInfo, p))
  {
    hide Core, Listed, Ranks, Save;
    AllListedFacts(s, order);
    RanksFacts(s.mapInfo, order);
    hide Enumerates, OnlyUnplaced;
    SavedSplit(s.mapInfo, p, q);
    var r := Ranks(s.mapInfo, order);
    forall j | 0 <= j < |p| ensures RankOf(r, (p + q)[j]) == j {
      assert (p + q)[j] == p[j];
    }
  }

  lemma SavedIsPlausible(s: State, all: seq<int>, x: Saved)
    requires Core(s) && Distinct(all) && |all| == |x.newEntries| + |x.triedEntries|
    requires forall j | 0 <= j < |all| ::
      all[j] in s.mapInfo && (s.mapInfo[all[j]].inTried <==> j >= |x.newEntries|)
    requires forall j | 0 <= j < |x.newEntries| :: x.newEntries[j] == Save(s.mapInfo[all[j]])
    requires forall j | 0 <= j < |x.triedEntries| :: x.triedEntries[j] == Save(s.mapInfo[all[|x.newEntries| + j]])
    ensures Plausible(x)
  {
    hide Core;
    var n := |x.newEntries|;
    var both := x.newEntries + x.triedEntries;
    forall j | 0 <= j < |all| ensures
        && both[j] == Save(s.mapInfo[all[j]]) && EntryOk(s.mapInfo[all[j]])
        && both[j].service in s.mapAddr && s.mapAddr[both[j].service] == all[j]
    {
      CoreEntry(s, all[j]);
      if j >= n {
        assert both[j] == x.triedEntries[j - n] && all[n + (j - n)] == all[j];
      }
    }
    forall j | 0 <= j < |x.triedEntries| ensures 0 < x.triedEntries[j].lastSuccess {
      assert both[n + j] == x.triedEntries[j];
    }
    forall j | 0 <= j < n ensures 0 <= x.newEntries[j].lastSuccess {
      assert both[j] == x.newEntries[j];
    }
  }

  lemma {:induction false} ListedInOrder(m: InfoMap, order: seq<int>, tried: bool, i: int, j: int)
    requires 0 <= i < j < |Listed(m, order, tried)|
    ensures Earlier(order, Listed(m, order, tried)[i], Listed(m, order, tried)[j])
  {
    var n := |order| - 1;
    var rest := order[..n];
    var all := Listed(m, rest, tried);
    assert order == rest + [order[n]];
    if j < |all| {
      ListedInOrder(m, rest, tried, i, j);
      var p, q :| 0 <= p < q < |rest| && rest[p] == all[i] && rest[q] == all[j];
      assert order[p] == all[i] && order[q] == all[j];
    } else {
      ListedIsVisited(m, rest, tried, i);
      var p :| 0 <= p < |rest| && rest[p] == all[i];
      assert order[p] == all[i];
    }
  }

  lemma {:induction false} ListedIsVisited(m: InfoMap, order: seq<int>, tried: bool, i: int)
    requires 0 <= i < |Listed(m, order, tried)|
    ensures Listed(m, order, tried)[i] in order
  {
    var n := |order| - 1;
    assert order == order[..n] + [order[n]];
    if i < |Listed(m, order[..n], tried)| {
      ListedIsVisited(m, order[..n], tried, i);
    }
  }

  lemma NotBothEarlier(order: seq<int>, a: int, b: int)
    requires Distinct(order) && Earlier(order, a, b)
    ensures !Earlier(order, b, a)
  {
  }

  lemma TriedList(s: State, order: seq<int>, x: Saved)
    requires SavedForm(s, order, x)
    ensures var (m, l, ys) := (s.mapInfo, Listed(s.mapInfo, order, true), x.triedEntries);
      |l| == |ys| && forall i | 0 <= i < |ys| :: l[i] in m && m[l[i]].inTried && ys[i] == Save(m[l[i]])
  {
    hide Core, Row, Ranks, Plausible, Consistent, Listed, RanksOk, Distinct, Save;
    var (l, all, n) := (Listed(s.mapInfo, order, true), AllListed(s.mapInfo, order), |x.newEntries|);
    assert forall i | 0 <= i < |l| :: l[i] == all[n + i];
  }

  /** Among the saved tried entries, those before entry `j` are the tried ids
      visited before it. */
  lemma TriedBefore(s: State, h: Hashing, order: seq<int>, x: Saved, j: int)
    requires SavedForm(s, order, x) && 0 <= j < |x.triedEntries| && Distinct(order)
    requires |Listed(s.mapInfo, order, true)| == |x.triedEntries|
    ensures FirstTried(s, h, order, Listed(s.mapInfo, order, true)[j]) <==>
      forall i | 0 <= i < j && h.valid(x.triedEntries[i].service.net) ::
        TriedSlot(h, x.triedEntries[i].service) != TriedSlot(h, x.triedEntries[j].service)
  {
    hide SavedForm, TriedSlot, Listed, Distinct, Earlier;
    var (m, ys, l) := (s.mapInfo, x.triedEntries, Listed(s.mapInfo, order, true));
    TriedList(s, order, x);
    if FirstTried(s, h, order, l[j]) {
      forall i | 0 <= i < j && h.valid(ys[i].service.net)
        ensures TriedSlot(h, ys[i].service) != TriedSlot(h, ys[j].service)
      {
        ListedInOrder(m, order, true, i, j);
        assert l[i] in m;
      }
    }
    if forall i | 0 <= i < j && h.valid(ys[i].service.net) :: TriedSlot(h, ys[i].service) != TriedSlot(h, ys[j].service)
    {
      forall e | e in m && m[e].inTried && h.valid(m[e].service.net) && Earlier(order, e, l[j])
        ensures TriedSlot(h, m[e].service) != TriedSlot(h, m[l[j]].service)
      {
        var i := EarlierIndex(s, order, x, e, j);
      }
    }
  }

  lemma EarlierIndex(s: State, order: seq<int>, x: Saved, id: int, j: int) returns (i: int)
    requires SavedForm(s, order, x) && id in s.mapInfo && s.mapInfo[id].inTried && Distinct(order)
    requires 0 <= j < |Listed(s.mapInfo, order, true)| && Earlier(order, id, Listed(s.mapInfo, order, true)[j])
    ensures 0 <= i < j && i < |x.triedEntries| && x.triedEntries[i] == Save(s.mapInfo[id])
  {
    hide SavedForm, Listed, Distinct, Earlier, Save;
    i := TriedIndex(s, order, x, id);
    NotBothEarlier(order, id, Listed(s.mapInfo, order, true)[j]);
    if i > j {
      ListedInOrder(s.mapInfo, order, true, j, i);
    }
  }

  lemma TriedIndex(s: State, order: seq<int>, x: Saved, id: int) returns (j: int)
    requires SavedForm(s, order, x) && id in s.mapInfo && s.mapInfo[id].inTried
    ensures 0 <= j < |x.triedEntries| == |Listed(s.mapInfo, order, true)| && Listed(s.mapInfo, order, true)[j] == id
    ensures x.triedEntries[j] == Save(s.mapInfo[id])
  {
    hide Core, Row, Ranks, Plausible, Consistent, Listed, RanksOk;
    var all, n := AllListed(s.mapInfo, order), |x.newEntries|;
    assert id in all;
    var i :| 0 <= i < |all| && all[i] == id;
    j := i - n;
  }

  lemma TriedKept(s: State, h: Hashing, order: seq<int>, x: Saved, t: State, id: int)
    requires SavedForm(s, order, x) && Distinct(order) && id in s.mapInfo && s.mapInfo[id].inTried
    requires Consistent(t) && t.h == h && WinnersOnly(h, x, t) && AllAtHome(t)
    ensures s.mapInfo[id].service in t.mapAddr <==>
      h.valid(s.mapInfo[id].service.net) && FirstTried(s, h, order, id)
  {
    hide Consistent, WinnersOnly, AllAtHome, TriedSlot, TriedWinner, FirstTried, Listed, Plausible;
    FormIsPlausible(s, order, x);
    var j := TriedIndex(s, order, x, id);
    TriedBefore(s, h, order, x, j);
    hide SavedForm;
    TriedSurvives(h, x, t, j);
    TriedWinnerIsFirst(h, x.triedEntries, TriedSlot(h, s.mapInfo[id].service));
  }

  lemma NewKept(s: State, h: Hashing, order: seq<int>, x: Saved, t: State, id: int)
    requires SavedForm(s, order, x) && id in s.mapInfo && !s.mapInfo[id].inTried
    requires Consistent(t) && t.h == h && WinnersOnly(h, x, t) && AllAtHome(t)
    ensures var k := NewSlot(h, s.mapInfo[id].service, s.mapInfo[id].source);
      && (s.mapInfo[id].service in t.mapAddr <==> FirstToSelect(s, h, id, k))
      && (h.valid(s.mapInfo[id].service.net) ==> k in t.vvNew)
  {
    hide Core, Row, Ranks, AllListed, Plausible, Consistent, AllAtHome, NewSlot, Winner, FirstToSelect, IsSaved, Flat;
    var all, xs := AllListed(s.mapInfo, order), x.newEntries;
    var k := NewSlot(h, s.mapInfo[id].service, s.mapInfo[id].source);
    assert id in all;
    var j :| 0 <= j < |all| && all[j] == id;
    assert xs[j] == Save(s.mapInfo[id]);
    NewSurvives(h, x, t, j);
    WinnerSelects(s, h, all, Ranks(s.mapInfo, order), xs, x.buckets, k, j);
    if h.valid(s.mapInfo[id].service.net) {
      SomeoneWins(s, h, all, Ranks(s.mapInfo, order), xs, x.buckets, k, id);
    }
  }

  lemma KeptKin(s: State, h: Hashing, order: seq<int>, x: Saved, t: State, a: Service)
    requires SavedForm(s, order, x) && a in t.mapAddr
    requires Consistent(t) && t.h == h && WinnersOnly(h, x, t) && AllAtHome(t)
    ensures a in s.mapAddr && Kin(Rec(s.mapInfo, s.mapAddr[a]), Rec(t.mapInfo, t.mapAddr[a]))
  {
    hide Core, Row, Ranks, AllListed, Plausible, NewSlot, TriedSlot, Winner, TriedWinner, Flat, RanksOk, Distinct;
    CoreAddr(t, a);
    hide Consistent;
    var id := t.mapAddr[a];
    var i := t.mapInfo[id];
    var j: int;
    if i.inTried {
      j := |x.newEntries| + TriedWinner(h, x.triedEntries, TriedSlot(t.h, a));
    } else {
      j := Winner(h, x.newEntries, Flat(x.buckets), NewSlot(t.h, a, i.source));
    }
    var was := AllListed(s.mapInfo, order)[j];
    assert was in s.mapInfo && Save(i) == Save(s.mapInfo[was]) && s.mapInfo[was].inTried == i.inTried;
    CoreEntry(s, was);
  }

  /** A consistent manager, saved and then loaded under another mapping of
      addresses to groups, which changes all bucket hashes. */
  lemma RebucketedRoundTrip(s: State, order: seq<int>, asmap: int, h: Hashing, asmap': int, order': seq<int>)
    requires Consistent(s) && Enumerates(order, s.mapInfo) && asmap != asmap'
    requires Enumerates(order', Rebuilt(h, Serialize(s, order, asmap), asmap').mapInfo)
    ensures var r := Unserialize(h, Serialize(s, order, asmap), asmap', order');
      r.Ok? && Consistent(r.state) && Survivors(s, h, order, r.state)
  {
    hide Consistent, Rebuilt, Prune, Checked, Listed, Ranks, Row, WinnersOnly, AllAtHome, SavedForm, Plausible;
    hide FirstToSelect, FirstTried, NewSlot, Kin;
    assert Distinct(order);
    var x := Serialize(s, order, asmap);
    SavedFormHolds(s, order, asmap);
    SizesFit(s, order);
    assert Plausible(x) by {
      FormIsPlausible(s, order, x);
    }
    RebucketedLoad(h, x, asmap', order');
    var t := Unserialize(h, x, asmap', order').state;
    hide Unserialize, Serialize;
    forall id | id in s.mapInfo && s.mapInfo[id].inTried
      ensures s.mapInfo[id].service in t.mapAddr <==>
        h.valid(s.mapInfo[id].service.net) && FirstTried(s, h, order, id)
    {
      TriedKept(s, h, order, x, t, id);
    }
    forall id | id in s.mapInfo && !s.mapInfo[id].inTried
      ensures var k := NewSlot(h, s.mapInfo[id].service, s.mapInfo[id].source);
        && (s.mapInfo[id].service in t.mapAddr <==> FirstToSelect(s, h, id, k))
        && (h.valid(s.mapInfo[id].service.net) ==> k in t.vvNew)
    {
      NewKept(s, h, order, x, t, id);
    }
    forall a | a in t.mapAddr
      ensures a in s.mapAddr && Kin(Rec(s.mapInfo, s.mapAddr[a]), Rec(t.mapInfo, t.mapAddr[a]))
    {
      KeptKin(s, h, order, x, t, a);
    }
  }

  lemma FormIsPlausible(s: State, order: seq<int>, x: Saved)
    requires SavedForm(s, order, x)
    ensures Plausible(x)
  {
    hide Lists, Plausible, Row;
  }
}
