/** `Find`, `MakeTried` and `AddSingle` as functions of the manager's state, with
    the proof that each keeps the invariant.  Clock readings and random draws are
    inputs. */
module AddrManOps {
  import opened AddrManTypes
  import opened AddrManPrimitives
  import NatArith

  /** What a state satisfying Core guarantees about one slot of each table. */
  lemma CoreParts(s: State, k: Slot)
    requires Core(s)
    ensures RandomOk(s.mapInfo, s.vRandom)
    ensures k in s.vvNew ==> s.vvNew[k] in s.mapInfo && !s.mapInfo[s.vvNew[k]].inTried
    ensures k in s.vvTried ==>
      && s.vvTried[k] in s.mapInfo && s.mapInfo[s.vvTried[k]].inTried
      && k == TriedSlot(s.h, s.mapInfo[s.vvTried[k]].service)
  {
    hide CountersOk, EntriesOk, AddrOk, RandomOk;
  }

  lemma CoreEntry(s: State, id: int)
    requires Core(s) && id in s.mapInfo
    ensures EntryOk(s.mapInfo[id]) && 0 <= id < s.nIdCount
    ensures s.mapInfo[id].service in s.mapAddr && s.mapAddr[s.mapInfo[id].service] == id
  {
    hide CountersOk, RandomOk, NewTableOk, TriedTableOk;
  }

  lemma CoreIds(s: State)
    requires Core(s)
    ensures forall x | x in s.mapInfo :: 0 <= x < s.nIdCount
  {
    hide CountersOk, RandomOk, NewTableOk, TriedTableOk, AddrOk;
  }

  lemma CoreAddr(s: State, a: Service)
    requires Core(s) && a in s.mapAddr
    ensures s.mapAddr[a] in s.mapInfo && s.mapInfo[s.mapAddr[a]].service == a && 0 <= s.mapAddr[a] < s.nIdCount
  {
    hide CountersOk, RandomOk, NewTableOk, TriedTableOk;
    var id := s.mapAddr[a];
    assert id in s.mapInfo;
  }

  function Find(s: State, a: Service): (id: int)
    ensures id != -1 ==> a in s.mapAddr && s.mapAddr[a] == id && id in s.mapInfo
    ensures Core(s) ==> (id != -1 <==> a in s.mapAddr)
  {
    hide Core;
    assert Core(s) && a in s.mapAddr ==> s.mapAddr[a] in s.mapInfo && s.mapAddr[a] >= 0 by {
      if Core(s) && a in s.mapAddr { CoreAddr(s, a); }
    }
    if a in s.mapAddr && s.mapAddr[a] in s.mapInfo then s.mapAddr[a] else -1
  }

  // ---- MakeTried ----

  function HomeSlot(s: State, id: int): Slot {
    NewSlot(s.h, Rec(s.mapInfo, id).service, Rec(s.mapInfo, id).source)
  }

  function TriedHome(s: State, id: int): Slot {
    TriedSlot(s.h, Rec(s.mapInfo, id).service)
  }

  /** The entry at tried slot `k` goes back to its primary new slot, displacing
      whatever is there. */
  function Evict(s: State, k: Slot): State
    requires k in s.vvTried
  {
    var home := HomeSlot(s, s.vvTried[k]);
    AddRef(ClearNew(Demote(s, k), home), home, s.vvTried[k])
  }

  function MakeTried(s: State, id: int): State {
    var d := DropAllRefs(s, id);
    var k := TriedHome(s, id);
    Promote(if k in d.vvTried then Evict(d, k) else d, id)
  }

  /** What an eviction may change: the evicted entry becomes a new entry with
      one reference, one other entry may lose a reference (and go with its last
      one), and nothing else about any record changes. */
  ghost predicate EvictedInfo(m: InfoMap, t: Table, prior: int, home: Slot, n: InfoMap) {
    && (forall x | x in m :: x in n <==> !(home in t && t[home] == x && m[x].nRefCount == 1))
    && (forall x | x in n ::
          && x in m
          && SameButRefs(if x == prior then m[x].(inTried := false) else m[x], n[x])
          && n[x].nRefCount == (if x == prior then 1
                                else m[x].nRefCount - (if home in t && t[home] == x then 1 else 0)))
  }

  lemma EvictSpec(s: State, k: Slot)
    requires Core(s) && k in s.vvTried
    ensures Core(Evict(s, k)) && SameFrame(s, Evict(s, k))
    ensures EvictedInfo(s.mapInfo, s.vvNew, s.vvTried[k], HomeSlot(s, s.vvTried[k]), Evict(s, k).mapInfo)
    ensures Evict(s, k).vvTried == s.vvTried - {k}
    ensures Evict(s, k).vvNew == s.vvNew[HomeSlot(s, s.vvTried[k]) := s.vvTried[k]]
  {
    hide Core, ClearNew;
    DemoteKeepsCore(s, k);
    var prior := s.vvTried[k];
    CoreEntry(s, prior);
    var home := HomeSlot(s, prior);
    CoreParts(s, home);
    var d := Demote(s, k);
    ClearNewKeepsCore(d, home);
    var c := ClearNew(d, home);
    AddRefKeepsCore(c, home, prior);
    assert (s.vvNew - {home})[home := prior] == s.vvNew[home := prior];
  }

  /** The effect of promoting `id` on the records, `prior` being the id evicted if any. */
  ghost predicate PromotedInfo(m: InfoMap, id: int, prior: int, n: InfoMap) {
    && id in n
    && (forall x | x in n ::
          && x in m
          && SameButRefs(m[x].(inTried := x == id || (m[x].inTried && x != prior)), n[x]))
  }

  function Occupant(t: Table, k: Slot): int {
    if k in t then t[k] else -1
  }

  /** MakeTried puts `id`, and only `id`, in its tried slot and out of the new
      table; an entry evicted from there is back in the new table at its home
      slot, and only the entry that lost its last reference there is gone. */
  lemma MakeTriedSpec(s: State, id: int)
    requires Consistent(s) && id in s.mapInfo && !s.mapInfo[id].inTried && 0 < s.mapInfo[id].lastSuccess
    ensures Consistent(MakeTried(s, id)) && SameFrame(s, MakeTried(s, id))
    ensures MakeTried(s, id).vvTried == s.vvTried[TriedHome(s, id) := id]
    ensures PromotedInfo(s.mapInfo, id, Occupant(s.vvTried, TriedHome(s, id)), MakeTried(s, id).mapInfo)
    ensures MakeTried(s, id).vvNew ==
      var rest := s.vvNew - Refs(s.vvNew, id);
      var k := TriedHome(s, id);
      if k in s.vvTried then rest[HomeSlot(s, s.vvTried[k]) := s.vvTried[k]] else rest
    ensures forall x | x in s.mapInfo && x !in MakeTried(s, id).mapInfo ::
      var k := TriedHome(s, id);
      k in s.vvTried && Occupant(s.vvNew, HomeSlot(s, s.vvTried[k])) == x
  {
    hide Core, MakeTried, PromotedInfo, Refs;
    MakeTriedTables(s, id);
    MakeTriedInfo(s, id);
  }

  lemma MakeTriedTables(s: State, id: int)
    requires Consistent(s) && id in s.mapInfo && !s.mapInfo[id].inTried && 0 < s.mapInfo[id].lastSuccess
    ensures Consistent(MakeTried(s, id)) && SameFrame(s, MakeTried(s, id))
    ensures MakeTried(s, id).vvTried == s.vvTried[TriedHome(s, id) := id]
    ensures MakeTried(s, id).vvNew ==
      var rest := s.vvNew - Refs(s.vvNew, id);
      var k := TriedHome(s, id);
      if k in s.vvTried then rest[HomeSlot(s, s.vvTried[k]) := s.vvTried[k]] else rest
  {
    hide Core, Evict;
    CoreIds(s);
    var d := DropAllRefs(s, id);
    assert forall j | j in d.vvNew :: d.vvNew[j] != id;
    hide Refs;
    DropAllRefsKeepsCore(s, id);
    var k := TriedHome(s, id);
    if k in d.vvTried {
      CoreParts(s, k);
      EvictSpec(d, k);
      assert HomeSlot(d, s.vvTried[k]) == HomeSlot(s, s.vvTried[k]);
      assert (d.vvTried - {k})[k := id] == d.vvTried[k := id];
      PromoteKeepsCore(Evict(d, k), id);
    } else {
      PromoteKeepsCore(d, id);
    }
  }

  lemma MakeTriedInfo(s: State, id: int)
    requires Consistent(s) && id in s.mapInfo && !s.mapInfo[id].inTried && 0 < s.mapInfo[id].lastSuccess
    ensures PromotedInfo(s.mapInfo, id, Occupant(s.vvTried, TriedHome(s, id)), MakeTried(s, id).mapInfo)
    ensures forall x | x in s.mapInfo && x !in MakeTried(s, id).mapInfo ::
      var k := TriedHome(s, id);
      k in s.vvTried && Occupant(s.vvNew, HomeSlot(s, s.vvTried[k])) == x
  {
    hide Core, Evict, EvictedInfo, PromotedInfo;
    CoreIds(s);
    var d := DropAllRefs(s, id);
    assert forall j | j in d.vvNew :: d.vvNew[j] != id;
    hide Refs;
    DropAllRefsKeepsCore(s, id);
    var k := TriedHome(s, id);
    var n := MakeTried(s, id).mapInfo;
    if k in d.vvTried {
      CoreParts(s, k);
      EvictSpec(d, k);
      var prior := s.vvTried[k];
      var home := HomeSlot(d, prior);
      assert home == HomeSlot(s, prior) && prior != id;
      assert home in d.vvNew ==> home in s.vvNew && s.vvNew[home] == d.vvNew[home];
      EvictThenPromote(s.mapInfo, id, d.vvNew, prior, home, Evict(d, k).mapInfo, n);
    } else {
      JustPromote(s.mapInfo, id, n);
    }
  }

  lemma EvictThenPromote(m: InfoMap, id: int, t: Table, prior: int, home: Slot, e: InfoMap, n: InfoMap)
    requires id in m && prior != id && EvictedInfo(m[id := m[id].(nRefCount := 0)], t, prior, home, e)
    requires n == e[id := Rec(e, id).(inTried := true)] && (home in t ==> t[home] != id)
    ensures PromotedInfo(m, id, prior, n)
    ensures forall x | x in m && x !in n :: home in t && t[home] == x
  {
    var d := m[id := m[id].(nRefCount := 0)];
    assert id in d && id in e;
    forall x | x in n
      ensures x in m && SameButRefs(m[x].(inTried := x == id || (m[x].inTried && x != prior)), n[x])
    {
      assert x in e && x in d;
    }
    forall x | x in m && x !in n
      ensures home in t && t[home] == x
    {
      assert x in d && x !in e;
    }
  }

  lemma JustPromote(m: InfoMap, id: int, n: InfoMap)
    requires id in m && -1 !in m && n == m[id := m[id].(nRefCount := 0, inTried := true)]
    ensures PromotedInfo(m, id, -1, n) && forall x | x in m :: x in n
  {
  }

  // ---- Add ----

  function Max(a: int, b: int): int { if a < b then b else a }

  /** One announced address, with the clock and random values AddSingle reads. */
  datatype Announcement = Announcement(addr: Address, now: int, nowTerrible: int, rand: nat)

  function Refreshed(i: AddrInfo, a: Address, penalty: int, now: int): AddrInfo {
    var interval := if now - a.nTime < 24 * 3600 then 3600 else 24 * 3600;
    var j := if i.nTime < a.nTime - interval - penalty then i.(nTime := Max(0, a.nTime - penalty)) else i;
    j.(nServices := BothServices(j.nServices, a.nServices))
  }

  function BothServices(x: bv64, y: bv64): bv64 {
    x | y
  }

  /** The end of AddSingle: put `id` at the slot its source selects, if that
      slot is free, terrible or over-referenced. */
  function Place(s: State, id: int, source: NetAddr, now: int): (State, bool) {
    var i := Rec(s.mapInfo, id);
    var k := NewSlot(s.h, i.service, source);
    var there := Rec(s.mapInfo, Occupant(s.vvNew, k));
    if k in s.vvNew && s.vvNew[k] == id then (s, false)
    else if k !in s.vvNew || IsTerrible(there, now) || (there.nRefCount > 1 && i.nRefCount == 0) then
      (AddRef(ClearNew(s, k), k, id), true)
    else if i.nRefCount == 0 then (Delete(s, id), false)
    else (s, false)
  }

  /** Create, then apply the time penalty to the new record. */
  function Created(s: State, a: Address, source: NetAddr, penalty: int): State {
    var c := Create(s, a, source);
    var i := Rec(c.mapInfo, s.nIdCount);
    SetInfo(c, s.nIdCount, i.(nTime := Max(0, i.nTime - penalty)))
  }

  /** Nothing new to record for a known entry, or the dice say no. */
  predicate Unwanted(i: AddrInfo, a: Address, rand: nat) {
    || a.nTime <= i.nTime
    || i.inTried
    || i.nRefCount == NEW_BUCKETS_PER_ADDRESS
    || (i.nRefCount > 0 && rand % NatArith.Pow2(i.nRefCount) != 0)
  }

  function AddSingle(s: State, n: Announcement, source: NetAddr, timePenalty: int): (State, bool) {
    var a := n.addr;
    if !s.h.routable(a.service.net) then (s, false) else
    var penalty := if a.service.net == source then 0 else timePenalty;
    var id := Find(s, a.service);
    if id == -1 then
      Place(Created(s, a, source, penalty), s.nIdCount, source, n.nowTerrible)
    else
      var i := Refreshed(s.mapInfo[id], a, penalty, n.now);
      var t := SetInfo(s, id, i);
      if Unwanted(i, a, n.rand) then (t, false) else Place(t, id, source, n.nowTerrible)
  }

  function AddAll(s: State, ns: seq<Announcement>, source: NetAddr, timePenalty: int): (State, nat)
    decreases ns
  {
    if ns == [] then (s, 0) else
      var (t, ok) := AddSingle(s, ns[0], source, timePenalty);
      var (u, count) := AddAll(t, ns[1..], source, timePenalty);
      (u, count + if ok then 1 else 0)
  }

  /** Entries keep their address, their statistics and their table when others
      are placed: all that can happen to them is losing a reference, or going
      with the last one. */
  ghost predicate OthersKept(s: State, t: State, id: int) {
    && t.h == s.h && t.vvTried == s.vvTried && t.collisions == s.collisions && t.nIdCount >= s.nIdCount
    && (forall x | x in t.mapInfo && x != id :: x in s.mapInfo && SameButRefs(s.mapInfo[x], t.mapInfo[x]))
  }

  /** Place leaves no entry unplaced and reports whether the slot now holds `id` anew. */
  lemma PlaceSpec(s: State, id: int, source: NetAddr, now: int)
    requires Core(s) && id in s.mapInfo && !s.mapInfo[id].inTried
    requires s.mapInfo[id].nRefCount < NEW_BUCKETS_PER_ADDRESS
    requires OnlyUnplaced(s.mapInfo, {id})
    ensures Consistent(Place(s, id, source, now).0)
    ensures OthersKept(s, Place(s, id, source, now).0, id)
    ensures var r := Place(s, id, source, now);
      && (id in r.0.mapInfo ==> SameButRefs(s.mapInfo[id], r.0.mapInfo[id]))
      && (s.mapInfo[id].nRefCount > 0 ==> id in r.0.mapInfo)
      && r.0.vvNew == if r.1 then s.vvNew[NewSlot(s.h, s.mapInfo[id].service, source) := id] else s.vvNew
  {
    hide Core, ClearNew, Delete;
    var k := NewSlot(s.h, s.mapInfo[id].service, source);
    var r := Place(s, id, source, now);
    if k in s.vvNew && s.vvNew[k] == id {
      RefsOf(s, k);
      assert s.mapInfo[id].nRefCount >= 1;
    } else if r.1 {
      ClearNewKeepsCore(s, k);
      CoreEntry(ClearNew(s, k), id);
      AddRefKeepsCore(ClearNew(s, k), k, id);
      UnplacedAfterClear(s.mapInfo, s.vvNew, k, ClearNew(s, k).mapInfo, {id});
      assert (s.vvNew - {k})[k := id] == s.vvNew[k := id];
    } else if s.mapInfo[id].nRefCount == 0 {
      DeleteKeepsCore(s, id);
      DeleteFrame(s, id);
    }
  }

  lemma UnplacedAfterClear(m: InfoMap, t: Table, k: Slot, n: InfoMap, ids: set<int>)
    requires ClearedInfo(m, t, k, n) && OnlyUnplaced(m, ids)
    ensures OnlyUnplaced(n, ids)
  {
  }

  /** Candidates stay sound while tried slots stay taken and no candidate is promoted. */
  lemma CollisionsKept(s: State, t: State)
    requires CollisionsOk(s)
    requires t.h == s.h && t.collisions == s.collisions && s.nIdCount <= t.nIdCount
    requires forall k | k in s.vvTried :: k in t.vvTried
    requires forall x | x in t.collisions && x in t.mapInfo ::
      x in s.mapInfo && t.mapInfo[x].service == s.mapInfo[x].service && !t.mapInfo[x].inTried
    ensures CollisionsOk(t)
  {
  }

  /** What AddSingle may do to the state of an invariant-keeping manager. */
  lemma AddSingleKeepsInv(s: State, n: Announcement, source: NetAddr, timePenalty: int)
    requires Inv(s)
    ensures Inv(AddSingle(s, n, source, timePenalty).0)
    ensures AddSingle(s, n, source, timePenalty).0.vvTried == s.vvTried
  {
    hide Core, AddSingle;
    AddSingleConsistent(s, n, source, timePenalty);
    CollisionsKept(s, AddSingle(s, n, source, timePenalty).0);
  }

  /** Every entry that was there before and still is has kept its address and its table. */
  ghost predicate OldKept(s: State, t: State) {
    && t.h == s.h && t.collisions == s.collisions && s.nIdCount <= t.nIdCount && t.vvTried == s.vvTried
    && (forall x | x in t.mapInfo && x < s.nIdCount ::
          && x in s.mapInfo && t.mapInfo[x].service == s.mapInfo[x].service
          && t.mapInfo[x].inTried == s.mapInfo[x].inTried)
  }

  lemma AddSingleConsistent(s: State, n: Announcement, source: NetAddr, timePenalty: int)
    requires Consistent(s)
    ensures Consistent(AddSingle(s, n, source, timePenalty).0)
    ensures OldKept(s, AddSingle(s, n, source, timePenalty).0)
  {
    hide Core, Place, Unwanted, Created;
    var a := n.addr;
    var penalty := if a.service.net == source then 0 else timePenalty;
    var id := Find(s, a.service);
    if id != -1 {
      AddKnown(s, id, n, source, penalty);
    } else {
      CreatedSpec(s, a, source, penalty);
      PlaceSpec(Created(s, a, source, penalty), s.nIdCount, source, n.nowTerrible);
    }
  }

  lemma AddKnown(s: State, id: int, n: Announcement, source: NetAddr, penalty: int)
    requires Consistent(s) && id in s.mapInfo
    ensures var i := Refreshed(s.mapInfo[id], n.addr, penalty, n.now);
      var t := SetInfo(s, id, i);
      && Consistent(t) && OldKept(s, t)
      && (!Unwanted(i, n.addr, n.rand) ==>
            Consistent(Place(t, id, source, n.nowTerrible).0) && OldKept(s, Place(t, id, source, n.nowTerrible).0))
  {
    hide Core, Place, NatArith.Pow2;
    var i := Refreshed(s.mapInfo[id], n.addr, penalty, n.now);
    CoreEntry(s, id);
    TouchKeepsCore(s, id, i);
    var t := SetInfo(s, id, i);
    if !Unwanted(i, n.addr, n.rand) {
      PlaceSpec(t, id, source, n.nowTerrible);
    }
  }

  lemma CreatedSpec(s: State, a: Address, source: NetAddr, penalty: int)
    requires Consistent(s) && a.service !in s.mapAddr
    ensures var c := Created(s, a, source, penalty);
      && Core(c) && s.nIdCount in c.mapInfo
      && c.mapInfo[s.nIdCount] == FreshInfo(a, source, |s.vRandom|).(nTime := Max(0, a.nTime - penalty))
      && c.mapInfo == s.mapInfo[s.nIdCount := c.mapInfo[s.nIdCount]] && s.nIdCount !in s.mapInfo
      && c.h == s.h && c.collisions == s.collisions && c.nIdCount == s.nIdCount + 1
      && c.vvTried == s.vvTried && c.vvNew == s.vvNew
      && OnlyUnplaced(c.mapInfo, {s.nIdCount})
  {
    hide Core;
    CreateKeepsCore(s, a, source);
    var c := Create(s, a, source);
    var i := c.mapInfo[s.nIdCount];
    TouchKeepsCore(c, s.nIdCount, i.(nTime := Max(0, i.nTime - penalty)));
  }

  /** Adding an address never costs the manager an entry that is worth keeping:
      whatever disappears was terrible at that moment. */
  lemma AddLosesOnlyTerrible(s: State, n: Announcement, source: NetAddr, timePenalty: int, x: int)
    requires Consistent(s) && x in s.mapInfo && x !in AddSingle(s, n, source, timePenalty).0.mapInfo
    ensures IsTerrible(s.mapInfo[x], n.nowTerrible)
  {
    hide Core, Place, Unwanted, Created, IsTerrible, Refreshed;
    var a := n.addr;
    var penalty := if a.service.net == source then 0 else timePenalty;
    var id := Find(s, a.service);
    if id != -1 {
      KnownLosesOnlyTerrible(s, id, n, source, penalty, x);
    } else {
      CoreIds(s);
      CreatedSpec(s, a, source, penalty);
      PlaceLosesOnlyTerrible(Created(s, a, source, penalty), s.nIdCount, source, n.nowTerrible, x);
    }
  }

  lemma KnownLosesOnlyTerrible(s: State, id: int, n: Announcement, source: NetAddr, penalty: int, x: int)
    requires Consistent(s) && id in s.mapInfo && x in s.mapInfo
    requires var i := Refreshed(s.mapInfo[id], n.addr, penalty, n.now);
      !Unwanted(i, n.addr, n.rand) && x !in Place(SetInfo(s, id, i), id, source, n.nowTerrible).0.mapInfo
    ensures IsTerrible(s.mapInfo[x], n.nowTerrible)
  {
    hide Core, Place, Unwanted, IsTerrible;
    var i := Refreshed(s.mapInfo[id], n.addr, penalty, n.now);
    CoreEntry(s, id);
    TouchKeepsCore(s, id, i);
    KnownPlaced(s, id, i, n);
    PlaceSpec(SetInfo(s, id, i), id, source, n.nowTerrible);
    PlaceLosesOnlyTerrible(SetInfo(s, id, i), id, source, n.nowTerrible, x);
  }

  lemma KnownPlaced(s: State, id: int, i: AddrInfo, n: Announcement)
    requires Consistent(s) && id in s.mapInfo
    requires i.inTried == s.mapInfo[id].inTried && i.nRefCount == s.mapInfo[id].nRefCount
    requires !Unwanted(i, n.addr, n.rand)
    ensures !i.inTried && 0 < i.nRefCount < NEW_BUCKETS_PER_ADDRESS
  {
    hide Core, NatArith.Pow2;
    CoreEntry(s, id);
  }

  lemma PlaceLosesOnlyTerrible(s: State, id: int, source: NetAddr, now: int, x: int)
    requires Core(s) && id in s.mapInfo && x in s.mapInfo && x !in Place(s, id, source, now).0.mapInfo
    requires !s.mapInfo[id].inTried && (x == id ==> s.mapInfo[id].nRefCount > 0)
    ensures IsTerrible(s.mapInfo[x], now)
  {
    hide Core, ClearNew, Delete, IsTerrible;
    var k := NewSlot(s.h, s.mapInfo[id].service, source);
    ClearNewKeepsCore(s, k);
    if s.mapInfo[id].nRefCount == 0 {
      DeleteKeepsCore(s, id);
    }
  }
}
