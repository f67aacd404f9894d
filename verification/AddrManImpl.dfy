/** `AddrManImpl` as the source runs it: fields updated in place, the two
    tables as arrays with -1 for a free slot, and the scanning loops.  Every
    method is proved to have exactly the effect of its specification function. */
module AddrManImpl {
  import opened AddrManTypes
  import opened AddrManPrimitives
  import opened AddrManOps
  import opened AddrManRuns
  import opened AddrManCheck
  import NatArith

  function TableOf(a: array2<int>): (t: Table)
    reads a
  {
    map k: Slot | k in Grid(a.Length0, a.Length1) && a[k.0, k.1] != -1 :: a[k.0, k.1]
  }

  function Grid(n: nat, m: nat): (g: set<Slot>)
    ensures forall k: Slot :: k in g <==> 0 <= k.0 < n && 0 <= k.1 < m
  {
    set b, i | 0 <= b < n && 0 <= i < m :: (b, i)
  }

  method SetSlot(a: array2<int>, b: int, i: int, x: int)
    requires 0 <= b < a.Length0 && 0 <= i < a.Length1
    modifies a
    ensures a[b, i] == x
    ensures TableOf(a) == (if x == -1 then old(TableOf(a)) - {(b, i)} else old(TableOf(a))[(b, i) := x])
  {
    a[b, i] := x;
  }

  lemma TableAt(a: array2<int>, b: int, i: int)
    requires 0 <= b < a.Length0 && 0 <= i < a.Length1
    ensures (b, i) in TableOf(a) <==> a[b, i] != -1
    ensures a[b, i] != -1 ==> TableOf(a)[(b, i)] == a[b, i]
    ensures Occupant(TableOf(a), (b, i)) == a[b, i]
  {
  }

  class AddrMan {
    const h: Hashing
    var nIdCount: int
    var mapInfo: InfoMap
    var mapAddr: map<Service, int>
    var vRandom: seq<int>
    var nTried: int
    const vvTried: array2<int>
    var nNew: int
    const vvNew: array2<int>
    var lastGood: int
    var collisions: set<int>
    var counts: NetCounts

    ghost predicate Shaped() {
      && vvNew.Length0 == NEW_BUCKET_COUNT && vvNew.Length1 == BUCKET_SIZE
      && vvTried.Length0 == TRIED_BUCKET_COUNT && vvTried.Length1 == BUCKET_SIZE
      && vvNew != vvTried
    }

    function View(): State
      reads this, vvNew, vvTried
    {
      State(h, nIdCount, mapInfo, mapAddr, vRandom, nTried, TableOf(vvTried), nNew, TableOf(vvNew),
            lastGood, collisions, counts)
    }

    constructor (h: Hashing)
      ensures Shaped() && View() == Empty(h)
      ensures fresh(vvNew) && fresh(vvTried)
    {
      this.h := h;
      nIdCount, nTried, nNew, lastGood := 0, 0, 0, 1;
      mapInfo, mapAddr, vRandom, collisions, counts := map[], map[], [], {}, map[];
      var tried := new int[TRIED_BUCKET_COUNT, BUCKET_SIZE]((i, j) => -1);
      var fresh_ := new int[NEW_BUCKET_COUNT, BUCKET_SIZE]((i, j) => -1);
      vvTried, vvNew := tried, fresh_;
    }

    method SwapRandom(p: int, q: int)
      requires p != q ==> Swappable(View(), p, q)
      modifies this`vRandom, this`mapInfo
      ensures View() == AddrManPrimitives.SwapRandom(old(View()), p, q)
    {
      if p == q { return; }
      var a, b := vRandom[p], vRandom[q];
      mapInfo := mapInfo[a := mapInfo[a].(randomPos := q)];
      mapInfo := mapInfo[b := mapInfo[b].(randomPos := p)];
      vRandom := vRandom[p := b][q := a];
    }

    method Delete(id: int)
      requires RandomOk(mapInfo, vRandom) && Deletable(View(), id)
      modifies this`vRandom, this`mapInfo, this`mapAddr, this`nNew, this`counts
      ensures View() == AddrManPrimitives.Delete(old(View()), id)
    {
      hide RandomOk, TableOf, Bump, Swappable;
      ghost var p, last := DeletePlaces(View(), id);
      var info := mapInfo[id];
      SwapRandom(info.randomPos, |vRandom| - 1);
      counts := Bump(counts, info.service.net.network, -1, 0);
      vRandom := vRandom[..|vRandom| - 1];
      mapAddr := mapAddr - {info.service};
      mapInfo := mapInfo - {id};
      nNew := nNew - 1;
    }

    method ClearNew(b: int, i: int)
      requires Shaped() && Core(View()) && 0 <= b < NEW_BUCKET_COUNT && 0 <= i < BUCKET_SIZE
      modifies this`vRandom, this`mapInfo, this`mapAddr, this`nNew, this`counts, vvNew
      ensures View() == AddrManPrimitives.ClearNew(old(View()), (b, i))
      ensures vvNew[b, i] == -1
    {
      hide Core, AddrManPrimitives.Delete;
      TableAt(vvNew, b, i);
      if vvNew[b, i] != -1 {
        var id := vvNew[b, i];
        ghost var s := View();
        RefsOf(s, (b, i));
        DropRefKeepsCore(s, (b, i));
        var info := mapInfo[id];
        assert info.nRefCount > 0;
        mapInfo := mapInfo[id := info.(nRefCount := info.nRefCount - 1)];
        SetSlot(vvNew, b, i, -1);
        assert View() == DropRef(s, (b, i));
        if mapInfo[id].nRefCount == 0 {
          CoreParts(View(), (b, i));
          Delete(id);
        }
      }
    }

    /** One reference goes. */
    method DropAt(id: int, info: AddrInfo, bucket: int, pos: int) returns (dropped: AddrInfo)
      requires Shaped() && 0 <= bucket < NEW_BUCKET_COUNT && 0 <= pos < BUCKET_SIZE
      modifies this`mapInfo, vvNew
      ensures dropped == info.(nRefCount := info.nRefCount - 1) && mapInfo == old(mapInfo)[id := dropped]
      ensures TableOf(vvNew) == old(TableOf(vvNew)) - {(bucket, pos)} && TableOf(vvTried) == old(TableOf(vvTried))
    {
      hide TableOf;
      SetSlot(vvNew, bucket, pos, -1);
      dropped := info.(nRefCount := info.nRefCount - 1);
      mapInfo := mapInfo[id := dropped];
    }

    /** The bucket scan of MakeTried visits one position in each new bucket,
        starting at the entry's own bucket and stopping as soon as the count is
        zero.  It finds every reference. */
    method DropAllRefs(id: int)
      requires Shaped() && Core(View()) && id in mapInfo && !mapInfo[id].inTried
      modifies this`mapInfo, vvNew
      ensures mapInfo == old(mapInfo)[id := old(mapInfo[id]).(nRefCount := 0)]
      ensures TableOf(vvNew) == old(TableOf(vvNew)) - Refs(old(TableOf(vvNew)), id)
      ensures TableOf(vvTried) == old(TableOf(vvTried))
    {
      hide Core, TableOf, Position, NewBucket, Refs, Scanned, Occupant;
      ghost var s := View();
      ghost var m0, t0 := mapInfo, TableOf(vvNew);
      ghost var refs := Refs(t0, id);
      assert s.h == h && s.mapInfo == m0 && s.vvNew == t0 && s.vvTried == TableOf(vvTried);
      RefsFacts(s, id);
      hide View;
      var info := mapInfo[id];
      var start := NewBucket(h, info.service, info.source);
      NothingScanned(refs, start);
      assert t0 - {} == t0 && m0[id := info] == m0;
      var n := 0;
      while n < NEW_BUCKET_COUNT
        invariant 0 <= n <= NEW_BUCKET_COUNT
        invariant mapInfo == m0[id := info]
        invariant TableOf(vvTried) == s.vvTried
        invariant TableOf(vvNew) == t0 - Scanned(refs, start, n)
        invariant info == m0[id].(nRefCount := |refs| - |Scanned(refs, start, n)|)
      {
        var bucket := (start + n) % NEW_BUCKET_COUNT;
        var pos := Position(h, true, bucket, info.service);
        TableAt(vvNew, bucket, pos);
        ScanStep(s, id, refs, start, n);
        n := n + 1;
        if vvNew[bucket, pos] == id {
          info := DropAt(id, info, bucket, pos);
          MinusTwice(t0, Scanned(refs, start, n - 1), (bucket, pos), Scanned(refs, start, n));
          if info.nRefCount == 0 {
            ScannedAll(refs, Scanned(refs, start, n));
            break;
          }
        }
      }
      if n == NEW_BUCKET_COUNT {
        EverythingScanned(s, id, refs, start);
      }
      assert Scanned(refs, start, n) == refs;
      assert info.nRefCount == 0;
    }

    /** Move an entry from the new table to the tried table. */
    method MakeTried(id: int)
      requires Shaped() && Consistent(View()) && id in mapInfo && !mapInfo[id].inTried && 0 < mapInfo[id].lastSuccess
      modifies this, vvNew, vvTried
      ensures View() == AddrManOps.MakeTried(old(View()), id)
    {
      hide Core, AddrManPrimitives.DropAllRefs, AddrManOps.Evict, TableOf, Bump;
      hide EvictedInfo, HomeSlot, OnlyUnplaced, Occupant;
      ghost var s := View();
      CoreEntry(s, id);
      DropAllRefsKeepsCore(s, id);
      DropAllRefs(id);
      ghost var d := View();
      DropAllFacts(s, id);
      assert d == AddrManPrimitives.DropAllRefs(s, id);
      var info := mapInfo[id];
      assert info.nRefCount == 0;
      var b := h.tried(info.service) % TRIED_BUCKET_COUNT;
      var i := Position(h, false, b, info.service);
      TableAt(vvTried, b, i);
      if vvTried[b, i] != -1 {
        EvictKeeps(d, (b, i), id);
        Evict(b, i);
      }
      hide Promote;
      TableAt(vvTried, b, i);
      assert vvTried[b, i] == -1;
      Promoted(id, b, i);
    }

    /** The record takes the free tried slot. */
    method Promoted(id: int, b: int, i: int)
      requires Shaped() && id in mapInfo && 0 <= b < TRIED_BUCKET_COUNT && 0 <= i < BUCKET_SIZE
      requires id >= 0 && vvTried[b, i] == -1 && TriedSlot(h, mapInfo[id].service) == (b, i)
      modifies this, vvTried
      ensures View() == Promote(old(View()), id)
    {
      hide TableOf, Bump;
      SetSlot(vvTried, b, i, id);
      nTried, nNew := nTried + 1, nNew - 1;
      mapInfo := mapInfo[id := mapInfo[id].(inTried := true)];
      counts := Bump(counts, mapInfo[id].service.net.network, -1, 1);
    }

    /** The record in a tried slot leaves it. */
    method Demoted(b: int, i: int)
      requires Shaped() && 0 <= b < TRIED_BUCKET_COUNT && 0 <= i < BUCKET_SIZE && vvTried[b, i] in mapInfo
      requires (b, i) in TableOf(vvTried) && TableOf(vvTried)[(b, i)] == vvTried[b, i]
      modifies this, vvTried
      ensures View() == Demote(old(View()), (b, i))
    {
      hide TableOf, Bump;
      var id := vvTried[b, i];
      var infoOld := mapInfo[id];
      mapInfo := mapInfo[id := infoOld.(inTried := false)];
      SetSlot(vvTried, b, i, -1);
      nTried, nNew := nTried - 1, nNew + 1;
      counts := Bump(counts, infoOld.service.net.network, 1, -1);
    }

    /** The existing tried entry is moved to new, deleting whatever is there. */
    method Evict(b: int, i: int)
      requires Shaped() && Core(View())
      requires 0 <= b < TRIED_BUCKET_COUNT && 0 <= i < BUCKET_SIZE && vvTried[b, i] != -1
      requires (b, i) in TableOf(vvTried)
      modifies this, vvNew, vvTried
      ensures View() == AddrManOps.Evict(old(View()), (b, i))
    {
      hide Core, AddrManPrimitives.ClearNew, TableOf, Bump, ClearedInfo;
      TableAt(vvTried, b, i);
      ghost var s := View();
      DemoteKeepsCore(s, (b, i));
      var id := vvTried[b, i];
      var infoOld := mapInfo[id];
      Demoted(b, i);
      ghost var d := View();
      var ub := NewBucket(h, infoOld.service, infoOld.source);
      var up := Position(h, true, ub, infoOld.service);
      CoreEntry(s, id);
      ClearNewKeepsCore(d, (ub, up));
      ClearNew(ub, up);
      assert vvNew[ub, up] == -1;
      ghost var c := View();
      EvictedHasNoRef(s, (b, i), (ub, up), c);
      mapInfo := mapInfo[id := mapInfo[id].(nRefCount := 1)];
      SetSlot(vvNew, ub, up, id);
      assert View() == AddRef(c, (ub, up), id);
    }

    method Create(a: Address, source: NetAddr) returns (id: int)
      modifies this
      ensures View() == AddrManPrimitives.Create(old(View()), a, source) && id == old(nIdCount)
    {
      hide TableOf, Bump;
      id := nIdCount;
      nIdCount := nIdCount + 1;
      mapInfo := mapInfo[id := FreshInfo(a, source, |vRandom|)];
      mapAddr := mapAddr[a.service := id];
      vRandom := vRandom + [id];
      nNew := nNew + 1;
      counts := Bump(counts, a.service.net.network, 1, 0);
    }

    /** The end of AddSingle, from the choice of slot on. */
    method Place(id: int, source: NetAddr, now: int) returns (inserted: bool)
      requires Shaped() && Core(View()) && id in mapInfo && !mapInfo[id].inTried
      modifies this, vvNew
      ensures (View(), inserted) == AddrManOps.Place(old(View()), id, source, now)
    {
      hide Core, TableOf, AddrManPrimitives.ClearNew, AddrManPrimitives.Delete, IsTerrible, ClearedInfo, Occupant;
      ghost var s := View();
      CoreEntry(s, id);
      var b := NewBucket(h, mapInfo[id].service, source);
      var i := Position(h, true, b, mapInfo[id].service);
      TableAt(vvNew, b, i);
      CoreParts(s, (b, i));
      inserted := vvNew[b, i] == -1;
      if vvNew[b, i] != id {
        if !inserted {
          var existing := mapInfo[vvNew[b, i]];
          if IsTerrible(existing, now) || (existing.nRefCount > 1 && mapInfo[id].nRefCount == 0) {
            inserted := true;
          }
        }
        if inserted {
          ClearedOther(s, (b, i), id);
          ClearNew(b, i);
          ghost var c := View();
          mapInfo := mapInfo[id := mapInfo[id].(nRefCount := mapInfo[id].nRefCount + 1)];
          SetSlot(vvNew, b, i, id);
          assert View() == AddRef(c, (b, i), id);
        } else if mapInfo[id].nRefCount == 0 {
          Delete(id);
        }
      }
    }

    method AddSingle(n: Announcement, source: NetAddr, timePenalty: int) returns (inserted: bool)
      requires Shaped() && Consistent(View())
      modifies this, vvNew
      ensures (View(), inserted) == AddrManOps.AddSingle(old(View()), n, source, timePenalty)
    {
      hide Core, TableOf, AddrManOps.Place, AddrManPrimitives.Create, Refreshed, NatArith.Pow2, OnlyUnplaced;
      ghost var s := View();
      var a := n.addr;
      if !h.routable(a.service.net) { return false; }
      var penalty := if a.service.net == source then 0 else timePenalty;
      var id := -1;
      if a.service in mapAddr && mapAddr[a.service] in mapInfo {
        id := mapAddr[a.service];
      }
      assert id == Find(s, a.service);
      if id != -1 {
        var info := Refreshed(mapInfo[id], a, penalty, n.now);
        RefreshedKeepsCore(s, id, a, penalty, n.now);
        mapInfo := mapInfo[id := info];
        assert View() == SetInfo(s, id, info);
        if a.nTime <= info.nTime { return false; }
        if info.inTried { return false; }
        if info.nRefCount == NEW_BUCKETS_PER_ADDRESS { return false; }
        if info.nRefCount > 0 && n.rand % NatArith.Pow2(info.nRefCount) != 0 { return false; }
      } else {
        CreatedSpec(s, a, source, penalty);
        id := Create(a, source);
        CreateFacts(s, a, source);
        mapInfo := mapInfo[id := mapInfo[id].(nTime := Max(0, mapInfo[id].nTime - penalty))];
        assert View() == Created(s, a, source, penalty);
      }
      inserted := Place(id, source, n.nowTerrible);
    }

    method Add(news: seq<Announcement>, source: NetAddr, timePenalty: int) returns (anyAdded: bool)
      requires Shaped() && Inv(View())
      modifies this, vvNew
      ensures Inv(View()) && View() == AddAll(old(View()), news, source, timePenalty).0
      ensures anyAdded <==> AddAll(old(View()), news, source, timePenalty).1 > 0
    {
      hide Inv, AddrManOps.AddSingle;
      ghost var s := View();
      var added := 0;
      var it := 0;
      while it < |news|
        invariant 0 <= it <= |news| && added >= 0 && Inv(View())
        invariant AddAll(View(), news[it..], source, timePenalty).0 == AddAll(s, news, source, timePenalty).0
        invariant AddAll(View(), news[it..], source, timePenalty).1 + added == AddAll(s, news, source, timePenalty).1
      {
        InvConsistent(View());
        AddSingleKeepsInv(View(), news[it], source, timePenalty);
        assert news[it..][0] == news[it] && news[it..][1..] == news[it + 1..];
        var ok := AddSingle(news[it], source, timePenalty);
        added := added + if ok then 1 else 0;
        it := it + 1;
      }
      anyAdded := added > 0;
    }

    method Good(a: Service, testBeforeEvict: bool, time: int) returns (moved: bool)
      requires Shaped() && Consistent(View()) && 0 < time
      modifies this, vvNew, vvTried
      ensures (View(), moved) == AddrManRuns.Good(old(View()), a, testBeforeEvict, time)
    {
      hide Core, TableOf, AddrManOps.MakeTried, OnlyUnplaced, Occupant;
      ghost var s := View();
      lastGood := time;
      var id := -1;
      if a in mapAddr && mapAddr[a] in mapInfo {
        id := mapAddr[a];
      }
      assert id == Find(s, a);
      if id == -1 { return false; }
      GoodMarks(s, id, time);
      mapInfo := mapInfo[id := MarkedGood(mapInfo[id], time)];
      ghost var t := View();
      assert t == SetInfo(s.(lastGood := time), id, MarkedGood(s.mapInfo[id], time));
      var info := mapInfo[id];
      if info.inTried { return false; }
      assert info.nRefCount > 0;
      var b := h.tried(info.service) % TRIED_BUCKET_COUNT;
      var i := Position(h, false, b, info.service);
      TableAt(vvTried, b, i);
      if testBeforeEvict && vvTried[b, i] != -1 {
        if |collisions| < SET_TRIED_COLLISION_SIZE {
          collisions := collisions + {id};
        }
        return false;
      }
      MakeTried(id);
      return true;
    }

    method Attempt(a: Service, countFailure: bool, time: int)
      modifies this`mapInfo
      ensures View() == AddrManRuns.Attempt(old(View()), a, countFailure, time)
    {
      hide Core, TableOf;
      if a in mapAddr && mapAddr[a] in mapInfo && mapAddr[a] != -1 {
        var id := mapAddr[a];
        mapInfo := mapInfo[id := mapInfo[id].(lastTry := time)];
        if countFailure && mapInfo[id].lastCountAttempt < lastGood {
          mapInfo := mapInfo[id := mapInfo[id].(lastCountAttempt := time, nAttempts := mapInfo[id].nAttempts + 1)];
        }
      }
    }

    /** GetAddr_ shuffles vRandom as it draws. */
    method GetAddr(maxAddresses: nat, maxPct: nat, network: set<Network>, now: int, rand: nat -> nat)
      returns (addresses: seq<Address>)
      requires Core(View())
      modifies this`vRandom, this`mapInfo
      ensures (View(), addresses) == AddrManRuns.GetAddr(old(View()), maxAddresses, maxPct, network, now, rand)
    {
      hide Core, TableOf, Qualifies, AddrManPrimitives.SwapRandom, Draw;
      ghost var s := View();
      var want := Wanted(|vRandom|, maxAddresses, maxPct);
      addresses := [];
      var n := 0;
      while n < |vRandom|
        invariant 0 <= n <= |vRandom| && Core(View())
        invariant GetAddrFrom(View(), n, want, network, now, rand, addresses)
               == GetAddrFrom(s, 0, want, network, now, rand, [])
      {
        if |addresses| >= want { break; }
        var q := Draw(rand(n), n, |vRandom|);
        SwapFacts(View(), n, q);
        CanSwap(View(), n, q);
        SwapRandom(n, q);
        CanSwap(View(), n, n);
        var info := mapInfo[vRandom[n]];
        if Qualifies(h, info, network, now) {
          addresses := addresses + [ToAddress(info)];
        }
        n := n + 1;
      }
    }

    /** One pass over the collision set, in ascending order; the set is edited
        as the pass goes. */
    method ResolveCollisions(clock: int -> int)
      requires Shaped() && Inv(View()) && forall x :: 0 < clock(x)
      modifies this, vvNew, vvTried
      ensures Inv(View()) && View() == Resolve(old(View()), old(collisions), clock)
    {
      hide Inv, AddrManRuns.ResolveOne;
      ghost var s := View();
      var todo := collisions;
      while todo != {}
        invariant Inv(View()) && todo <= collisions
        invariant Resolve(View(), todo, clock) == Resolve(s, s.collisions, clock)
        decreases |todo|
      {
        LeastExists(todo);
        var id :| id in todo && forall x | x in todo :: id <= x;
        assert id == Least(todo);
        InvConsistent(View());
        ResolveOneKeepsInv(View(), id, clock(id));
        ResolveOne(id, clock(id));
        todo := todo - {id};
      }
    }

    method ResolveOne(id: int, now: int)
      requires Shaped() && Consistent(View()) && 0 < now
      modifies this, vvNew, vvTried
      ensures View() == AddrManRuns.ResolveOne(old(View()), id, now)
    {
      hide Core, TableOf, AddrManRuns.Good, OnlyUnplaced, Occupant;
      ghost var s := View();
      var erase := false;
      if id !in mapInfo {
        erase := true;
      } else {
        var info := mapInfo[id];
        CoreEntry(s, id);
        var b := h.tried(info.service) % TRIED_BUCKET_COUNT;
        var i := Position(h, false, b, info.service);
        TableAt(vvTried, b, i);
        if !h.valid(info.service.net) {
          erase := true;
        } else if vvTried[b, i] != -1 {
          CoreParts(s, (b, i));
          var infoOld := mapInfo[vvTried[b, i]];
          if now - infoOld.lastSuccess < REPLACEMENT {
            erase := true;
          } else if now - infoOld.lastTry < REPLACEMENT {
            if now - infoOld.lastTry > 60 {
              var _ := Good(info.service, false, now);
              erase := true;
            }
          } else if now - info.lastSuccess > TEST_WINDOW {
            var _ := Good(info.service, false, now);
            erase := true;
          }
        } else {
          var _ := Good(info.service, false, now);
          erase := true;
        }
      }
      if erase {
        collisions := collisions - {id};
      }
    }

    method Connected(a: Service, time: int)
      modifies this`mapInfo
      ensures View() == AddrManRuns.Connected(old(View()), a, time)
    {
      hide TableOf;
      if a in mapAddr && mapAddr[a] in mapInfo && mapAddr[a] != -1 {
        var id := mapAddr[a];
        if time - mapInfo[id].nTime > 20 * 60 {
          mapInfo := mapInfo[id := mapInfo[id].(nTime := time)];
        }
      }
    }

    method SetServices(a: Service, services: bv64)
      modifies this`mapInfo
      ensures View() == AddrManRuns.SetServices(old(View()), a, services)
    {
      hide TableOf;
      if a in mapAddr && mapAddr[a] in mapInfo && mapAddr[a] != -1 {
        var id := mapAddr[a];
        mapInfo := mapInfo[id := mapInfo[id].(nServices := services)];
      }
    }

    /** `id` is the member drawn from the collision set. */
    method SelectTriedCollision(id: int) returns (info: AddrInfo)
      requires Shaped() && Inv(View())
      modifies this`collisions
      ensures (View(), info) == AddrManRuns.SelectTriedCollision(old(View()), id)
    {
      hide Core, TableOf, Occupant;
      if id !in collisions {
        return DEFAULT_INFO;
      }
      if id !in mapInfo {
        collisions := collisions - {id};
        return DEFAULT_INFO;
      }
      SelectReadsExisting(View(), id);
      var candidate := mapInfo[id];
      var b := h.tried(candidate.service) % TRIED_BUCKET_COUNT;
      var i := Position(h, false, b, candidate.service);
      TableAt(vvTried, b, i);
      info := mapInfo[vvTried[b, i]];
    }

    method Do(op: Op)
      requires Shaped() && Inv(View()) && Timely(op)
      modifies this, vvNew, vvTried
      ensures Inv(View()) && View() == Step(old(View()), op)
    {
      StepKeepsInv(View(), op);
      InvConsistent(View());
      hide Inv, AddAll, AddrManRuns.Good, AddrManRuns.Attempt, AddrManRuns.Connected, AddrManRuns.SetServices,
           AddrManRuns.GetAddr, Resolve, AddrManRuns.SelectTriedCollision;
      match op {
        case OpAdd(news, source, penalty) =>
          var _ := Add(news, source, penalty);
        case OpGood(a, time) =>
          var _ := Good(a, true, time);
        case OpAttempt(a, countFailure, time) =>
          Attempt(a, countFailure, time);
        case OpConnected(a, time) =>
          Connected(a, time);
        case OpSetServices(a, services) =>
          SetServices(a, services);
        case OpGetAddr(maxA, maxP, network, now, rand) =>
          var _ := GetAddr(maxA, maxP, network, now, rand);
        case OpResolveCollisions(clock) =>
          ResolveCollisions(clock);
        case OpSelectTriedCollision(id) =>
          var _ := SelectTriedCollision(id);
      }
    }

    /** Any run of public operations: the tables do what the specification says,
        and after it the consistency check accepts them. */
    method Perform(ops: seq<Op>)
      requires Shaped() && Inv(View()) && forall op | op in ops :: Timely(op)
      modifies this, vvNew, vvTried
      ensures Inv(View()) && View() == Run(old(View()), ops) && Checked(View())
    {
      hide Inv, Step, Timely, Checked;
      ghost var s := View();
      var n := 0;
      while n < |ops|
        invariant 0 <= n <= |ops| && Inv(View())
        invariant Run(View(), ops[n..]) == Run(s, ops)
      {
        assert ops[n] in ops;
        assert ops[n..][0] == ops[n] && ops[n..][1..] == ops[n + 1..];
        Do(ops[n]);
        n := n + 1;
      }
      InvConsistent(View());
      ConsistentPasses(View());
    }
  }

  /** From an empty manager, every run keeps every test of CheckAddrman happy. */
  lemma EveryRunPasses(h: Hashing, ops: seq<Op>)
    requires forall op | op in ops :: Timely(op)
    ensures Checked(Run(Empty(h), ops))
  {
    hide Consistent, CollisionsOk, Checked, Run, Timely;
    ReachableIsConsistent(h, ops);
    ConsistentPasses(Run(Empty(h), ops));
  }

  lemma LeastExists(c: set<int>)
    requires c != {}
    ensures exists id :: id in c && forall x | x in c :: id <= x
  {
    var m := Least(c);
  }

  lemma InvConsistent(s: State)
    requires Inv(s)
    ensures Consistent(s)
  {
    hide Consistent, CollisionsOk;
  }

  lemma CanSwap(s: State, p: int, q: int)
    requires Core(s) && 0 <= p < |s.vRandom| && 0 <= q < |s.vRandom|
    ensures Swappable(s, p, q)
  {
    hide EntriesOk, AddrOk, CountersOk, NewTableOk, TriedTableOk;
  }

  lemma ClearedOther(s: State, k: Slot, id: int)
    requires Core(s) && id in s.mapInfo && Occupant(s.vvNew, k) != id
    ensures id in AddrManPrimitives.ClearNew(s, k).mapInfo
  {
    hide Core, AddrManPrimitives.ClearNew;
    ClearNewKeepsCore(s, k);
  }

  lemma CreateFacts(s: State, a: Address, source: NetAddr)
    ensures var c := AddrManPrimitives.Create(s, a, source);
      s.nIdCount in c.mapInfo && c.mapInfo[s.nIdCount] == FreshInfo(a, source, |s.vRandom|)
  {
  }

  lemma RefreshedKeepsCore(s: State, id: int, a: Address, penalty: int, now: int)
    requires Core(s) && id in s.mapInfo
    ensures Core(SetInfo(s, id, Refreshed(s.mapInfo[id], a, penalty, now)))
    ensures var i := Refreshed(s.mapInfo[id], a, penalty, now);
      i.inTried == s.mapInfo[id].inTried && i.nRefCount == s.mapInfo[id].nRefCount
  {
    hide Core, Refreshed, EntryOk;
    CoreEntry(s, id);
    RefreshedFields(s.mapInfo[id], a, penalty, now);
    TouchKeepsCore(s, id, Refreshed(s.mapInfo[id], a, penalty, now));
  }

  lemma RefreshedFields(i: AddrInfo, a: Address, penalty: int, now: int)
    ensures var j := Refreshed(i, a, penalty, now);
      && SamePlace(i, j) && j.inTried == i.inTried && j.nRefCount == i.nRefCount
      && (EntryOk(i) ==> EntryOk(j))
  {
    hide Max;
  }

  // ---- The bucket scan ----

  /** Distance from the start bucket in scan order. */
  function Distance(start: int, bucket: int): int {
    (bucket - start) % NEW_BUCKET_COUNT
  }

  function Scanned(refs: set<Slot>, start: int, n: int): set<Slot> {
    set k | k in refs && Distance(start, k.0) < n
  }

  lemma RefsFacts(s: State, id: int)
    requires Core(s) && id in s.mapInfo
    ensures |Refs(s.vvNew, id)| == s.mapInfo[id].nRefCount
    ensures forall k | k in Refs(s.vvNew, id) ::
      0 <= k.0 < NEW_BUCKET_COUNT && k.1 == Position(s.h, true, k.0, s.mapInfo[id].service)
  {
    hide EntriesOk, AddrOk, CountersOk, TriedTableOk, RandomOk;
  }

  lemma NothingScanned(refs: set<Slot>, start: int)
    ensures Scanned(refs, start, 0) == {}
  {
  }

  /** Bucket number n of the scan is the only one at distance n, and holds at
      most one reference to an entry. */
  lemma ScanStep(s: State, id: int, refs: set<Slot>, start: int, n: int)
    requires Core(s) && id in s.mapInfo && refs == Refs(s.vvNew, id)
    requires 0 <= start < NEW_BUCKET_COUNT && 0 <= n < NEW_BUCKET_COUNT
    ensures var bucket := (start + n) % NEW_BUCKET_COUNT;
      var k := (bucket, Position(s.h, true, bucket, s.mapInfo[id].service));
      && (Occupant(s.vvNew - Scanned(refs, start, n), k) == id ==>
            k !in Scanned(refs, start, n) && Scanned(refs, start, n + 1) == Scanned(refs, start, n) + {k})
      && (Occupant(s.vvNew - Scanned(refs, start, n), k) != id ==>
            Scanned(refs, start, n + 1) == Scanned(refs, start, n))
      && Scanned(refs, start, n + 1) <= refs
  {
    hide Core;
    RefsFacts(s, id);
    CoreIds(s);
    var bucket := (start + n) % NEW_BUCKET_COUNT;
    var k := (bucket, Position(s.h, true, bucket, s.mapInfo[id].service));
    assert Distance(start, bucket) == n;
    forall j | j in refs && Distance(start, j.0) == n ensures j == k {
    }
    assert k in refs <==> Occupant(s.vvNew, k) == id;
  }

  lemma MinusTwice(t: Table, a: set<Slot>, k: Slot, b: set<Slot>)
    requires b == a + {k}
    ensures (t - a) - {k} == t - b
  {
  }

  lemma {:induction false} ScannedAll(refs: set<Slot>, seen: set<Slot>)
    requires seen <= refs && |seen| == |refs|
    ensures seen == refs
  {
    if x :| x in refs && x !in seen {
      SubsetCard(seen, refs - {x});
    }
  }

  lemma EverythingScanned(s: State, id: int, refs: set<Slot>, start: int)
    requires Core(s) && id in s.mapInfo && refs == Refs(s.vvNew, id)
    ensures Scanned(refs, start, NEW_BUCKET_COUNT) == refs
  {
  }

  lemma DropAllFacts(s: State, id: int)
    requires id in s.mapInfo
    ensures var d := AddrManPrimitives.DropAllRefs(s, id);
      d == s.(mapInfo := s.mapInfo[id := s.mapInfo[id].(nRefCount := 0)], vvNew := s.vvNew - Refs(s.vvNew, id))
  {
  }

  lemma EvictKeeps(s: State, k: Slot, id: int)
    requires Core(s) && k in s.vvTried && id in s.mapInfo && s.mapInfo[id].nRefCount == 0 && !s.mapInfo[id].inTried
    ensures var e := AddrManOps.Evict(s, k);
      && k !in e.vvTried && id in e.mapInfo && e.h == s.h && e.mapInfo[id].service == s.mapInfo[id].service
  {
    hide Core, AddrManOps.Evict;
    CoreParts(s, k);
    EvictSpec(s, k);
  }

  lemma EvictedHasNoRef(s: State, k: Slot, home: Slot, c: State)
    requires Core(s) && k in s.vvTried && home == HomeSlot(s, s.vvTried[k])
    requires c == AddrManPrimitives.ClearNew(Demote(s, k), home)
    ensures s.vvTried[k] in c.mapInfo && c.mapInfo[s.vvTried[k]].nRefCount == 0
  {
    hide Core, AddrManPrimitives.ClearNew;
    DemoteKeepsCore(s, k);
    CoreEntry(s, s.vvTried[k]);
    CoreParts(s, home);
    ClearNewKeepsCore(Demote(s, k), home);
  }
}
