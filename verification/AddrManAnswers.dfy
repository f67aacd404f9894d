/** What the operations answer and change, stated over the fields of the manager
    and without the functions that compute it. */
module AddrManAnswers {
  import opened AddrManTypes
  import opened AddrManPrimitives
  import opened AddrManOps
  import opened AddrManRuns
  import NatArith

  // ---- AddSingle ----

  /** The slot decision.  An occupant gives way if it is terrible, or if it has
      another slot and the entry to place has none. */
  lemma PlaceAnswer(s: State, id: int, source: NetAddr, now: int)
    requires Core(s) && id in s.mapInfo && !s.mapInfo[id].inTried
    ensures var k := NewSlot(s.h, s.mapInfo[id].service, source);
      var (t, placed) := Place(s, id, source, now);
      && (k in s.vvNew ==> s.vvNew[k] in s.mapInfo)
      && (placed <==>
            || k !in s.vvNew
            || (s.vvNew[k] != id && (IsTerrible(s.mapInfo[s.vvNew[k]], now)
                 || (s.mapInfo[s.vvNew[k]].nRefCount > 1 && s.mapInfo[id].nRefCount == 0))))
      && (placed ==>
            && ClearedInfo(s.mapInfo - {id}, s.vvNew, k, t.mapInfo - {id})
            && t.vvNew == s.vvNew[k := id] && id in t.mapInfo
            && SameButRefs(s.mapInfo[id], t.mapInfo[id]) && t.mapInfo[id].nRefCount == s.mapInfo[id].nRefCount + 1)
      && (!placed ==>
            t == if s.mapInfo[id].nRefCount == 0 && !(k in s.vvNew && s.vvNew[k] == id) then Delete(s, id) else s)
  {
    hide Core, ClearNew, Delete, IsTerrible;
    var k := NewSlot(s.h, s.mapInfo[id].service, source);
    CoreParts(s, k);
    ClearNewKeepsCore(s, k);
    assert (s.vvNew - {k})[k := id] == s.vvNew[k := id];
  }

  /** The time recorded for an announced address; a source's own address is not
      penalised. */
  function Penalised(a: Address, source: NetAddr, timePenalty: int): int {
    var time := a.nTime - (if a.service.net == source then 0 else timePenalty);
    if time < 0 then 0 else time
  }

  /** An unroutable address is never recorded. */
  lemma AddUnroutable(s: State, n: Announcement, source: NetAddr, timePenalty: int)
    requires !s.h.routable(n.addr.service.net)
    ensures AddSingle(s, n, source, timePenalty) == (s, false)
  {
  }

  /** An unknown address is added exactly if its slot is free, or its occupant is
      terrible or has another slot.  Then it is known, with the announced data,
      in that slot; otherwise all is as before. */
  lemma AddUnknown(s: State, n: Announcement, source: NetAddr, timePenalty: int)
    requires Consistent(s) && s.h.routable(n.addr.service.net) && n.addr.service !in s.mapAddr
    ensures var (a, k) := (n.addr, NewSlot(s.h, n.addr.service, source));
      var (t, added) := AddSingle(s, n, source, timePenalty);
      && (k in s.vvNew ==> s.vvNew[k] in s.mapInfo)
      && (added <==>
            || k !in s.vvNew || IsTerrible(s.mapInfo[s.vvNew[k]], n.nowTerrible)
            || s.mapInfo[s.vvNew[k]].nRefCount > 1)
      && (!added ==>
            t.mapAddr == s.mapAddr && t.mapInfo == s.mapInfo && t.vvNew == s.vvNew && t.vRandom == s.vRandom)
      && (added ==>
            && a.service in t.mapAddr && t.mapAddr[a.service] in t.mapInfo && t.mapAddr[a.service] !in s.mapInfo
            && t.vvNew == s.vvNew[k := t.mapAddr[a.service]]
            && SameButRefs(
                 AddrInfo(a.service, Penalised(a, source, timePenalty), a.nServices, source, 0, 0, 0, 0, 1, false, 0),
                 t.mapInfo[t.mapAddr[a.service]])
            && t.mapInfo[t.mapAddr[a.service]].nRefCount == 1
            && ClearedInfo(s.mapInfo, s.vvNew, k, t.mapInfo - {t.mapAddr[a.service]}))
  {
    hide Core, Place, Created, IsTerrible, Delete;
    var a := n.addr;
    var penalty := if a.service.net == source then 0 else timePenalty;
    assert Find(s, a.service) == -1;
    CreatedSpec(s, a, source, penalty);
    var c := Created(s, a, source, penalty);
    var id := s.nIdCount;
    var k := NewSlot(s.h, a.service, source);
    CoreParts(s, k);
    PlaceAnswer(c, id, source, n.nowTerrible);
    PlaceSpec(c, id, source, n.nowTerrible);
    assert c.mapInfo - {id} == s.mapInfo;
    var (t, added) := Place(c, id, source, n.nowTerrible);
    if added {
      CoreEntry(t, id);
    } else {
      CreatedThenDeleted(s, a, source, penalty);
    }
  }

  lemma CreatedThenDeleted(s: State, a: Address, source: NetAddr, penalty: int)
    requires s.nIdCount !in s.mapInfo && a.service !in s.mapAddr
    ensures var t := Delete(Created(s, a, source, penalty), s.nIdCount);
      t.mapAddr == s.mapAddr && t.mapInfo == s.mapInfo && t.vvNew == s.vvNew && t.vRandom == s.vRandom
  {
    var c := Created(s, a, source, penalty);
    assert c.mapInfo - {s.nIdCount} == s.mapInfo;
    assert c.mapAddr - {a.service} == s.mapAddr;
    assert c.vRandom[..|s.vRandom|] == s.vRandom;
  }

  /** The time a known entry has after the announcement. */
  function RefreshedTime(i: AddrInfo, a: Address, source: NetAddr, timePenalty: int, now: int): int {
    var penalty := if a.service.net == source then 0 else timePenalty;
    if a.nTime - i.nTime > penalty + (if now - a.nTime < 86400 then 3600 else 86400)
    then Penalised(a, source, timePenalty) else i.nTime
  }

  /** A known address gets another slot exactly if it brings news, is not in
      tried, has fewer than eight slots, wins the draw, and the slot is free or
      its occupant is terrible.  Time and services are refreshed in any case. */
  lemma AddKnownAnswer(s: State, n: Announcement, source: NetAddr, timePenalty: int)
    requires Consistent(s) && s.h.routable(n.addr.service.net) && n.addr.service in s.mapAddr
    ensures var (a, id) := (n.addr, s.mapAddr[n.addr.service]);
      id in s.mapInfo &&
      var (i, k) := (s.mapInfo[id], NewSlot(s.h, n.addr.service, source));
      var time := RefreshedTime(i, a, source, timePenalty, n.now);
      var (t, added) := AddSingle(s, n, source, timePenalty);
      && (k in s.vvNew ==> s.vvNew[k] in s.mapInfo)
      && (added <==>
            && a.nTime > time && !i.inTried && i.nRefCount < 8
            && n.rand % NatArith.Pow2(i.nRefCount) == 0
            && (k !in s.vvNew || (s.vvNew[k] != id && IsTerrible(s.mapInfo[s.vvNew[k]], n.nowTerrible))))
      && id in t.mapInfo
      && SameButRefs(i.(nTime := time, nServices := BothServices(i.nServices, a.nServices)), t.mapInfo[id])
      && t.mapInfo[id].nRefCount == i.nRefCount + (if added then 1 else 0)
      && t.vvNew == (if added then s.vvNew[k := id] else s.vvNew)
      && (if added then ClearedInfo(s.mapInfo - {id}, s.vvNew, k, t.mapInfo - {id})
          else t.mapInfo - {id} == s.mapInfo - {id})
  {
    hide Core, Place, IsTerrible, NatArith.Pow2, Refreshed, RefreshedTime, Unwanted, BothServices, ClearedInfo, NewSlot;
    var a := n.addr;
    CoreAddr(s, a.service);
    var id := s.mapAddr[a.service];
    assert Find(s, a.service) == id;
    var i := Refreshed(s.mapInfo[id], a, if a.service.net == source then 0 else timePenalty, n.now);
    RefreshedIs(s.mapInfo[id], a, source, timePenalty, n.now);
    CoreEntry(s, id);
    KnownAnswer(s, id, i, n, source);
  }

  /** Whatever services are asked for, the result has those that either has. */
  lemma ServicesJoined(x: bv64, y: bv64, asked: bv64)
    ensures asked & BothServices(x, y) == (asked & x) | (asked & y)
  {
  }

  lemma RefreshedIs(i: AddrInfo, a: Address, source: NetAddr, timePenalty: int, now: int)
    ensures Refreshed(i, a, if a.service.net == source then 0 else timePenalty, now) ==
      i.(nTime := RefreshedTime(i, a, source, timePenalty, now), nServices := BothServices(i.nServices, a.nServices))
  {
    hide BothServices;
  }

  lemma KnownAnswer(s: State, id: int, i: AddrInfo, n: Announcement, source: NetAddr)
    requires Consistent(s) && id in s.mapInfo && i == s.mapInfo[id].(nTime := i.nTime, nServices := i.nServices)
    ensures var k := NewSlot(s.h, i.service, source);
      var (t, added) := if Unwanted(i, n.addr, n.rand) then (SetInfo(s, id, i), false)
                        else Place(SetInfo(s, id, i), id, source, n.nowTerrible);
      && 0 <= i.nRefCount && (k in s.vvNew ==> s.vvNew[k] in s.mapInfo)
      && (added <==>
            && n.addr.nTime > i.nTime && !i.inTried && i.nRefCount < 8 && n.rand % NatArith.Pow2(i.nRefCount) == 0
            && (k !in s.vvNew || (s.vvNew[k] != id && IsTerrible(s.mapInfo[s.vvNew[k]], n.nowTerrible))))
      && id in t.mapInfo && SameButRefs(i, t.mapInfo[id])
      && t.mapInfo[id].nRefCount == i.nRefCount + (if added then 1 else 0)
      && t.vvNew == (if added then s.vvNew[k := id] else s.vvNew)
      && (if added then ClearedInfo(s.mapInfo - {id}, s.vvNew, k, t.mapInfo - {id})
          else t.mapInfo - {id} == s.mapInfo - {id})
  {
    hide Core, Place, IsTerrible, NatArith.Pow2, ClearedInfo;
    CoreEntry(s, id);
    CoreParts(s, NewSlot(s.h, i.service, source));
    TouchKeepsCore(s, id, i);
    var t := SetInfo(s, id, i);
    assert t.mapInfo - {id} == s.mapInfo - {id};
    if !i.inTried {
      PlaceAnswer(t, id, source, n.nowTerrible);
    }
  }

  /** Add_ reports an addition exactly if some announcement was added when its
      turn came. */
  ghost function AfterFirst(s: State, ns: seq<Announcement>, source: NetAddr, timePenalty: int, i: nat): State
    requires i <= |ns|
  {
    if i == 0 then s else AddSingle(AfterFirst(s, ns, source, timePenalty, i - 1), ns[i - 1], source, timePenalty).0
  }

  ghost predicate AddedAt(s: State, ns: seq<Announcement>, source: NetAddr, timePenalty: int, i: nat)
    requires i < |ns|
  {
    AddSingle(AfterFirst(s, ns, source, timePenalty, i), ns[i], source, timePenalty).1
  }

  lemma {:induction false} AfterFirstShift(s: State, ns: seq<Announcement>, source: NetAddr, timePenalty: int, i: nat)
    requires ns != [] && i < |ns|
    ensures AfterFirst(AddSingle(s, ns[0], source, timePenalty).0, ns[1..], source, timePenalty, i)
         == AfterFirst(s, ns, source, timePenalty, i + 1)
  {
    hide AddSingle;
    if i > 0 {
      AfterFirstShift(s, ns, source, timePenalty, i - 1);
    }
  }

  lemma {:induction false} AddAllAnswer(s: State, ns: seq<Announcement>, source: NetAddr, timePenalty: int)
    ensures AddAll(s, ns, source, timePenalty).0 == AfterFirst(s, ns, source, timePenalty, |ns|)
    ensures AddAll(s, ns, source, timePenalty).1 > 0 <==>
      exists i: nat | i < |ns| :: AddedAt(s, ns, source, timePenalty, i)
    decreases ns
  {
    hide AddSingle;
    if ns != [] {
      var t := AddSingle(s, ns[0], source, timePenalty).0;
      AddAllAnswer(t, ns[1..], source, timePenalty);
      AfterFirstShift(s, ns, source, timePenalty, |ns| - 1);
      forall i: nat | i < |ns| - 1
        ensures AddedAt(t, ns[1..], source, timePenalty, i) <==> AddedAt(s, ns, source, timePenalty, i + 1)
      {
        AfterFirstShift(s, ns, source, timePenalty, i);
      }
      assert AfterFirst(s, ns, source, timePenalty, 0) == s;
      if i: nat :| i < |ns| && AddedAt(s, ns, source, timePenalty, i) {
        if i > 0 {
          assert AddedAt(t, ns[1..], source, timePenalty, i - 1);
        }
      }
      if i: nat :| i < |ns| - 1 && AddedAt(t, ns[1..], source, timePenalty, i) {
        assert AddedAt(s, ns, source, timePenalty, i + 1);
      }
      if AddSingle(s, ns[0], source, timePenalty).1 {
        assert AddedAt(s, ns, source, timePenalty, 0);
      }
    }
  }

  /** Which entries may be dropped: not tried within a minute, and from the future,
      not seen for a month, never reached in three attempts, or failed ten times
      over a week. */
  lemma TerribleExactly(i: AddrInfo, now: int)
    ensures IsTerrible(i, now) <==>
      && now - i.lastTry > 60
      && (|| i.nTime - now > 600 || now - i.nTime > 2592000
          || (i.nAttempts >= 3 && i.lastSuccess == 0)
          || (i.nAttempts >= 10 && now - i.lastSuccess > 604800))
  {
  }

  // ---- ResolveCollisions_ ----

  /** Whether the incumbent `o` of a contested slot is replaced: it has not
      succeeded for four hours, and it failed a test more than a minute ago, or
      could not be tested in forty minutes since the candidate's success. */
  predicate GivesWay(o: AddrInfo, candidate: AddrInfo, now: int) {
    && now - o.lastSuccess >= 14400
    && if now - o.lastTry < 14400 then now - o.lastTry > 60 else now - candidate.lastSuccess > 2400
  }

  /** One iteration, exactly. */
  lemma ResolveOneAnswer(s: State, id: int, now: int)
    requires Inv(s) && id in s.collisions && 0 < now
    ensures var t := ResolveOne(s, id, now);
      if id !in s.mapInfo || !s.h.valid(s.mapInfo[id].service.net) then t == s.(collisions := s.collisions - {id})
      else
        var k := TriedSlot(s.h, s.mapInfo[id].service);
        && k in s.vvTried && s.vvTried[k] in s.mapInfo && s.vvTried[k] != id
        && var o := s.mapInfo[s.vvTried[k]];
          && (t.vvTried == if GivesWay(o, s.mapInfo[id], now) then s.vvTried[k := id] else s.vvTried)
          && (id in t.collisions <==> !GivesWay(o, s.mapInfo[id], now) && now - o.lastSuccess >= 14400)
          && t.collisions - {id} == s.collisions - {id}
          && (!GivesWay(o, s.mapInfo[id], now) ==> t == s.(collisions := t.collisions))
  {
    hide Core, Good;
    if id in s.mapInfo {
      StillContested(s, id);
      CoreEntry(s, id);
      CoreParts(s, TriedHome(s, id));
      GoodSpec(s, s.mapInfo[id].service, false, now);
    }
  }

  ghost function Smaller(todo: set<int>, id: int): set<int> {
    set x | x in todo && x < id
  }

  ghost function Larger(todo: set<int>, id: int): set<int> {
    set x | x in todo && x > id
  }

  /** The pass gives every candidate its turn, after all smaller ones and before
      all larger ones. */
  lemma {:induction false} EveryCandidateHasItsTurn(s: State, todo: set<int>, now: int -> int, id: int)
    requires id in todo
    ensures Resolve(s, todo, now) ==
      Resolve(ResolveOne(Resolve(s, Smaller(todo, id), now), id, now(id)), Larger(todo, id), now)
    decreases |todo|
  {
    hide ResolveOne;
    var first := Least(todo);
    var t := ResolveOne(s, first, now(first));
    var rest := todo - {first};
    if first == id {
      assert Smaller(todo, id) == {} && Larger(todo, id) == rest;
    } else {
      EveryCandidateHasItsTurn(t, rest, now, id);
      var lower := Smaller(todo, id);
      assert first in lower;
      assert Least(lower) == first;
      assert Smaller(rest, id) == lower - {first} && Larger(rest, id) == Larger(todo, id);
    }
  }

  // ---- Statistics ----

  /** An attempt is recorded with its time, and counted only if asked to and if
      none was counted since the last success anywhere. */
  lemma AttemptAnswer(s: State, a: Service, countFailure: bool, time: int)
    requires Core(s)
    ensures var t := Attempt(s, a, countFailure, time);
      if a !in s.mapAddr then t == s else
        && s.mapAddr[a] in s.mapInfo && s.mapAddr[a] in t.mapInfo
        && var (i, j) := (s.mapInfo[s.mapAddr[a]], t.mapInfo[s.mapAddr[a]]);
          && j.lastTry == time
          && (if countFailure && i.lastCountAttempt < s.lastGood
              then j.lastCountAttempt == time && j.nAttempts == i.nAttempts + 1
              else j.lastCountAttempt == i.lastCountAttempt && j.nAttempts == i.nAttempts)
          && j == i.(lastTry := time, nAttempts := j.nAttempts, lastCountAttempt := j.lastCountAttempt)
          && t == s.(mapInfo := s.mapInfo[s.mapAddr[a] := j])
  {
    hide Core;
    if a in s.mapAddr {
      CoreAddr(s, a);
    }
  }

  /** However often an address is attempted after a success, one failure counts. */
  lemma OneFailureCounts(s: State, a: Service, time: int, countFailure: bool, time': int)
    requires Core(s) && a in s.mapAddr && s.lastGood <= time
    ensures var t := Attempt(s, a, true, time);
      var u := Attempt(t, a, countFailure, time');
      && s.mapAddr[a] in s.mapInfo && s.mapAddr[a] in t.mapInfo && s.mapAddr[a] in u.mapInfo
      && t.mapInfo[s.mapAddr[a]].lastCountAttempt >= s.lastGood
      && u.mapInfo[s.mapAddr[a]].nAttempts == t.mapInfo[s.mapAddr[a]].nAttempts
      && t.mapInfo[s.mapAddr[a]].nAttempts <= s.mapInfo[s.mapAddr[a]].nAttempts + 1
  {
    hide Core;
    CoreAddr(s, a);
  }

  /** Connected_ moves the time of a known address, and only by more than twenty
      minutes; SetServices_ replaces its services; nothing else changes. */
  lemma ConnectedAnswer(s: State, a: Service, time: int, services: bv64)
    requires Core(s)
    ensures a !in s.mapAddr ==> Connected(s, a, time) == s && SetServices(s, a, services) == s
    ensures a in s.mapAddr ==>
      var id := s.mapAddr[a];
      && id in s.mapInfo
      && (s.mapInfo[id].nTime + 1200 >= time ==> Connected(s, a, time) == s)
      && (s.mapInfo[id].nTime + 1200 < time ==>
            Connected(s, a, time) == s.(mapInfo := s.mapInfo[id := s.mapInfo[id].(nTime := time)]))
      && SetServices(s, a, services) == s.(mapInfo := s.mapInfo[id := s.mapInfo[id].(nServices := services)])
  {
    hide Core;
    if a in s.mapAddr {
      CoreAddr(s, a);
    }
  }
}
