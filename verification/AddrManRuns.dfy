/** Marking addresses good, resolving tried-table collisions, handing out
    addresses, and the invariant over every run of the public interface. */
module AddrManRuns {
  import opened AddrManTypes
  import opened AddrManPrimitives
  import opened AddrManOps

  // ---- Good_ ----

  function MarkedGood(i: AddrInfo, time: int): AddrInfo {
    i.(lastSuccess := time, lastTry := time, nAttempts := 0)
  }

  function Good(s: State, a: Service, testBeforeEvict: bool, time: int): (State, bool) {
    var id := Find(s, a);
    var s := s.(lastGood := time);
    if id == -1 then (s, false) else
    var t := SetInfo(s, id, MarkedGood(s.mapInfo[id], time));
    if t.mapInfo[id].inTried || t.mapInfo[id].nRefCount <= 0 then (t, false)
    else if testBeforeEvict && TriedHome(t, id) in t.vvTried then
      (if |t.collisions| < SET_TRIED_COLLISION_SIZE then t.(collisions := t.collisions + {id}) else t, false)
    else (MakeTried(t, id), true)
  }

  lemma GoodMarks(s: State, id: int, time: int)
    requires Consistent(s) && id in s.mapInfo && 0 < time
    ensures Consistent(SetInfo(s.(lastGood := time), id, MarkedGood(s.mapInfo[id], time)))
    ensures !s.mapInfo[id].inTried ==> s.mapInfo[id].nRefCount > 0
  {
    hide Core;
    CoreEntry(s, id);
    LastGoodIrrelevant(s, time);
    TouchKeepsCore(s.(lastGood := time), id, MarkedGood(s.mapInfo[id], time));
  }

  lemma LastGoodIrrelevant(s: State, time: int)
    requires Core(s)
    ensures Core(s.(lastGood := time))
  {
    hide EntriesOk, AddrOk, CountersOk, NewTableOk, TriedTableOk, RandomOk;
  }

  lemma CollisionSetIrrelevant(s: State, c: set<int>)
    requires Consistent(s)
    ensures Consistent(s.(collisions := c))
  {
    hide EntriesOk, AddrOk, CountersOk, NewTableOk, TriedTableOk, RandomOk;
  }

  /** Good_ keeps the indexes consistent.  It returns true exactly when it
      moved the address into its tried slot; with test-before-evict that needs
      the slot to be free, and the tried table is otherwise untouched. */
  lemma GoodSpec(s: State, a: Service, test: bool, time: int)
    requires Consistent(s) && 0 < time
    ensures Consistent(Good(s, a, test, time).0)
    ensures var r := Good(s, a, test, time);
      && r.0.h == s.h && r.0.nIdCount == s.nIdCount
      && (r.1 <==> a in s.mapAddr && !Rec(s.mapInfo, s.mapAddr[a]).inTried && !(test && TriedSlot(s.h, a) in s.vvTried))
      && r.0.vvTried == (if r.1 then s.vvTried[TriedSlot(s.h, a) := s.mapAddr[a]] else s.vvTried)
      && (!r.1 ==> r.0.vvNew == s.vvNew && r.0.mapInfo.Keys == s.mapInfo.Keys)
      && s.collisions <= r.0.collisions
      && r.0.collisions <= s.collisions + (if a in s.mapAddr then {s.mapAddr[a]} else {})
      && (forall x | x in r.0.mapInfo :: x in s.mapInfo && r.0.mapInfo[x].service == s.mapInfo[x].service)
      && (forall x | x in r.0.mapInfo && r.0.mapInfo[x].inTried && !s.mapInfo[x].inTried :: r.1 && x == s.mapAddr[a])
  {
    hide Core, MakeTried;
    var id := Find(s, a);
    if id == -1 {
      LastGoodIrrelevant(s, time);
    } else {
      CoreAddr(s, a);
      GoodMarks(s, id, time);
      var t := SetInfo(s.(lastGood := time), id, MarkedGood(s.mapInfo[id], time));
      if Good(s, a, test, time).1 {
        MakeTriedSpec(t, id);
      } else {
        CollisionSetIrrelevant(t, t.collisions + {id});
      }
    }
  }

  /** Two records that differ at most in where the entry is placed. */
  ghost predicate SameStatistics(a: AddrInfo, b: AddrInfo) {
    b == a.(nRefCount := b.nRefCount, randomPos := b.randomPos, inTried := b.inTried)
  }

  /** The records after Good_: the address itself is marked, no other
      statistic changes, and a displaced tried entry is still known. */
  lemma GoodRecords(s: State, a: Service, test: bool, time: int)
    requires Consistent(s) && 0 < time && a in s.mapAddr
    ensures var t := Good(s, a, test, time).0;
      && s.mapAddr[a] in s.mapInfo && s.mapAddr[a] in t.mapInfo
      && SameStatistics(s.mapInfo[s.mapAddr[a]].(lastSuccess := time, lastTry := time, nAttempts := 0),
                        t.mapInfo[s.mapAddr[a]])
      && (forall x | x in t.mapInfo && x != s.mapAddr[a] ::
            x in s.mapInfo && SameStatistics(s.mapInfo[x], t.mapInfo[x]))
      && (forall x | x in s.mapInfo && s.mapInfo[x].inTried :: x in t.mapInfo)
  {
    hide Core, MakeTried;
    CoreAddr(s, a);
    var id := s.mapAddr[a];
    assert id in s.mapInfo && id == Find(s, a);
    GoodMarks(s, id, time);
    var t := SetInfo(s.(lastGood := time), id, MarkedGood(s.mapInfo[id], time));
    if Good(s, a, test, time).1 {
      MakeTriedSpec(t, id);
      TriedSurvive(t, id);
    }
  }

  lemma TriedSurvive(s: State, id: int)
    requires Consistent(s) && id in s.mapInfo && !s.mapInfo[id].inTried && 0 < s.mapInfo[id].lastSuccess
    ensures forall x | x in s.mapInfo && s.mapInfo[x].inTried :: x in MakeTried(s, id).mapInfo
  {
    hide Core, MakeTried;
    MakeTriedSpec(s, id);
    forall x | x in s.mapInfo && s.mapInfo[x].inTried ensures x in MakeTried(s, id).mapInfo {
      var k := TriedHome(s, id);
      if k in s.vvTried {
        CoreParts(s, HomeSlot(s, s.vvTried[k]));
        CoreEntry(s, x);
      }
    }
  }

  // ---- The statistics-only operations ----

  function Attempt(s: State, a: Service, countFailure: bool, time: int): State {
    var id := Find(s, a);
    if id == -1 then s else
    var i := s.mapInfo[id].(lastTry := time);
    if countFailure && i.lastCountAttempt < s.lastGood
    then SetInfo(s, id, i.(lastCountAttempt := time, nAttempts := i.nAttempts + 1))
    else SetInfo(s, id, i)
  }

  function Connected(s: State, a: Service, time: int): State {
    var id := Find(s, a);
    if id != -1 && time - s.mapInfo[id].nTime > 20 * 60
    then SetInfo(s, id, s.mapInfo[id].(nTime := time)) else s
  }

  function SetServices(s: State, a: Service, services: bv64): State {
    var id := Find(s, a);
    if id == -1 then s else SetInfo(s, id, s.mapInfo[id].(nServices := services))
  }

  lemma TouchKeepsInv(s: State, id: int, i: AddrInfo)
    requires Inv(s) && id in s.mapInfo && SamePlace(s.mapInfo[id], i) && EntryOk(i)
    requires i.nRefCount == s.mapInfo[id].nRefCount && i.inTried == s.mapInfo[id].inTried
    ensures Inv(SetInfo(s, id, i))
  {
    hide Core, CollisionsOk;
    TouchKeepsCore(s, id, i);
    StatisticsKeepCollisions(s, id, i);
  }

  lemma StatisticsKeepCollisions(s: State, id: int, i: AddrInfo)
    requires CollisionsOk(s) && id in s.mapInfo
    requires i.service == s.mapInfo[id].service && i.inTried == s.mapInfo[id].inTried
    ensures CollisionsOk(SetInfo(s, id, i))
  {
  }

  lemma AttemptKeepsInv(s: State, a: Service, countFailure: bool, time: int)
    requires Inv(s) && 0 <= time
    ensures Inv(Attempt(s, a, countFailure, time))
  {
    hide Core, CollisionsOk;
    var id := Find(s, a);
    if id != -1 {
      CoreEntry(s, id);
      var i := s.mapInfo[id];
      TouchKeepsInv(s, id, i.(lastTry := time));
      TouchKeepsInv(s, id, i.(lastTry := time, lastCountAttempt := time, nAttempts := i.nAttempts + 1));
    }
  }

  // ---- Good keeps the whole invariant ----

  lemma GoodKeepsInv(s: State, a: Service, time: int)
    requires Inv(s) && 0 < time
    ensures Inv(Good(s, a, true, time).0)
  {
    hide Core, Good;
    GoodSpec(s, a, true, time);
    GoodCollisions(s, a, time);
    var t := Good(s, a, true, time).0;
    CoreIds(s);
    if a in s.mapAddr {
      CoreAddr(s, a);
    }
    forall x | x in t.collisions && x in t.mapInfo
      ensures !t.mapInfo[x].inTried && TriedSlot(t.h, t.mapInfo[x].service) in t.vvTried
    {
      if x in s.collisions {
        assert x in s.mapInfo && TriedSlot(s.h, s.mapInfo[x].service) in s.vvTried;
      }
    }
  }

  /** With the test on, a known new address enters the collision set exactly when
      its tried slot is taken and the set is not full. */
  lemma GoodCollisions(s: State, a: Service, time: int)
    requires Consistent(s) && 0 < time
    ensures a in s.mapAddr ==> s.mapAddr[a] in s.mapInfo && s.mapInfo[s.mapAddr[a]].service == a
    ensures Good(s, a, true, time).0.collisions ==
      if a in s.mapAddr && !s.mapInfo[s.mapAddr[a]].inTried && TriedSlot(s.h, a) in s.vvTried && |s.collisions| < 10
      then s.collisions + {s.mapAddr[a]} else s.collisions
  {
    hide Core, MakeTried;
    if a in s.mapAddr {
      CoreAddr(s, a);
      var id := s.mapAddr[a];
      assert id in s.mapInfo && id == Find(s, a);
      GoodMarks(s, id, time);
      var t := SetInfo(s.(lastGood := time), id, MarkedGood(s.mapInfo[id], time));
      if Good(s, a, true, time).1 {
        MakeTriedSpec(t, id);
      }
    }
  }

  // ---- ResolveCollisions_ ----

  datatype Verdict = Wait | Forget | Replace

  /** What one iteration decides about candidate `id`. */
  function Judge(s: State, id: int, now: int): Verdict {
    if id !in s.mapInfo then Forget else
    var i := s.mapInfo[id];
    var k := TriedHome(s, id);
    if !s.h.valid(i.service.net) then Forget
    else if k !in s.vvTried then Replace
    else
      var there := Rec(s.mapInfo, s.vvTried[k]);
      if now - there.lastSuccess < REPLACEMENT then Forget
      else if now - there.lastTry < REPLACEMENT then
        if now - there.lastTry > 60 then Replace else Wait
      else if now - i.lastSuccess > TEST_WINDOW then Replace else Wait
  }

  function ResolveOne(s: State, id: int, now: int): State {
    match Judge(s, id, now)
    case Wait => s
    case Forget => s.(collisions := s.collisions - {id})
    case Replace =>
      var t := Good(s, Rec(s.mapInfo, id).service, false, now).0;
      t.(collisions := t.collisions - {id})
  }

  ghost function Least(c: set<int>): (m: int)
    requires c != {}
    ensures m in c && forall x | x in c :: m <= x
  {
    assert (forall z :: z !in c) ==> c == {};
    var x :| x in c;
    if c == {x} then x else
      var y := Least(c - {x});
      assert forall z | z in c :: z == x || z in c - {x};
      if x < y then x else y
  }

  /** The pass visits the candidates in ascending order (a std::set); `now(id)`
      is the clock reading of the iteration for `id`. */
  ghost function Resolve(s: State, todo: set<int>, now: int -> int): State
    decreases |todo|
  {
    if todo == {} then s else
      var id := Least(todo);
      Resolve(ResolveOne(s, id, now(id)), todo - {id}, now)
  }

  /** The tried slot of a candidate that is still known stays contested, so no
      iteration takes the branch for a free one. */
  lemma StillContested(s: State, id: int)
    requires Inv(s) && id in s.collisions && id in s.mapInfo
    ensures TriedHome(s, id) in s.vvTried
  {
  }

  lemma ForgetKeepsInv(s: State, id: int)
    requires Inv(s)
    ensures Inv(s.(collisions := s.collisions - {id}))
  {
    hide Core;
    CollisionSetIrrelevant(s, s.collisions - {id});
  }

  lemma ResolveOneKeepsInv(s: State, id: int, now: int)
    requires Inv(s) && id in s.collisions && 0 < now
    ensures Inv(ResolveOne(s, id, now))
    ensures ResolveOne(s, id, now).collisions == (if Judge(s, id, now).Wait? then s.collisions else s.collisions - {id})
  {
    hide Core, Good, Judge;
    match Judge(s, id, now)
    case Wait =>
    case Forget => ForgetKeepsInv(s, id);
    case Replace =>
      JudgedIsKnown(s, id, now);
      CoreEntry(s, id);
      var a := s.mapInfo[id].service;
      GoodSpec(s, a, false, now);
      var t := Good(s, a, false, now).0;
      CollisionSetIrrelevant(t, t.collisions - {id});
      ReplacedCollisions(s, id, t);
  }

  lemma JudgedIsKnown(s: State, id: int, now: int)
    requires Judge(s, id, now).Replace?
    ensures id in s.mapInfo
  {
  }

  lemma ReplacedCollisions(s: State, id: int, t: State)
    requires CollisionsOk(s) && id in s.collisions && id in s.mapInfo
    requires t.h == s.h && t.nIdCount == s.nIdCount && t.collisions == s.collisions
    requires forall k | k in s.vvTried :: k in t.vvTried
    requires forall x | x in t.mapInfo :: x in s.mapInfo && t.mapInfo[x].service == s.mapInfo[x].service
    requires forall x | x in t.mapInfo && t.mapInfo[x].inTried && !s.mapInfo[x].inTried :: x == id
    ensures CollisionsOk(t.(collisions := t.collisions - {id}))
  {
  }

  lemma ResolveKeepsInv(s: State, todo: set<int>, now: int -> int)
    requires Inv(s) && todo <= s.collisions
    requires forall x | x in todo :: 0 < now(x)
    ensures Inv(Resolve(s, todo, now))
    ensures Resolve(s, todo, now).collisions <= s.collisions
    decreases |todo|
  {
    hide Inv, ResolveOne;
    if todo != {} {
      var id := Least(todo);
      ResolveOneKeepsInv(s, id, now(id));
      ResolveKeepsInv(ResolveOne(s, id, now(id)), todo - {id}, now);
    }
  }

  // ---- A contested tried slot changes hands at most once per pass ----

  ghost function Takeovers(s: State, todo: set<int>, now: int -> int, k: Slot): nat
    decreases |todo|
  {
    if todo == {} then 0 else
      var id := Least(todo);
      var t := ResolveOne(s, id, now(id));
      Takeovers(t, todo - {id}, now, k) + if Occupant(t.vvTried, k) != Occupant(s.vvTried, k) then 1 else 0
  }

  /** Slot `k` is held by an entry that succeeded at time `since`. */
  ghost predicate HeldSince(s: State, k: Slot, since: int) {
    k in s.vvTried && s.vvTried[k] in s.mapInfo && s.mapInfo[s.vvTried[k]].lastSuccess == since
  }

  /** One iteration changes the tried table only at its candidate's own slot,
      and whoever moves in there succeeded at that iteration's clock reading. */
  lemma ResolveOneSlots(s: State, id: int, now: int, k: Slot)
    requires Inv(s) && id in s.collisions && 0 < now
    ensures var t := ResolveOne(s, id, now);
      && (Occupant(t.vvTried, k) != Occupant(s.vvTried, k) ==> HeldSince(t, k, now))
      && (forall since :: HeldSince(s, k, since) && now - since < REPLACEMENT ==>
            HeldSince(t, k, since) && t.vvTried[k] == s.vvTried[k])
  {
    hide Core, Good;
    if Judge(s, id, now).Replace? {
      CoreEntry(s, id);
      var a := s.mapInfo[id].service;
      GoodSpec(s, a, false, now);
      GoodRecords(s, a, false, now);
      CoreParts(s, k);
    }
  }

  lemma HeldSlotStays(s: State, todo: set<int>, now: int -> int, k: Slot, since: int)
    requires Inv(s) && todo <= s.collisions && HeldSince(s, k, since)
    requires forall x | x in todo :: 0 < now(x) && now(x) - since < REPLACEMENT
    ensures Takeovers(s, todo, now, k) == 0
    decreases |todo|
  {
    hide Inv, ResolveOne;
    if todo != {} {
      var id := Least(todo);
      ResolveOneKeepsInv(s, id, now(id));
      ResolveOneSlots(s, id, now(id), k);
      HeldSlotStays(ResolveOne(s, id, now(id)), todo - {id}, now, k, since);
    }
  }

  /** If no two readings of a pass are four hours or more apart, no tried slot
      is given away twice in it. */
  lemma OneTakeoverPerPass(s: State, todo: set<int>, now: int -> int, k: Slot)
    requires Inv(s) && todo <= s.collisions
    requires forall x | x in todo :: 0 < now(x)
    requires forall x, y | x in todo && y in todo && x < y :: now(y) - now(x) < REPLACEMENT
    ensures Takeovers(s, todo, now, k) <= 1
    decreases |todo|
  {
    hide Inv, ResolveOne;
    if todo != {} {
      var id := Least(todo);
      var t := ResolveOne(s, id, now(id));
      ResolveOneKeepsInv(s, id, now(id));
      ResolveOneSlots(s, id, now(id), k);
      if Occupant(t.vvTried, k) != Occupant(s.vvTried, k) {
        HeldSlotStays(t, todo - {id}, now, k, now(id));
      } else {
        OneTakeoverPerPass(t, todo - {id}, now, k);
      }
    }
  }

  // ---- SelectTriedCollision_ ----

  /** `id` is the member drawn from the collision set.  The entry read is the
      one its slot names, which the source default-constructs if it is missing. */
  function SelectTriedCollision(s: State, id: int): (State, AddrInfo) {
    if id !in s.collisions then (s, DEFAULT_INFO)
    else if id !in s.mapInfo then (s.(collisions := s.collisions - {id}), DEFAULT_INFO)
    else (s, Rec(s.mapInfo, Occupant(s.vvTried, TriedHome(s, id))))
  }

  /** The draw always reads an existing tried entry, the one contesting the
      candidate's slot. */
  lemma SelectReadsExisting(s: State, id: int)
    requires Inv(s) && id in s.collisions && id in s.mapInfo
    ensures var k := TriedHome(s, id);
      && k in s.vvTried && s.vvTried[k] in s.mapInfo && s.vvTried[k] != id
      && SelectTriedCollision(s, id) == (s, s.mapInfo[s.vvTried[k]])
      && s.mapInfo[s.vvTried[k]].inTried && TriedHome(s, s.vvTried[k]) == k
  {
    hide Core;
    CoreParts(s, TriedHome(s, id));
  }

  // ---- GetAddr_ ----

  /** The filters of GetAddr_. */
  predicate Qualifies(h: Hashing, i: AddrInfo, network: set<Network>, now: int) {
    (network == {} || h.netClass(i.service.net) in network) && !IsTerrible(i, now)
  }

  function ToAddress(i: AddrInfo): Address {
    Address(i.service, i.nTime, i.nServices)
  }

  function Wanted(size: nat, maxAddresses: nat, maxPct: nat): nat {
    var n := if maxPct != 0 then maxPct * size / 100 else size;
    if maxAddresses != 0 && maxAddresses < n then maxAddresses else n
  }

  /** The qualifying addresses of a list of ids, in order. */
  function Filtered(h: Hashing, m: InfoMap, ids: seq<int>, network: set<Network>, now: int): seq<Address> {
    if ids == [] then [] else
      var i := Rec(m, ids[|ids| - 1]);
      Filtered(h, m, ids[..|ids| - 1], network, now)
        + if Qualifies(h, i, network, now) then [ToAddress(i)] else []
  }

  /** `randrange(size - n) + n` */
  function Draw(r: nat, n: nat, size: nat): (q: nat)
    requires n < size
    ensures n <= q < size
  {
    r % (size - n) + n
  }

  /** The loop of GetAddr_ from position `n` on; `rand` supplies the draws and
      an empty `network` set means no network filter. */
  function GetAddrFrom(s: State, n: nat, want: nat, network: set<Network>, now: int, rand: nat -> nat,
                       got: seq<Address>): (State, seq<Address>)
    decreases |s.vRandom| - n
  {
    if n >= |s.vRandom| || |got| >= want then (s, got) else
      var t := SwapRandom(s, n, Draw(rand(n), n, |s.vRandom|));
      var i := Rec(t.mapInfo, t.vRandom[n]);
      GetAddrFrom(t, n + 1, want, network, now, rand,
                  if Qualifies(t.h, i, network, now) then got + [ToAddress(i)] else got)
  }

  function GetAddr(s: State, maxAddresses: nat, maxPct: nat, network: set<Network>, now: int, rand: nat -> nat)
    : (State, seq<Address>)
  {
    GetAddrFrom(s, 0, Wanted(|s.vRandom|, maxAddresses, maxPct), network, now, rand, [])
  }

  lemma FilteredIgnoresPlaces(h: Hashing, m: InfoMap, n: InfoMap, ids: seq<int>, network: set<Network>, now: int)
    requires SameButPlaces(m, n) && forall p | 0 <= p < |ids| :: ids[p] in m
    ensures Filtered(h, m, ids, network, now) == Filtered(h, n, ids, network, now)
  {
    if ids != [] {
      FilteredIgnoresPlaces(h, m, n, ids[..|ids| - 1], network, now);
      var id := ids[|ids| - 1];
      assert id in m && SameRecord(m[id], n[id]);
    }
  }

  /** Only the order of vRandom, and the places recorded for it, differ. */
  ghost predicate Reordered(s: State, t: State) {
    SameButPlaces(s.mapInfo, t.mapInfo) && t == s.(mapInfo := t.mapInfo, vRandom := t.vRandom)
  }

  lemma ReorderedTrans(s: State, t: State, u: State)
    requires Reordered(s, t) && Reordered(t, u)
    ensures Reordered(s, u)
  {
  }

  lemma SwapFacts(s: State, p: int, q: int)
    requires Core(s) && 0 <= p < |s.vRandom| && p <= q < |s.vRandom|
    ensures var t := SwapRandom(s, p, q);
      && Core(t) && Reordered(s, t) && t.vRandom[..p] == s.vRandom[..p] && t.h == s.h
  {
    hide EntriesOk, AddrOk, CountersOk, NewTableOk, TriedTableOk;
    SwapRandomKeepsCore(s, p, q);
  }

  /** One more draw extends the filtered prefix by the drawn entry, if it qualifies. */
  lemma DrawExtends(s: State, n: nat, q: int, network: set<Network>, now: int)
    requires Core(s) && n <= q < |s.vRandom|
    ensures var t := SwapRandom(s, n, q);
      var i := Rec(t.mapInfo, t.vRandom[n]);
      Filtered(s.h, t.mapInfo, t.vRandom[..n + 1], network, now)
        == Filtered(s.h, s.mapInfo, s.vRandom[..n], network, now)
           + if Qualifies(s.h, i, network, now) then [ToAddress(i)] else []
  {
    hide Core, SwapRandom, Qualifies;
    SwapFacts(s, n, q);
    var t := SwapRandom(s, n, q);
    DrawnServicesDistinct(s);
    FilteredIgnoresPlaces(s.h, s.mapInfo, t.mapInfo, s.vRandom[..n], network, now);
    assert t.vRandom[..n + 1][..n] == s.vRandom[..n];
  }

  /** What GetAddr_ leaves when `m` places have been drawn. */
  ghost predicate Collected(s: State, t: State, all: seq<Address>, m: nat, want: nat, network: set<Network>, now: int) {
    && Core(t) && Reordered(s, t)
    && m <= |t.vRandom| && |all| <= want && (|all| == want || m == |t.vRandom|)
    && all == Filtered(s.h, t.mapInfo, t.vRandom[..m], network, now)
  }

  lemma CollectedTrans(s: State, t: State, u: State, all: seq<Address>, m: nat, want: nat,
                       network: set<Network>, now: int)
    requires Reordered(s, t) && Collected(t, u, all, m, want, network, now)
    ensures Collected(s, u, all, m, want, network, now)
  {
    hide Core;
    ReorderedTrans(s, t, u);
  }

  /** The loop invariant of GetAddr_: what has been collected is exactly the
      qualifying part of the prefix already drawn. */
  lemma GetAddrFromSpec(s: State, n: nat, want: nat, network: set<Network>, now: int, rand: nat -> nat,
                        got: seq<Address>)
      returns (m: nat)
    requires Core(s) && n <= |s.vRandom| && |got| <= want
    requires got == Filtered(s.h, s.mapInfo, s.vRandom[..n], network, now)
    ensures var r := GetAddrFrom(s, n, want, network, now, rand, got);
      Collected(s, r.0, r.1, m, want, network, now)
    decreases |s.vRandom| - n
  {
    hide Core, SwapRandom, Qualifies, Filtered, Draw;
    if n >= |s.vRandom| || |got| >= want {
      m := n;
    } else {
      hide Collected, Reordered;
      var q := Draw(rand(n), n, |s.vRandom|);
      SwapFacts(s, n, q);
      DrawExtends(s, n, q, network, now);
      var t := SwapRandom(s, n, q);
      var i := Rec(t.mapInfo, t.vRandom[n]);
      var got' := if Qualifies(t.h, i, network, now) then got + [ToAddress(i)] else got;
      m := GetAddrFromSpec(t, n + 1, want, network, now, rand, got');
      var r := GetAddrFrom(t, n + 1, want, network, now, rand, got');
      CollectedTrans(s, t, r.0, r.1, m, want, network, now);
    }
  }

  /** An address of a qualifying entry among `ids`. */
  ghost predicate Offers(h: Hashing, m: InfoMap, ids: seq<int>, network: set<Network>, now: int, a: Address) {
    exists id :: id in ids && id in m && Qualifies(h, m[id], network, now) && a == ToAddress(m[id])
  }

  lemma FilteredMembers(h: Hashing, m: InfoMap, ids: seq<int>, network: set<Network>, now: int, a: Address)
    requires forall p | 0 <= p < |ids| :: ids[p] in m
    ensures a in Filtered(h, m, ids, network, now) <==> Offers(h, m, ids, network, now, a)
  {
    hide Qualifies;
    if ids != [] {
      var rest, last := ids[..|ids| - 1], ids[|ids| - 1];
      assert ids == rest + [last];
      FilteredMembers(h, m, rest, network, now, a);
      assert Offers(h, m, ids, network, now, a) <==>
        Offers(h, m, rest, network, now, a) || (Qualifies(h, m[last], network, now) && a == ToAddress(m[last]));
    }
  }

  lemma FilteredDistinct(h: Hashing, m: InfoMap, ids: seq<int>, network: set<Network>, now: int)
    requires forall p | 0 <= p < |ids| :: ids[p] in m
    requires forall p, q | 0 <= p < q < |ids| :: m[ids[p]].service != m[ids[q]].service
    ensures var f := Filtered(h, m, ids, network, now);
      forall p, q | 0 <= p < q < |f| :: f[p].service != f[q].service
  {
    hide Qualifies;
    if ids != [] {
      var rest, last := ids[..|ids| - 1], ids[|ids| - 1];
      FilteredDistinct(h, m, rest, network, now);
      var f := Filtered(h, m, rest, network, now);
      forall p | 0 <= p < |f| ensures f[p].service != m[last].service {
        FilteredMembers(h, m, rest, network, now, f[p]);
        var id :| id in rest && id in m && Qualifies(h, m[id], network, now) && f[p] == ToAddress(m[id]);
        var q :| 0 <= q < |rest| && rest[q] == id;
        assert ids[q] == id;
      }
    }
  }

  lemma DrawnServicesDistinct(s: State)
    requires Core(s)
    ensures forall p | 0 <= p < |s.vRandom| :: s.vRandom[p] in s.mapInfo
    ensures forall p, q | 0 <= p < q < |s.vRandom| ::
      s.mapInfo[s.vRandom[p]].service != s.mapInfo[s.vRandom[q]].service
    ensures forall id | id in s.mapInfo :: id in s.vRandom
  {
    hide EntriesOk, CountersOk, NewTableOk, TriedTableOk;
    forall p, q | 0 <= p < q < |s.vRandom|
      ensures s.mapInfo[s.vRandom[p]].service != s.mapInfo[s.vRandom[q]].service
    {
      var a, b := s.vRandom[p], s.vRandom[q];
      assert a in s.mapInfo && b in s.mapInfo;
    }
  }

  /** An address of a known entry that is of a wanted network and not terrible. */
  ghost predicate Known(s: State, network: set<Network>, now: int, a: Address) {
    && a.service in s.mapAddr && s.mapAddr[a.service] in s.mapInfo
    && var i := s.mapInfo[s.mapAddr[a.service]];
      && a.nTime == i.nTime && a.nServices == i.nServices && !IsTerrible(i, now)
      && (network != {} ==> s.h.netClass(a.service.net) in network)
  }

  lemma KnownIs(s: State, network: set<Network>, now: int, a: Address)
    requires Core(s)
    ensures Known(s, network, now, a) <==>
      exists id :: id in s.mapInfo && Qualifies(s.h, s.mapInfo[id], network, now) && a == ToAddress(s.mapInfo[id])
  {
    hide Core, IsTerrible;
    if Known(s, network, now, a) {
      CoreAddr(s, a.service);
    }
    forall id | id in s.mapInfo ensures s.mapInfo[id].service in s.mapAddr && s.mapAddr[s.mapInfo[id].service] == id {
      CoreEntry(s, id);
    }
  }

  /** `want` is the given percentage of `size`, or all, but at most the given
      number. */
  ghost predicate IsWanted(want: nat, size: nat, maxAddresses: nat, maxPct: nat) {
    && (maxAddresses != 0 ==> want <= maxAddresses)
    && (if maxPct == 0 then want <= size else 100 * want <= maxPct * size)
    && (want == maxAddresses != 0 || (if maxPct == 0 then want == size else maxPct * size < 100 * (want + 1)))
  }

  lemma WantedIs(size: nat, maxAddresses: nat, maxPct: nat)
    ensures IsWanted(Wanted(size, maxAddresses, maxPct), size, maxAddresses, maxPct)
  {
  }

  /** GetAddr_ returns distinct, qualifying, known addresses, never more than
      wanted; if it returns fewer, it returned every qualifying one. */
  lemma GetAddrSpec(s: State, maxAddresses: nat, maxPct: nat, network: set<Network>, now: int, rand: nat -> nat)
    requires Core(s)
    ensures var want := Wanted(|s.vRandom|, maxAddresses, maxPct);
      var got := GetAddr(s, maxAddresses, maxPct, network, now, rand).1;
      && IsWanted(want, |s.vRandom|, maxAddresses, maxPct) && |got| <= want
      && (forall p, q | 0 <= p < q < |got| :: got[p].service != got[q].service)
      && (forall a | a in got :: Known(s, network, now, a))
      && (|got| < want ==> forall a | Known(s, network, now, a) :: a in got)
  {
    hide Core, Qualifies, GetAddrFrom, Filtered, Known, Wanted, IsWanted;
    var want := Wanted(|s.vRandom|, maxAddresses, maxPct);
    WantedIs(|s.vRandom|, maxAddresses, maxPct);
    assert Filtered(s.h, s.mapInfo, s.vRandom[..0], network, now) == [] by { FilteredNone(s, network, now); }
    var m := GetAddrFromSpec(s, 0, want, network, now, rand, []);
    var t := GetAddr(s, maxAddresses, maxPct, network, now, rand).0;
    DrawnServicesDistinct(t);
    var ids := t.vRandom[..m];
    if m == |t.vRandom| {
      assert ids == t.vRandom;
      assert forall id | id in t.mapInfo :: id in ids;
    }
    var got := GetAddr(s, maxAddresses, maxPct, network, now, rand).1;
    assert got == Filtered(s.h, t.mapInfo, ids, network, now);
    FilteredDistinct(s.h, t.mapInfo, ids, network, now);
    forall a
      ensures a in got ==> Known(s, network, now, a)
      ensures m == |t.vRandom| && Known(s, network, now, a) ==> a in got
    {
      FilteredMembers(s.h, t.mapInfo, ids, network, now, a);
      OffersKnown(s, t, ids, network, now, a);
    }
  }

  lemma FilteredNone(s: State, network: set<Network>, now: int)
    ensures Filtered(s.h, s.mapInfo, s.vRandom[..0], network, now) == []
  {
  }

  lemma OffersKnown(s: State, t: State, ids: seq<int>, network: set<Network>, now: int, a: Address)
    requires Core(s) && SameButPlaces(s.mapInfo, t.mapInfo)
    ensures Offers(s.h, t.mapInfo, ids, network, now, a) ==> Known(s, network, now, a)
    ensures (forall id | id in t.mapInfo :: id in ids) ==>
      Known(s, network, now, a) ==> Offers(s.h, t.mapInfo, ids, network, now, a)
  {
    hide Qualifies, Core, Known;
    KnownIs(s, network, now, a);
    QualifiesIgnoresPlaces(s, t, network, now);
    if Offers(s.h, t.mapInfo, ids, network, now, a) {
      var id :|
        id in ids && id in t.mapInfo && Qualifies(s.h, t.mapInfo[id], network, now) && a == ToAddress(t.mapInfo[id]);
      assert id in s.mapInfo;
    }
    if (forall id | id in t.mapInfo :: id in ids) && Known(s, network, now, a) {
      var id :| id in s.mapInfo && Qualifies(s.h, s.mapInfo[id], network, now) && a == ToAddress(s.mapInfo[id]);
      assert id in t.mapInfo;
    }
  }

  lemma QualifiesIgnoresPlaces(s: State, t: State, network: set<Network>, now: int)
    requires SameButPlaces(s.mapInfo, t.mapInfo)
    ensures forall id | id in s.mapInfo ::
      id in t.mapInfo && ToAddress(t.mapInfo[id]) == ToAddress(s.mapInfo[id])
      && (Qualifies(s.h, t.mapInfo[id], network, now) <==> Qualifies(s.h, s.mapInfo[id], network, now))
  {
  }

  lemma GetAddrKeepsInv(s: State, maxAddresses: nat, maxPct: nat, network: set<Network>, now: int, rand: nat -> nat)
    requires Inv(s)
    ensures Inv(GetAddr(s, maxAddresses, maxPct, network, now, rand).0)
  {
    hide Core, GetAddrFrom;
    var want := Wanted(|s.vRandom|, maxAddresses, maxPct);
    var _ := GetAddrFromSpec(s, 0, want, network, now, rand, []);
    var t := GetAddr(s, maxAddresses, maxPct, network, now, rand).0;
    SamePlacesUnplaced(s.mapInfo, t.mapInfo);
    CollisionsKept(s, t);
  }

  lemma SamePlacesUnplaced(m: InfoMap, n: InfoMap)
    requires SameButPlaces(m, n) && OnlyUnplaced(m, {})
    ensures OnlyUnplaced(n, {})
    ensures forall id | id in n :: id in m && n[id].service == m[id].service && n[id].inTried == m[id].inTried
  {
  }

  // ---- Runs ----

  datatype Op =
    | OpAdd(news: seq<Announcement>, source: NetAddr, penalty: int)
    | OpGood(addr: Service, time: int)
    | OpAttempt(addr: Service, countFailure: bool, time: int)
    | OpConnected(addr: Service, time: int)
    | OpSetServices(addr: Service, services: bv64)
    | OpGetAddr(maxAddresses: nat, maxPct: nat, network: set<Network>, now: int, rand: nat -> nat)
    | OpResolveCollisions(clock: int -> int)
    | OpSelectTriedCollision(id: int)

  ghost function Step(s: State, op: Op): State {
    match op
    case OpAdd(news, source, penalty) => AddAll(s, news, source, penalty).0
    case OpGood(a, time) => Good(s, a, true, time).0
    case OpAttempt(a, countFailure, time) => Attempt(s, a, countFailure, time)
    case OpConnected(a, time) => Connected(s, a, time)
    case OpSetServices(a, services) => SetServices(s, a, services)
    case OpGetAddr(maxA, maxP, network, now, rand) => GetAddr(s, maxA, maxP, network, now, rand).0
    case OpResolveCollisions(clock) => Resolve(s, s.collisions, clock)
    case OpSelectTriedCollision(id) => SelectTriedCollision(s, id).0
  }

  ghost function Run(s: State, ops: seq<Op>): State
    decreases ops
  {
    if ops == [] then s else Run(Step(s, ops[0]), ops[1..])
  }

  /** Clock readings are after the epoch. */
  ghost predicate Timely(op: Op) {
    match op
    case OpGood(_, time) => 0 < time
    case OpAttempt(_, _, time) => 0 <= time
    case OpResolveCollisions(clock) => forall x :: 0 < clock(x)
    case _ => true
  }

  lemma AddAllKeepsInv(s: State, news: seq<Announcement>, source: NetAddr, penalty: int)
    requires Inv(s)
    ensures Inv(AddAll(s, news, source, penalty).0)
    decreases news
  {
    hide Inv, AddSingle;
    if news != [] {
      AddSingleKeepsInv(s, news[0], source, penalty);
      AddAllKeepsInv(AddSingle(s, news[0], source, penalty).0, news[1..], source, penalty);
    }
  }

  lemma ConnectedKeepsInv(s: State, a: Service, time: int, services: bv64)
    requires Inv(s)
    ensures Inv(Connected(s, a, time)) && Inv(SetServices(s, a, services))
  {
    hide Core, CollisionsOk;
    var id := Find(s, a);
    if id != -1 {
      CoreEntry(s, id);
      TouchKeepsInv(s, id, s.mapInfo[id].(nTime := time));
      TouchKeepsInv(s, id, s.mapInfo[id].(nServices := services));
    }
  }

  lemma StepKeepsInv(s: State, op: Op)
    requires Inv(s) && Timely(op)
    ensures Inv(Step(s, op))
  {
    hide Inv, AddAll, Good, Attempt, Connected, SetServices, GetAddr, Resolve;
    match op
    case OpAdd(news, source, penalty) => AddAllKeepsInv(s, news, source, penalty);
    case OpGood(a, time) => GoodKeepsInv(s, a, time);
    case OpAttempt(a, countFailure, time) => AttemptKeepsInv(s, a, countFailure, time);
    case OpConnected(a, time) => ConnectedKeepsInv(s, a, time, 0);
    case OpSetServices(a, services) => ConnectedKeepsInv(s, a, 0, services);
    case OpGetAddr(maxA, maxP, network, now, rand) => GetAddrKeepsInv(s, maxA, maxP, network, now, rand);
    case OpResolveCollisions(clock) => ResolveKeepsInv(s, s.collisions, clock);
    case OpSelectTriedCollision(id) => ForgetKeepsInv(s, id);
  }

  lemma EmptyInv(h: Hashing)
    ensures Inv(Empty(h))
  {
    hide Core;
    EmptyCore(h);
  }

  lemma RunKeepsInv(s: State, ops: seq<Op>)
    requires Inv(s) && forall op | op in ops :: Timely(op)
    ensures Inv(Run(s, ops))
    decreases ops
  {
    hide Inv, Step, Timely;
    if ops != [] {
      StepKeepsInv(s, ops[0]);
      RunKeepsInv(Step(s, ops[0]), ops[1..]);
    }
  }

  /** Every state an address manager can reach from empty is consistent, and
      its collision set is sound. */
  lemma ReachableIsConsistent(h: Hashing, ops: seq<Op>)
    requires forall op | op in ops :: Timely(op)
    ensures Consistent(Run(Empty(h), ops)) && CollisionsOk(Run(Empty(h), ops))
  {
    hide Consistent, CollisionsOk;
    EmptyInv(h);
    RunKeepsInv(Empty(h), ops);
  }
}
