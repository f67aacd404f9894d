/** `CheckAddrman`: the run-time consistency check, its exact meaning, and what
    it cannot see. */
module AddrManCheck {
  import opened AddrManTypes
  import opened AddrManPrimitives

  // ---- What each stage of the check accepts ----

  /** The per-entry tests, codes -1 to -6, -8 and -14. */
  predicate EntryChecked(s: State, id: int)
    requires id in s.mapInfo
  {
    var i := s.mapInfo[id];
    && (if i.inTried then i.lastSuccess != 0 && i.nRefCount == 0 else 1 <= i.nRefCount <= NEW_BUCKETS_PER_ADDRESS)
    && i.service in s.mapAddr && s.mapAddr[i.service] == id
    && 0 <= i.randomPos < |s.vRandom| && s.vRandom[i.randomPos] == id
    && 0 <= i.lastTry && 0 <= i.lastSuccess
  }

  ghost predicate EntriesChecked(s: State) {
    forall id | id in s.mapInfo :: EntryChecked(s, id)
  }

  /** Codes -12, -15 and -19 for entries that are in the new table. */
  ghost predicate NewChecked(h: Hashing, m: InfoMap, t: Table) {
    && (forall k | k in t :: t[k] in m && !m[t[k]].inTried && k.1 == Position(h, true, k.0, m[t[k]].service))
    && (forall id | id in m && !m[id].inTried :: |Refs(t, id)| == m[id].nRefCount)
  }

  function Networks(m: InfoMap): set<Network> {
    set id | id in m :: m[id].service.net.network
  }

  /** Codes -20 and -21: only the networks that have a counter are compared. */
  ghost predicate NetworksChecked(m: InfoMap, c: NetCounts) {
    && |Networks(m)| <= |c.Keys|
    && forall net | net in c :: c[net] == NetCount(|IdsInNet(m, false, net)|, |IdsInNet(m, true, net)|)
  }

  /** All that a zero result promises. */
  ghost predicate Checked(s: State) {
    && |s.vRandom| == s.nTried + s.nNew
    && EntriesChecked(s)
    && |IdsIn(s.mapInfo, true)| == s.nTried && |IdsIn(s.mapInfo, false)| == s.nNew
    && TriedTableOk(s.h, s.mapInfo, s.vvTried)
    && NewChecked(s.h, s.mapInfo, s.vvNew)
    && NetworksChecked(s.mapInfo, s.counts)
  }

  /** The tables are arrays of the fixed sizes. */
  ghost predicate InGrid(t: Table, buckets: nat) {
    forall k | k in t :: 0 <= k.0 < buckets && 0 <= k.1 < BUCKET_SIZE
  }

  // ---- The entry scan ----

  function Part(m: InfoMap, done: set<int>): InfoMap {
    map id | id in m && id in done :: m[id]
  }

  function NewRefs(m: InfoMap): map<int, int> {
    map id | id in m && !m[id].inTried :: m[id].nRefCount
  }

  ghost predicate CountsOf(m: InfoMap, c: NetCounts) {
    && c.Keys == Networks(m)
    && forall net: Network ::
         CountOf(c, net) == NetCount(|IdsInNet(m, false, net)|, |IdsInNet(m, true, net)|)
  }

  lemma CountsExtended(m: InfoMap, id: int, i: AddrInfo, c: NetCounts)
    requires CountsOf(m, c) && id !in m
    ensures var net := i.service.net.network;
      CountsOf(m[id := i], if i.inTried then Bump(c, net, 0, 1) else Bump(c, net, 1, 0))
  {
    hide IdsInNet;
    var c' := if i.inTried then Bump(c, i.service.net.network, 0, 1) else Bump(c, i.service.net.network, 1, 0);
    forall net: Network
      ensures CountOf(c', net)
        == NetCount(|IdsInNet(m[id := i], false, net)|, |IdsInNet(m[id := i], true, net)|)
    {
      NetAdd(m, id, i, net);
    }
    NetworksExtended(m, id, i);
  }

  lemma NetworksExtended(m: InfoMap, id: int, i: AddrInfo)
    requires id !in m
    ensures Networks(m[id := i]) == Networks(m) + {i.service.net.network}
  {
    var n := m[id := i];
    forall net ensures net in Networks(n) <==> net in Networks(m) + {i.service.net.network} {
      if net in Networks(m) {
        var x :| x in m && m[x].service.net.network == net;
        assert x in n && n[x] == m[x];
      }
      if net == i.service.net.network {
        assert id in n && n[id] == i;
      }
    }
  }

  lemma PartExtended(m: InfoMap, done: set<int>, id: int)
    requires id in m && id !in done
    ensures Part(m, done + {id}) == Part(m, done)[id := m[id]]
    ensures IdsIn(Part(m, done + {id}), true) == IdsIn(Part(m, done), true) + (if m[id].inTried then {id} else {})
    ensures NewRefs(Part(m, done + {id}))
         == (if m[id].inTried then NewRefs(Part(m, done)) else NewRefs(Part(m, done))[id := m[id].nRefCount])
  {
  }

  /** The first test an entry fails, in the order of the source. */
  function EntryCode(s: State, id: int): (code: int)
    requires id in s.mapInfo
    ensures code == 0 <==> EntryChecked(s, id)
    ensures code in {0, -1, -2, -3, -4, -5, -14, -6, -8}
  {
    var i := s.mapInfo[id];
    if i.inTried && i.lastSuccess == 0 then -1
    else if i.inTried && i.nRefCount != 0 then -2
    else if !i.inTried && (i.nRefCount < 0 || i.nRefCount > NEW_BUCKETS_PER_ADDRESS) then -3
    else if !i.inTried && i.nRefCount == 0 then -4
    else if i.service !in s.mapAddr || s.mapAddr[i.service] != id then -5
    else if i.randomPos < 0 || i.randomPos >= |s.vRandom| || s.vRandom[i.randomPos] != id then -14
    else if i.lastTry < 0 then -6
    else if i.lastSuccess < 0 then -8
    else 0
  }

  /** The loop over mapInfo.  It stops at the first entry that fails a test;
      otherwise it has built exactly the tried ids, the new reference counts and
      the per-network counts. */
  method CheckEntries(s: State) returns (code: int, setTried: set<int>, mapNew: map<int, int>, local: NetCounts)
    ensures code == 0 <==> EntriesChecked(s)
    ensures code == 0 ==> setTried == IdsIn(s.mapInfo, true) && mapNew == NewRefs(s.mapInfo)
    ensures code == 0 ==> CountsOf(s.mapInfo, local)
  {
    hide IdsInNet, NetworksChecked;
    setTried, mapNew, local, code := {}, map[], map[], 0;
    var todo := s.mapInfo.Keys;
    ghost var done: set<int> := {};
    EmptyPart(s.mapInfo);
    while todo != {}
      invariant todo == s.mapInfo.Keys - done
      invariant forall id | id in done && id in s.mapInfo :: EntryChecked(s, id)
      invariant setTried == IdsIn(Part(s.mapInfo, done), true)
      invariant mapNew == NewRefs(Part(s.mapInfo, done))
      invariant CountsOf(Part(s.mapInfo, done), local)
      decreases |todo|
    {
      hide IdsIn, NewRefs, CountsOf, Part, EntryChecked, EntryCode;
      Inhabited(todo);
      var n :| n in todo;
      var info := s.mapInfo[n];
      PartExtended(s.mapInfo, done, n);
      NotYetDone(s.mapInfo, done, n);
      CountsExtended(Part(s.mapInfo, done), n, info, local);
      code := EntryCode(s, n);
      if code != 0 { return; }
      if info.inTried {
        setTried := setTried + {n};
        local := Bump(local, info.service.net.network, 0, 1);
      } else {
        mapNew := mapNew[n := info.nRefCount];
        local := Bump(local, info.service.net.network, 1, 0);
      }
      done, todo := done + {n}, todo - {n};
    }
    WholePart(s.mapInfo, done);
  }

  lemma Inhabited(c: set<int>)
    requires c != {}
    ensures exists x :: x in c
  {
    assert (forall x :: x !in c) ==> c == {};
  }

  lemma EmptyPart(m: InfoMap)
    ensures Part(m, {}) == map[] && IdsIn(Part(m, {}), true) == {} && NewRefs(Part(m, {})) == map[]
    ensures CountsOf(Part(m, {}), map[])
  {
    var p := Part(m, {});
    assert p == map[];
    forall net: Network ensures |IdsInNet(p, false, net)| == 0 && |IdsInNet(p, true, net)| == 0 {
      assert IdsInNet(p, false, net) == {} && IdsInNet(p, true, net) == {};
    }
    assert Networks(p) == {};
  }

  lemma NotYetDone(m: InfoMap, done: set<int>, id: int)
    requires id !in done
    ensures id !in Part(m, done)
  {
  }

  lemma WholePart(m: InfoMap, done: set<int>)
    requires m.Keys - done == {}
    ensures Part(m, done) == m
    ensures forall id | id in m :: id in done
  {
    forall id | id in m ensures id in done {
      assert id !in m.Keys - done;
    }
  }

  // ---- The table scans ----

  /** Slots visited by the nested loops before (n, i). */
  predicate Before(k: Slot, n: int, i: int) {
    k.0 < n || (k.0 == n && k.1 < i)
  }

  ghost predicate TriedSlotOk(h: Hashing, m: InfoMap, t: Table, k: Slot)
    requires k in t
  {
    t[k] in m && m[t[k]].inTried && k == TriedSlot(h, m[t[k]].service)
  }

  /** The tried ids with no slot before (n, i). */
  ghost predicate Unseen(m: InfoMap, t: Table, n: int, i: int, left: set<int>) {
    && (forall id | id in left :: id in m && m[id].inTried)
    && (forall k | k in t && Before(k, n, i) :: t[k] !in left)
    && (forall id | id in m && m[id].inTried && id !in left :: exists k :: k in t && Before(k, n, i) && t[k] == id)
  }

  method CheckTried(s: State, setTried: set<int>) returns (code: int, left: set<int>)
    requires setTried == IdsIn(s.mapInfo, true) && InGrid(s.vvTried, TRIED_BUCKET_COUNT)
    ensures code in {0, -11, -17, -18}
    ensures code != 0 ==> !TriedTableOk(s.h, s.mapInfo, s.vvTried)
    ensures code == 0 ==> (left == {} <==> TriedTableOk(s.h, s.mapInfo, s.vvTried))
  {
    left, code := setTried, 0;
    for n := 0 to TRIED_BUCKET_COUNT
      invariant forall k | k in s.vvTried && Before(k, n, 0) :: TriedSlotOk(s.h, s.mapInfo, s.vvTried, k)
      invariant Unseen(s.mapInfo, s.vvTried, n, 0, left)
    {
      hide TriedTableOk;
      for i := 0 to BUCKET_SIZE
        invariant forall k | k in s.vvTried && Before(k, n, i) :: TriedSlotOk(s.h, s.mapInfo, s.vvTried, k)
        invariant Unseen(s.mapInfo, s.vvTried, n, i, left)
      {
        if (n, i) in s.vvTried {
          var id := s.vvTried[(n, i)];
          if id !in left { TriedTwice(s, n, i, left); code := -11; return; }
          if id !in s.mapInfo || s.h.tried(s.mapInfo[id].service) % TRIED_BUCKET_COUNT != n {
            NotTriedTable(s, (n, i));
            code := -17; return;
          }
          if Position(s.h, false, n, s.mapInfo[id].service) != i { NotTriedTable(s, (n, i)); code := -18; return; }
          SeenOne(s.mapInfo, s.vvTried, n, i, left);
          left := left - {id};
        } else {
          NoneSeen(s.mapInfo, s.vvTried, n, i, left);
        }
      }
      RowDone(s.mapInfo, s.vvTried, n, left);
    }
    AllSeen(s, left);
  }

  lemma NotTriedTable(s: State, k: Slot)
    requires k in s.vvTried && !TriedSlotOk(s.h, s.mapInfo, s.vvTried, k)
    ensures !TriedTableOk(s.h, s.mapInfo, s.vvTried)
  {
  }

  /** An id met twice sits in two slots, one of which cannot be its own. */
  lemma TriedTwice(s: State, n: int, i: int, left: set<int>)
    requires (n, i) in s.vvTried && s.vvTried[(n, i)] !in left
    requires forall k | k in s.vvTried && Before(k, n, i) :: TriedSlotOk(s.h, s.mapInfo, s.vvTried, k)
    requires Unseen(s.mapInfo, s.vvTried, n, i, left)
    ensures !TriedTableOk(s.h, s.mapInfo, s.vvTried)
  {
    var id := s.vvTried[(n, i)];
    if id in s.mapInfo && s.mapInfo[id].inTried {
      var k :| k in s.vvTried && Before(k, n, i) && s.vvTried[k] == id;
      assert TriedSlotOk(s.h, s.mapInfo, s.vvTried, k);
      assert k != (n, i);
    }
  }

  lemma SeenOne(m: InfoMap, t: Table, n: int, i: int, left: set<int>)
    requires Unseen(m, t, n, i, left) && (n, i) in t && t[(n, i)] in left
    ensures Unseen(m, t, n, i + 1, left - {t[(n, i)]})
  {
    forall k | k in t && Before(k, n, i + 1) ensures t[k] !in left - {t[(n, i)]} {
      assert Before(k, n, i) || k == (n, i);
    }
    forall id | id in m && m[id].inTried && id !in left - {t[(n, i)]}
      ensures exists k :: k in t && Before(k, n, i + 1) && t[k] == id
    {
      if id in left {
        assert Before((n, i), n, i + 1);
      } else {
        var k :| k in t && Before(k, n, i) && t[k] == id;
        assert Before(k, n, i + 1);
      }
    }
  }

  lemma NoneSeen(m: InfoMap, t: Table, n: int, i: int, left: set<int>)
    requires Unseen(m, t, n, i, left) && (n, i) !in t
    ensures Unseen(m, t, n, i + 1, left)
  {
    forall k | k in t && Before(k, n, i + 1) ensures Before(k, n, i) {
      assert k != (n, i);
    }
    forall id | id in m && m[id].inTried && id !in left
      ensures exists k :: k in t && Before(k, n, i + 1) && t[k] == id
    {
      var k :| k in t && Before(k, n, i) && t[k] == id;
      assert Before(k, n, i + 1);
    }
  }

  lemma RowDone(m: InfoMap, t: Table, n: int, left: set<int>)
    requires InGrid(t, TRIED_BUCKET_COUNT) && Unseen(m, t, n, BUCKET_SIZE, left)
    ensures Unseen(m, t, n + 1, 0, left)
    ensures forall k | k in t && Before(k, n + 1, 0) :: Before(k, n, BUCKET_SIZE)
  {
    forall id | id in m && m[id].inTried && id !in left
      ensures exists k :: k in t && Before(k, n + 1, 0) && t[k] == id
    {
      var k :| k in t && Before(k, n, BUCKET_SIZE) && t[k] == id;
      assert Before(k, n + 1, 0);
    }
  }

  lemma AllSeen(s: State, left: set<int>)
    requires InGrid(s.vvTried, TRIED_BUCKET_COUNT)
    requires forall k | k in s.vvTried && Before(k, TRIED_BUCKET_COUNT, 0) :: TriedSlotOk(s.h, s.mapInfo, s.vvTried, k)
    requires Unseen(s.mapInfo, s.vvTried, TRIED_BUCKET_COUNT, 0, left)
    ensures left == {} <==> TriedTableOk(s.h, s.mapInfo, s.vvTried)
  {
    var t := s.vvTried;
    assert forall k | k in t :: Before(k, TRIED_BUCKET_COUNT, 0);
    if left == {} {
      forall id | id in s.mapInfo && s.mapInfo[id].inTried
        ensures TriedSlot(s.h, s.mapInfo[id].service) in t && t[TriedSlot(s.h, s.mapInfo[id].service)] == id
      {
        var k :| k in t && Before(k, TRIED_BUCKET_COUNT, 0) && t[k] == id;
        assert TriedSlotOk(s.h, s.mapInfo, t, k);
      }
    } else {
      Inhabited(left);
      var id :| id in left;
      assert id in s.mapInfo;
    }
  }

  // ---- The new table ----

  ghost predicate NewSlotOk(h: Hashing, m: InfoMap, t: Table, k: Slot)
    requires k in t
  {
    t[k] in m && !m[t[k]].inTried && k.1 == Position(h, true, k.0, m[t[k]].service)
  }

  function SeenRefs(t: Table, id: int, n: int, i: int): set<Slot> {
    set k | k in t && t[k] == id && Before(k, n, i)
  }

  /** The countdown: each new id is still owed the references not yet met, and
      is dropped when none are owed. */
  ghost predicate Owed(m: InfoMap, t: Table, n: int, i: int, left: map<int, int>) {
    && (forall id | id in left ::
          id in m && !m[id].inTried && left[id] > 0 && left[id] == m[id].nRefCount - |SeenRefs(t, id, n, i)|)
    && (forall id | id in m && !m[id].inTried && id !in left :: |SeenRefs(t, id, n, i)| == m[id].nRefCount)
  }

  method CheckNew(s: State, mapNew: map<int, int>) returns (code: int, left: map<int, int>)
    requires mapNew == NewRefs(s.mapInfo) && EntriesChecked(s) && InGrid(s.vvNew, NEW_BUCKET_COUNT)
    ensures code in {0, -12, -19}
    ensures code != 0 ==> !NewChecked(s.h, s.mapInfo, s.vvNew)
    ensures code == 0 ==> (left == map[] <==> NewChecked(s.h, s.mapInfo, s.vvNew))
  {
    left, code := mapNew, 0;
    AllOwed(s);
    for n := 0 to NEW_BUCKET_COUNT
      invariant forall k | k in s.vvNew && Before(k, n, 0) :: NewSlotOk(s.h, s.mapInfo, s.vvNew, k)
      invariant Owed(s.mapInfo, s.vvNew, n, 0, left)
    {
      hide NewChecked, EntriesChecked, Owed;
      for i := 0 to BUCKET_SIZE
        invariant forall k | k in s.vvNew && Before(k, n, i) :: NewSlotOk(s.h, s.mapInfo, s.vvNew, k)
        invariant Owed(s.mapInfo, s.vvNew, n, i, left)
      {
        hide NewSlotOk;
        if (n, i) in s.vvNew {
          code, left := PayOne(s, n, i, left);
          if code != 0 {
            return;
          }
        } else {
          NothingPaid(s.mapInfo, s.vvNew, n, i, left);
        }
      }
      NewRowDone(s.mapInfo, s.vvNew, n, left);
    }
    AllPaid(s, left);
  }

  /** One occupied slot of the new table. */
  method PayOne(s: State, n: int, i: int, owed: map<int, int>) returns (code: int, left: map<int, int>)
    requires Owed(s.mapInfo, s.vvNew, n, i, owed) && (n, i) in s.vvNew
    ensures code in {0, -12, -19}
    ensures code != 0 ==> !NewChecked(s.h, s.mapInfo, s.vvNew)
    ensures code == 0 ==> Owed(s.mapInfo, s.vvNew, n, i + 1, left) && NewSlotOk(s.h, s.mapInfo, s.vvNew, (n, i))
  {
    hide SeenRefs, NewChecked;
    left, code := owed, 0;
    var id := s.vvNew[(n, i)];
    if id !in left {
      TooMany(s, n, i, left);
      code := -12;
      return;
    }
    if id !in s.mapInfo || Position(s.h, true, n, s.mapInfo[id].service) != i {
      NotNewTable(s, (n, i));
      code := -19;
      return;
    }
    left := left[id := left[id] - 1];
    if left[id] == 0 {
      left := left - {id};
    }
    PaidOne(s.mapInfo, s.vvNew, n, i, owed, left);
  }

  lemma AllOwed(s: State)
    requires EntriesChecked(s) && InGrid(s.vvNew, NEW_BUCKET_COUNT)
    ensures Owed(s.mapInfo, s.vvNew, 0, 0, NewRefs(s.mapInfo))
  {
    forall id | id in s.mapInfo && !s.mapInfo[id].inTried
      ensures |SeenRefs(s.vvNew, id, 0, 0)| == 0 && s.mapInfo[id].nRefCount > 0
    {
      assert SeenRefs(s.vvNew, id, 0, 0) == {};
      assert EntryChecked(s, id);
    }
  }

  lemma NotNewTable(s: State, k: Slot)
    requires k in s.vvNew && !NewSlotOk(s.h, s.mapInfo, s.vvNew, k)
    ensures !NewChecked(s.h, s.mapInfo, s.vvNew)
  {
  }

  lemma SeenStep(t: Table, id: int, n: int, i: int)
    ensures |SeenRefs(t, id, n, i + 1)| == |SeenRefs(t, id, n, i)| + if (n, i) in t && t[(n, i)] == id then 1 else 0
  {
    assert SeenRefs(t, id, n, i + 1)
        == SeenRefs(t, id, n, i) + if (n, i) in t && t[(n, i)] == id then {(n, i)} else {};
  }

  lemma SeenSome(t: Table, id: int, n: int, i: int)
    ensures |SeenRefs(t, id, n, i)| <= |Refs(t, id)|
    ensures (n, i) in t && t[(n, i)] == id ==> |SeenRefs(t, id, n, i)| < |Refs(t, id)|
  {
    SubsetCard(SeenRefs(t, id, n, i), Refs(t, id));
    if (n, i) in t && t[(n, i)] == id {
      SubsetCard(SeenRefs(t, id, n, i) + {(n, i)}, Refs(t, id));
    }
  }

  lemma {:induction false} SubsetCard(a: set<Slot>, b: set<Slot>)
    requires a <= b
    ensures |a| <= |b|
  {
    if a != {} {
      var x :| x in a;
      SubsetCard(a - {x}, b - {x});
    }
  }

  lemma TooMany(s: State, n: int, i: int, left: map<int, int>)
    requires (n, i) in s.vvNew && s.vvNew[(n, i)] !in left
    requires Owed(s.mapInfo, s.vvNew, n, i, left)
    ensures !NewChecked(s.h, s.mapInfo, s.vvNew)
  {
    hide Refs, SeenRefs;
    var id := s.vvNew[(n, i)];
    SeenSome(s.vvNew, id, n, i);
    if id in s.mapInfo && !s.mapInfo[id].inTried {
      assert |SeenRefs(s.vvNew, id, n, i)| == s.mapInfo[id].nRefCount;
    }
  }

  lemma PaidOne(m: InfoMap, t: Table, n: int, i: int, was: map<int, int>, left: map<int, int>)
    requires Owed(m, t, n, i, was) && (n, i) in t && t[(n, i)] in was
    requires var id := t[(n, i)];
      left == if was[id] == 1 then was - {id} else was[id := was[id] - 1]
    ensures Owed(m, t, n, i + 1, left)
  {
    hide SeenRefs;
    forall id ensures |SeenRefs(t, id, n, i + 1)| == |SeenRefs(t, id, n, i)| + if t[(n, i)] == id then 1 else 0 {
      SeenStep(t, id, n, i);
    }
  }

  lemma NothingPaid(m: InfoMap, t: Table, n: int, i: int, left: map<int, int>)
    requires Owed(m, t, n, i, left) && (n, i) !in t
    ensures Owed(m, t, n, i + 1, left)
    ensures forall k | k in t && Before(k, n, i + 1) :: Before(k, n, i)
  {
    hide SeenRefs;
    forall id ensures |SeenRefs(t, id, n, i + 1)| == |SeenRefs(t, id, n, i)| {
      SeenStep(t, id, n, i);
    }
    forall k | k in t && Before(k, n, i + 1) ensures Before(k, n, i) {
      assert k != (n, i);
    }
  }

  lemma NewRowDone(m: InfoMap, t: Table, n: int, left: map<int, int>)
    requires InGrid(t, NEW_BUCKET_COUNT) && Owed(m, t, n, BUCKET_SIZE, left)
    ensures Owed(m, t, n + 1, 0, left)
    ensures forall k | k in t && Before(k, n + 1, 0) :: Before(k, n, BUCKET_SIZE)
  {
    forall id ensures SeenRefs(t, id, n + 1, 0) == SeenRefs(t, id, n, BUCKET_SIZE) {
    }
  }

  lemma AllPaid(s: State, left: map<int, int>)
    requires InGrid(s.vvNew, NEW_BUCKET_COUNT)
    requires forall k | k in s.vvNew && Before(k, NEW_BUCKET_COUNT, 0) :: NewSlotOk(s.h, s.mapInfo, s.vvNew, k)
    requires Owed(s.mapInfo, s.vvNew, NEW_BUCKET_COUNT, 0, left)
    ensures left == map[] <==> NewChecked(s.h, s.mapInfo, s.vvNew)
  {
    var t := s.vvNew;
    forall id ensures SeenRefs(t, id, NEW_BUCKET_COUNT, 0) == Refs(t, id) {
    }
    hide SeenRefs, Refs;
    if left != map[] {
      assert left.Keys != {};
      Inhabited(left.Keys);
      var id :| id in left.Keys;
      assert id in s.mapInfo && |Refs(t, id)| == s.mapInfo[id].nRefCount - left[id];
    }
    assert forall k | k in t :: Before(k, NEW_BUCKET_COUNT, 0) && NewSlotOk(s.h, s.mapInfo, t, k);
  }

  // ---- The whole check ----

  method CheckNetworks(m: InfoMap, counts: NetCounts, local: NetCounts) returns (code: int)
    requires CountsOf(m, local)
    ensures code in {0, -20, -21}
    ensures code == 0 <==> NetworksChecked(m, counts)
  {
    hide IdsInNet, Networks;
    if |counts.Keys| < |local.Keys| { return -20; }
    var todo := counts.Keys;
    while todo != {}
      invariant todo <= counts.Keys
      invariant forall net | net in counts && net !in todo :: counts[net] == CountOf(local, net)
      decreases |todo|
    {
      assert (forall x :: x !in todo) ==> todo == {};
      var net :| net in todo;
      if CountOf(local, net) != counts[net] { return -21; }
      todo := todo - {net};
    }
    return 0;
  }

  /** CheckAddrman returns 0 exactly on the states `Checked` describes. */
  method CheckAddrman(s: State, keyIsNull: bool) returns (code: int)
    requires InGrid(s.vvTried, TRIED_BUCKET_COUNT) && InGrid(s.vvNew, NEW_BUCKET_COUNT)
    ensures code == 0 <==> Checked(s) && !keyIsNull
  {
    hide EntriesChecked, TriedTableOk, NewChecked, NetworksChecked, CountsOf;
    if |s.vRandom| != s.nTried + s.nNew { return -7; }
    var setTried, mapNew, local;
    code, setTried, mapNew, local := CheckEntries(s);
    if code != 0 { return; }
    if |setTried| != s.nTried { return -9; }
    NewRefsSize(s.mapInfo);
    if |mapNew| != s.nNew { return -10; }
    var triedLeft, newLeft;
    code, triedLeft := CheckTried(s, setTried);
    if code != 0 { return; }
    code, newLeft := CheckNew(s, mapNew);
    if code != 0 { return; }
    if triedLeft != {} { return -13; }
    if newLeft != map[] { return -15; }
    if keyIsNull { return -16; }
    code := CheckNetworks(s.mapInfo, s.counts, local);
  }

  lemma NewRefsSize(m: InfoMap)
    ensures |NewRefs(m)| == |IdsIn(m, false)|
  {
    assert NewRefs(m).Keys == IdsIn(m, false);
  }

  // ---- The check against the invariant ----

  lemma {:induction false} NetSubsetCard(a: set<Network>, b: set<Network>)
    requires a <= b
    ensures |a| <= |b|
  {
    if a != {} {
      assert (forall x :: x !in a) ==> a == {};
      var x :| x in a;
      NetSubsetCard(a - {x}, b - {x});
    }
  }

  lemma CountedNetworks(m: InfoMap, nNew: int, nTried: int, c: NetCounts)
    requires CountersOk(m, nNew, nTried, c)
    ensures Networks(m) <= c.Keys && NetworksChecked(m, c)
  {
    forall net | net in Networks(m) ensures net in c {
      var id :| id in m && m[id].service.net.network == net;
      assert id in IdsInNet(m, m[id].inTried, net);
      assert CountOf(c, net) == NetCount(|IdsInNet(m, false, net)|, |IdsInNet(m, true, net)|);
    }
    NetSubsetCard(Networks(m), c.Keys);
    forall net | net in c ensures c[net] == NetCount(|IdsInNet(m, false, net)|, |IdsInNet(m, true, net)|) {
      assert CountOf(c, net) == c[net];
    }
  }

  /** Positions are a bijection when every id has its own place and there are as
      many places as ids. */
  lemma PlacesFilled(m: InfoMap, r: seq<int>, p: nat)
    requires forall id | id in m :: 0 <= m[id].randomPos < |r| && r[m[id].randomPos] == id
    requires |r| == |m| && p < |r|
    ensures r[p] in m && m[r[p]].randomPos == p
  {
    if forall id | id in m :: m[id].randomPos != p {
      InjectionCard(m, m.Keys, Below(|r|) - {p});
    } else {
      var id :| id in m && m[id].randomPos == p;
    }
  }

  function Below(n: nat): (r: set<int>)
    ensures forall x :: x in r <==> 0 <= x < n
    ensures |r| == n
  {
    if n == 0 then {} else Below(n - 1) + {n - 1}
  }

  lemma {:induction false} InjectionCard(m: InfoMap, ids: set<int>, places: set<int>)
    requires ids <= m.Keys
    requires forall id | id in ids :: m[id].randomPos in places
    requires forall a, b | a in ids && b in ids && a != b :: m[a].randomPos != m[b].randomPos
    ensures |ids| <= |places|
  {
    if ids != {} {
      Inhabited(ids);
      var id :| id in ids;
      InjectionCard(m, ids - {id}, places - {m[id].randomPos});
    }
  }

  lemma SplitSize(m: InfoMap)
    ensures |m| == |IdsIn(m, true)| + |IdsIn(m, false)|
  {
    assert m.Keys == IdsIn(m, true) + IdsIn(m, false);
    assert IdsIn(m, true) !! IdsIn(m, false);
  }

  lemma RandomSize(m: InfoMap, r: seq<int>)
    requires RandomOk(m, r)
    ensures |r| == |m|
  {
    InjectionCard(m, m.Keys, Below(|r|));
    forall p, q | 0 <= p < q < |r| ensures r[p] != r[q] {
      assert m[r[p]].randomPos == p && m[r[q]].randomPos == q;
    }
    PlacesCard(m.Keys, r, |r|);
  }

  lemma {:induction false} PlacesCard(ids: set<int>, r: seq<int>, n: nat)
    requires n <= |r| && forall p | 0 <= p < n :: r[p] in ids
    requires forall p, q | 0 <= p < q < n :: r[p] != r[q]
    ensures n <= |ids|
  {
    if n > 0 {
      PlacesCard(ids - {r[n - 1]}, r, n - 1);
    }
  }

  /** A consistent manager passes its own check. */
  lemma ConsistentPasses(s: State)
    requires Consistent(s)
    ensures Checked(s)
  {
    hide CountersOk, RandomOk, NewTableOk, TriedTableOk, AddrOk, NetworksChecked;
    CountedNetworks(s.mapInfo, s.nNew, s.nTried, s.counts);
    RandomSize(s.mapInfo, s.vRandom);
    SplitSize(s.mapInfo);
    CountersSizes(s);
    NewPasses(s.h, s.mapInfo, s.vvNew);
    forall id | id in s.mapInfo ensures EntryChecked(s, id) {
      EntryPasses(s, id);
    }
  }

  lemma CountersSizes(s: State)
    requires CountersOk(s.mapInfo, s.nNew, s.nTried, s.counts)
    ensures s.nNew == |IdsIn(s.mapInfo, false)| && s.nTried == |IdsIn(s.mapInfo, true)|
  {
  }

  lemma NewPasses(h: Hashing, m: InfoMap, t: Table)
    requires NewTableOk(h, m, t)
    ensures NewChecked(h, m, t)
  {
  }

  lemma EntryPasses(s: State, id: int)
    requires Consistent(s) && id in s.mapInfo
    ensures EntryChecked(s, id)
  {
    hide CountersOk, NewTableOk, TriedTableOk;
  }

  /** What CheckAddrman does not look at: stale addresses in mapAddr, ids at or
      above nIdCount, and networks that have entries but no counter. */
  ghost predicate BlindSpotsClear(s: State) {
    && (forall a | a in s.mapAddr :: s.mapAddr[a] in s.mapInfo && s.mapInfo[s.mapAddr[a]].service == a)
    && (forall id | id in s.mapInfo :: 0 <= id < s.nIdCount)
    && 0 <= s.nIdCount
    && Networks(s.mapInfo) <= s.counts.Keys
  }

  /** Apart from those blind spots, passing the check is being consistent. */
  lemma PassingMeansConsistent(s: State)
    requires Checked(s) && InGrid(s.vvNew, NEW_BUCKET_COUNT)
    ensures Consistent(s) <==> BlindSpotsClear(s)
  {
    hide CountersOk, RandomOk, NewTableOk, TriedTableOk, NetworksChecked, NewChecked;
    if Consistent(s) {
      CountedNetworks(s.mapInfo, s.nNew, s.nTried, s.counts);
      forall a | a in s.mapAddr ensures s.mapAddr[a] in s.mapInfo && s.mapInfo[s.mapAddr[a]].service == a {
      }
    }
    if BlindSpotsClear(s) {
      CheckedRandom(s);
      CheckedCounters(s);
      CheckedNew(s);
      forall id | id in s.mapInfo ensures EntryOk(s.mapInfo[id]) && EntryChecked(s, id) {
      }
    }
  }

  lemma CheckedRandom(s: State)
    requires Checked(s)
    ensures RandomOk(s.mapInfo, s.vRandom)
  {
    hide TriedTableOk, NetworksChecked, NewChecked;
    SplitSize(s.mapInfo);
    forall id | id in s.mapInfo
      ensures 0 <= s.mapInfo[id].randomPos < |s.vRandom| && s.vRandom[s.mapInfo[id].randomPos] == id
    {
      assert EntryChecked(s, id);
    }
    forall p | 0 <= p < |s.vRandom| ensures s.vRandom[p] in s.mapInfo && s.mapInfo[s.vRandom[p]].randomPos == p {
      PlacesFilled(s.mapInfo, s.vRandom, p);
    }
  }

  lemma CheckedCounters(s: State)
    requires Checked(s) && Networks(s.mapInfo) <= s.counts.Keys
    ensures CountersOk(s.mapInfo, s.nNew, s.nTried, s.counts)
  {
    hide TriedTableOk, NewChecked, EntriesChecked;
    forall net: Network
      ensures CountOf(s.counts, net) == NetCount(|IdsInNet(s.mapInfo, false, net)|, |IdsInNet(s.mapInfo, true, net)|)
    {
      if net !in s.counts {
        NoSuchNetwork(s.mapInfo, net);
      }
    }
  }

  lemma NoSuchNetwork(m: InfoMap, net: Network)
    requires net !in Networks(m)
    ensures IdsInNet(m, false, net) == {} && IdsInNet(m, true, net) == {}
  {
    assert forall id | id in m :: m[id].service.net.network in Networks(m);
  }

  lemma CheckedNew(s: State)
    requires NewChecked(s.h, s.mapInfo, s.vvNew) && EntriesChecked(s) && InGrid(s.vvNew, NEW_BUCKET_COUNT)
    ensures NewTableOk(s.h, s.mapInfo, s.vvNew)
  {
    forall id | id in s.mapInfo ensures |Refs(s.vvNew, id)| == s.mapInfo[id].nRefCount {
      assert EntryChecked(s, id);
      if s.mapInfo[id].inTried {
        assert Refs(s.vvNew, id) == {};
      }
    }
  }

  /** The network blind spot is real: with one IPv4 entry and a zero counter
      for IPv6 only, the check passes although the IPv4 count is wrong. */
  lemma CheckMissesNetwork(h: Hashing, a: Service) returns (s: State)
    requires a.net.network == IPv4
    ensures Checked(s) && !Consistent(s) && CountOf(s.counts, IPv4).nNew != |IdsInNet(s.mapInfo, false, IPv4)|
  {
    var i := AddrInfo(a, 0, 0, a.net, 0, 0, 0, 0, 1, false, 0);
    var k := NewSlot(h, a, a.net);
    s := State(h, 1, map[0 := i], map[a := 0], [0], 0, map[], 1, map[k := 0], 1, {}, map[IPv6 := NetCount(0, 0)]);
    assert IdsIn(s.mapInfo, true) == {} && IdsIn(s.mapInfo, false) == {0};
    assert Refs(s.vvNew, 0) == {k};
    assert s.mapInfo[0] == i;
    assert Networks(s.mapInfo) == {IPv4};
    assert IdsInNet(s.mapInfo, false, IPv4) == {0};
    assert IdsInNet(s.mapInfo, false, IPv6) == {} && IdsInNet(s.mapInfo, true, IPv6) == {};
    assert s.counts.Keys == {IPv6};
    assert EntryChecked(s, 0);
  }
}
