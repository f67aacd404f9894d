/** The address manager's data (`AddrInfo`, the `AddrManImpl` fields and the
    ADDRMAN_* constants).  Tables map an occupied (bucket, position) to the id
    stored there; an absent slot is the source's -1. */
module AddrManTypes {
  const TRIED_BUCKET_COUNT := 256
  const NEW_BUCKET_COUNT := 1024
  const BUCKET_SIZE := 64
  const NEW_BUCKETS_PER_ADDRESS := 8
  const HORIZON := 30 * 24 * 3600
  const RETRIES := 3
  const MAX_FAILURES := 10
  const MIN_FAIL := 7 * 24 * 3600
  const REPLACEMENT := 4 * 3600
  const SET_TRIED_COLLISION_SIZE := 10
  const TEST_WINDOW := 40 * 60

  datatype Network = Unroutable | IPv4 | IPv6 | Onion | I2P | Cjdns | Internal

  /** `network` is what GetNetwork() answers for the address, which sets internal
      and unroutable addresses apart; `bytes` stands for all that is stored. */
  datatype NetAddr = NetAddr(network: Network, bytes: seq<bv8>)
  datatype Service = Service(net: NetAddr, port: bv16)

  /** CAddress: what a peer announces. */
  datatype Address = Address(service: Service, nTime: int, nServices: bv64)

  datatype AddrInfo = AddrInfo(
    service: Service,
    nTime: int,
    nServices: bv64,
    source: NetAddr,
    lastTry: int,
    lastCountAttempt: int,
    lastSuccess: int,
    nAttempts: int,
    nRefCount: int,
    inTried: bool,
    randomPos: int)

  type Slot = (int, int)
  type Table = map<Slot, int>
  type InfoMap = map<int, AddrInfo>

  datatype NetCount = NetCount(nNew: int, nTried: int)
  type NetCounts = map<Network, NetCount>

  /** The keyed hashes and the address classification, all arbitrary.  A hash
      stands for one `GetCheapHash` value under the manager's fixed key. */
  datatype Hashing = Hashing(
    tried: Service -> nat,
    newBucket: (NetAddr, NetAddr) -> nat,
    position: (bool, int, Service) -> nat,
    routable: NetAddr -> bool,
    valid: NetAddr -> bool,
    netClass: NetAddr -> Network)

  datatype State = State(
    h: Hashing,
    nIdCount: int,
    mapInfo: InfoMap,
    mapAddr: map<Service, int>,
    vRandom: seq<int>,
    nTried: int,
    vvTried: Table,
    nNew: int,
    vvNew: Table,
    lastGood: int,
    collisions: set<int>,
    counts: NetCounts)

  function NewBucket(h: Hashing, a: Service, source: NetAddr): (b: int)
    ensures 0 <= b < NEW_BUCKET_COUNT
  {
    h.newBucket(a.net, source) % NEW_BUCKET_COUNT
  }

  function Position(h: Hashing, isNew: bool, bucket: int, a: Service): (p: int)
    ensures 0 <= p < BUCKET_SIZE
  {
    h.position(isNew, bucket, a) % BUCKET_SIZE
  }

  function NewSlot(h: Hashing, a: Service, source: NetAddr): Slot {
    var b := NewBucket(h, a, source);
    (b, Position(h, true, b, a))
  }

  function TriedSlot(h: Hashing, a: Service): Slot {
    var b := h.tried(a) % TRIED_BUCKET_COUNT;
    (b, Position(h, false, b, a))
  }

  predicate IsTerrible(i: AddrInfo, now: int) {
    if now - i.lastTry <= 60 then false
    else if i.nTime > now + 600 then true
    else if now - i.nTime > HORIZON then true
    else if i.lastSuccess == 0 && i.nAttempts >= RETRIES then true
    else now - i.lastSuccess > MIN_FAIL && i.nAttempts >= MAX_FAILURES
  }

  function CountOf(c: NetCounts, net: Network): NetCount {
    if net in c then c[net] else NetCount(0, 0)
  }

  /** `m_network_counts[net]` with both counters adjusted. */
  function Bump(c: NetCounts, net: Network, dNew: int, dTried: int): NetCounts {
    var was := CountOf(c, net);
    c[net := NetCount(was.nNew + dNew, was.nTried + dTried)]
  }

  function Empty(h: Hashing): State {
    State(h, 0, map[], map[], [], 0, map[], 0, map[], 1, {}, map[])
  }

  /** The slots of a table that hold an id. */
  function Refs(t: Table, id: int): set<Slot> {
    set k | k in t && t[k] == id
  }

  function IdsIn(m: InfoMap, tried: bool): set<int> {
    set id | id in m && m[id].inTried == tried
  }

  function IdsInNet(m: InfoMap, tried: bool, net: Network): set<int> {
    set id | id in m && m[id].inTried == tried && m[id].service.net.network == net
  }

  // ---- The consistency that CheckAddrman samples, stated over the fields ----

  ghost predicate EntryOk(i: AddrInfo) {
    && 0 <= i.lastTry && 0 <= i.lastSuccess
    && (if i.inTried then 0 < i.lastSuccess && i.nRefCount == 0
        else 0 <= i.nRefCount <= NEW_BUCKETS_PER_ADDRESS)
  }

  ghost predicate EntriesOk(m: InfoMap, nIdCount: int) {
    forall id | id in m :: 0 <= id < nIdCount && EntryOk(m[id])
  }

  ghost predicate RandomOk(m: InfoMap, r: seq<int>) {
    && (forall id | id in m :: 0 <= m[id].randomPos < |r| && r[m[id].randomPos] == id)
    && (forall p | 0 <= p < |r| :: r[p] in m && m[r[p]].randomPos == p)
  }

  ghost predicate AddrOk(m: InfoMap, a: map<Service, int>) {
    && (forall id | id in m :: m[id].service in a && a[m[id].service] == id)
    && (forall x | x in a :: a[x] in m && m[a[x]].service == x)
  }

  ghost predicate NewTableOk(h: Hashing, m: InfoMap, t: Table) {
    && (forall k | k in t ::
          && 0 <= k.0 < NEW_BUCKET_COUNT
          && t[k] in m && !m[t[k]].inTried
          && k.1 == Position(h, true, k.0, m[t[k]].service))
    && (forall id | id in m :: |Refs(t, id)| == m[id].nRefCount)
  }

  ghost predicate TriedTableOk(h: Hashing, m: InfoMap, t: Table) {
    && (forall k | k in t :: t[k] in m && m[t[k]].inTried && k == TriedSlot(h, m[t[k]].service))
    && (forall id | id in m && m[id].inTried ::
          TriedSlot(h, m[id].service) in t && t[TriedSlot(h, m[id].service)] == id)
  }

  ghost predicate CountersOk(m: InfoMap, nNew: int, nTried: int, counts: NetCounts) {
    && nNew == |IdsIn(m, false)|
    && nTried == |IdsIn(m, true)|
    && (forall net: Network ::
          CountOf(counts, net) == NetCount(|IdsInNet(m, false, net)|, |IdsInNet(m, true, net)|))
  }

  /** Everything except "every new entry is referenced", which the source
      suspends between creating an entry and placing it. */
  ghost predicate Core(s: State) {
    && EntriesOk(s.mapInfo, s.nIdCount)
    && RandomOk(s.mapInfo, s.vRandom)
    && AddrOk(s.mapInfo, s.mapAddr)
    && NewTableOk(s.h, s.mapInfo, s.vvNew)
    && TriedTableOk(s.h, s.mapInfo, s.vvTried)
    && CountersOk(s.mapInfo, s.nNew, s.nTried, s.counts)
    && 0 <= s.nIdCount
  }

  /** New entries with no slot in the new table. */
  ghost predicate OnlyUnplaced(m: InfoMap, ids: set<int>) {
    forall id | id in m && !m[id].inTried && m[id].nRefCount == 0 :: id in ids
  }

  ghost predicate Consistent(s: State) {
    Core(s) && OnlyUnplaced(s.mapInfo, {})
  }

  /** The test-before-evict set: bounded, never naming an id that could be
      reused, and every candidate still present is a new entry whose tried slot
      is taken. */
  ghost predicate CollisionsOk(s: State) {
    && |s.collisions| <= SET_TRIED_COLLISION_SIZE
    && (forall id | id in s.collisions :: id < s.nIdCount)
    && (forall id | id in s.collisions && id in s.mapInfo ::
          !s.mapInfo[id].inTried && TriedSlot(s.h, s.mapInfo[id].service) in s.vvTried)
  }

  ghost predicate Inv(s: State) {
    Consistent(s) && CollisionsOk(s)
  }
}

/** The primitive updates (`Create`, `SwapRandom`, `Delete`, `ClearNew` and the
    pieces of `MakeTried`), each with the proof that it keeps `Core`. */
module AddrManPrimitives {
  import opened AddrManTypes

  const DEFAULT_INFO :=
    AddrInfo(Service(NetAddr(Unroutable, []), 0), 0, 0, NetAddr(Unroutable, []), 0, 0, 0, 0, 0, false, -1)

  /** `mapInfo[id]`, which default-constructs what it does not find. */
  function Rec(m: InfoMap, id: int): AddrInfo {
    if id in m then m[id] else DEFAULT_INFO
  }

  function SetInfo(s: State, id: int, i: AddrInfo): State {
    s.(mapInfo := s.mapInfo[id := i])
  }

  function FreshInfo(a: Address, source: NetAddr, pos: int): AddrInfo {
    AddrInfo(a.service, a.nTime, a.nServices, source, 0, 0, 0, 0, 0, false, pos)
  }

  function Create(s: State, a: Address, source: NetAddr): State {
    var id := s.nIdCount;
    s.(nIdCount := id + 1,
       mapInfo := s.mapInfo[id := FreshInfo(a, source, |s.vRandom|)],
       mapAddr := s.mapAddr[a.service := id],
       vRandom := s.vRandom + [id],
       nNew := s.nNew + 1,
       counts := Bump(s.counts, a.service.net.network, 1, 0))
  }

  /** What `SwapRandom` asserts when the two places differ. */
  predicate Swappable(s: State, p: int, q: int) {
    && 0 <= p < |s.vRandom| && 0 <= q < |s.vRandom|
    && s.vRandom[p] in s.mapInfo && s.vRandom[q] in s.mapInfo
  }

  function SwapRandom(s: State, p: int, q: int): (t: State)
    ensures |t.vRandom| == |s.vRandom|
  {
    if p == q || !Swappable(s, p, q) then s else
      var a, b := s.vRandom[p], s.vRandom[q];
      var m := s.mapInfo[a := s.mapInfo[a].(randomPos := q)];
      s.(mapInfo := m[b := m[b].(randomPos := p)], vRandom := s.vRandom[p := b][q := a])
  }

  /** What `Delete` asserts of its argument. */
  predicate Deletable(s: State, id: int) {
    id in s.mapInfo && !s.mapInfo[id].inTried && s.mapInfo[id].nRefCount == 0
  }

  function Front(r: seq<int>): seq<int> {
    if r == [] then [] else r[..|r| - 1]
  }

  function Delete(s: State, id: int): State {
    var i := Rec(s.mapInfo, id);
    var t := SwapRandom(s, i.randomPos, |s.vRandom| - 1);
    t.(vRandom := Front(t.vRandom),
       counts := Bump(t.counts, i.service.net.network, -1, 0),
       mapAddr := t.mapAddr - {i.service},
       mapInfo := t.mapInfo - {id},
       nNew := t.nNew - 1)
  }

  /** Take one reference away: the first half of `ClearNew`. */
  function DropRef(s: State, k: Slot): State
    requires k in s.vvNew
  {
    var i := Rec(s.mapInfo, s.vvNew[k]);
    SetInfo(s, s.vvNew[k], i.(nRefCount := i.nRefCount - 1)).(vvNew := s.vvNew - {k})
  }

  function ClearNew(s: State, k: Slot): State {
    if k !in s.vvNew then s else
      var t := DropRef(s, k);
      if t.mapInfo[s.vvNew[k]].nRefCount == 0 then Delete(t, s.vvNew[k]) else t
  }

  /** Enter `id` at a free slot of the new table. */
  function AddRef(s: State, k: Slot, id: int): State {
    var i := Rec(s.mapInfo, id);
    SetInfo(s, id, i.(nRefCount := i.nRefCount + 1)).(vvNew := s.vvNew[k := id])
  }

  /** Remove every reference to `id`: what the bucket scan of `MakeTried` must achieve. */
  function DropAllRefs(s: State, id: int): State {
    SetInfo(s, id, Rec(s.mapInfo, id).(nRefCount := 0)).(vvNew := s.vvNew - Refs(s.vvNew, id))
  }

  /** Take a tried entry out of its slot; it becomes an unplaced new entry. */
  function Demote(s: State, k: Slot): State
    requires k in s.vvTried
  {
    var i := Rec(s.mapInfo, s.vvTried[k]);
    SetInfo(s, s.vvTried[k], i.(inTried := false)).(
      vvTried := s.vvTried - {k},
      nTried := s.nTried - 1,
      nNew := s.nNew + 1,
      counts := Bump(s.counts, i.service.net.network, 1, -1))
  }

  /** Move an unplaced new entry into its free tried slot. */
  function Promote(s: State, id: int): State {
    var i := Rec(s.mapInfo, id);
    SetInfo(s, id, i.(inTried := true)).(
      vvTried := s.vvTried[TriedSlot(s.h, i.service) := id],
      nTried := s.nTried + 1,
      nNew := s.nNew - 1,
      counts := Bump(s.counts, i.service.net.network, -1, 1))
  }

  // ---- Cardinalities under the updates ----

  /** Overwriting an entry without moving it between classes changes no counter. */
  ghost predicate SameClasses(m: InfoMap, n: InfoMap) {
    && (forall id :: id in m <==> id in n)
    && forall id | id in m :: m[id].inTried == n[id].inTried && m[id].service == n[id].service
  }

  lemma SameIds(m: InfoMap, n: InfoMap, b: bool, net: Network)
    requires SameClasses(m, n)
    ensures IdsIn(m, b) == IdsIn(n, b) && IdsInNet(m, b, net) == IdsInNet(n, b, net)
  {
    assert forall id :: id in IdsIn(m, b) <==> id in IdsIn(n, b);
    assert forall id :: id in IdsInNet(m, b, net) <==> id in IdsInNet(n, b, net);
  }

  lemma CountersSame(m: InfoMap, n: InfoMap, nNew: int, nTried: int, c: NetCounts)
    requires SameClasses(m, n) && CountersOk(m, nNew, nTried, c)
    ensures CountersOk(n, nNew, nTried, c)
  {
    hide IdsIn, IdsInNet;
    forall net: Network, b: bool ensures IdsInNet(m, b, net) == IdsInNet(n, b, net) {
      SameIds(m, n, b, net);
    }
    SameIds(m, n, false, IPv4);
    SameIds(m, n, true, IPv4);
  }

  lemma NetAdd(m: InfoMap, id: int, i: AddrInfo, net: Network)
    requires id !in m
    ensures var d := if net == i.service.net.network then 1 else 0;
      && |IdsInNet(m[id := i], i.inTried, net)| == |IdsInNet(m, i.inTried, net)| + d
      && |IdsInNet(m[id := i], !i.inTried, net)| == |IdsInNet(m, !i.inTried, net)|
  {
    var one := if net == i.service.net.network then {id} else {};
    assert IdsInNet(m[id := i], i.inTried, net) == IdsInNet(m, i.inTried, net) + one;
    assert IdsInNet(m[id := i], !i.inTried, net) == IdsInNet(m, !i.inTried, net);
  }

  lemma SizeAdd(m: InfoMap, id: int, i: AddrInfo)
    requires id !in m
    ensures |IdsIn(m[id := i], i.inTried)| == |IdsIn(m, i.inTried)| + 1
    ensures |IdsIn(m[id := i], !i.inTried)| == |IdsIn(m, !i.inTried)|
  {
    assert IdsIn(m[id := i], i.inTried) == IdsIn(m, i.inTried) + {id};
    assert IdsIn(m[id := i], !i.inTried) == IdsIn(m, !i.inTried);
  }

  lemma CountersAdd(m: InfoMap, id: int, i: AddrInfo, nNew: int, nTried: int, c: NetCounts)
    requires id !in m && !i.inTried
    requires CountersOk(m, nNew, nTried, c)
    ensures CountersOk(m[id := i], nNew + 1, nTried, Bump(c, i.service.net.network, 1, 0))
  {
    hide IdsIn, IdsInNet;
    SizeAdd(m, id, i);
    forall net: Network
      ensures CountOf(Bump(c, i.service.net.network, 1, 0), net)
           == NetCount(|IdsInNet(m[id := i], false, net)|, |IdsInNet(m[id := i], true, net)|)
    {
      NetAdd(m, id, i, net);
    }
  }

  lemma CountersRemove(m: InfoMap, id: int, nNew: int, nTried: int, c: NetCounts)
    requires id in m && !m[id].inTried
    requires CountersOk(m, nNew, nTried, c)
    ensures CountersOk(m - {id}, nNew - 1, nTried, Bump(c, m[id].service.net.network, -1, 0))
  {
    hide IdsIn, IdsInNet;
    var n := m - {id};
    assert n[id := m[id]] == m;
    SizeAdd(n, id, m[id]);
    forall net: Network
      ensures CountOf(Bump(c, m[id].service.net.network, -1, 0), net)
           == NetCount(|IdsInNet(n, false, net)|, |IdsInNet(n, true, net)|)
    {
      NetAdd(n, id, m[id], net);
    }
  }

  /** Moving an entry between new and tried moves one unit of both counters. */
  lemma CountersFlip(m: InfoMap, id: int, i: AddrInfo, nNew: int, nTried: int, c: NetCounts, d: int)
    requires id in m && i.service == m[id].service && i.inTried != m[id].inTried
    requires d == (if i.inTried then 1 else -1)
    requires CountersOk(m, nNew, nTried, c)
    ensures CountersOk(m[id := i], nNew - d, nTried + d, Bump(c, i.service.net.network, -d, d))
  {
    hide IdsIn, IdsInNet;
    var n := m - {id};
    assert n[id := m[id]] == m;
    assert n[id := i] == m[id := i];
    SizeAdd(n, id, m[id]);
    SizeAdd(n, id, i);
    var c' := Bump(c, i.service.net.network, -d, d);
    forall net: Network
      ensures CountOf(c', net)
           == NetCount(|IdsInNet(m[id := i], false, net)|, |IdsInNet(m[id := i], true, net)|)
    {
      NetAdd(n, id, m[id], net);
      NetAdd(n, id, i, net);
    }
  }

  // ---- One entry changed in place: the parts that do not notice ----

  /** Fields of an entry that the indexes other than the two tables depend on. */
  ghost predicate SamePlace(a: AddrInfo, b: AddrInfo) {
    a.service == b.service && a.randomPos == b.randomPos
  }

  lemma PlacesKept(s: State, id: int, i: AddrInfo)
    requires Core(s) && id in s.mapInfo && SamePlace(s.mapInfo[id], i) && EntryOk(i)
    ensures EntriesOk(s.mapInfo[id := i], s.nIdCount)
    ensures RandomOk(s.mapInfo[id := i], s.vRandom)
    ensures AddrOk(s.mapInfo[id := i], s.mapAddr)
  {
    hide NewTableOk, TriedTableOk, CountersOk;
  }

  lemma TriedTableKept(h: Hashing, m: InfoMap, t: Table, id: int, i: AddrInfo)
    requires TriedTableOk(h, m, t) && id in m && m[id].service == i.service && m[id].inTried == i.inTried
    ensures TriedTableOk(h, m[id := i], t)
  {
  }

  /** Table `u` differs from `t` only in where it places `id`. */
  ghost predicate OnlyMoved(t: Table, u: Table, id: int) {
    && (forall k | k in u && u[k] != id :: k in t && t[k] == u[k])
    && (forall k | k in t && t[k] != id :: k in u && u[k] == t[k])
  }

  lemma NewTableChanged(h: Hashing, m: InfoMap, t: Table, u: Table, id: int, i: AddrInfo)
    requires NewTableOk(h, m, t) && id in m && m[id].service == i.service && !i.inTried
    requires OnlyMoved(t, u, id)
    requires forall k | k in Refs(u, id) ::
      0 <= k.0 < NEW_BUCKET_COUNT && k.1 == Position(h, true, k.0, i.service)
    requires |Refs(u, id)| == i.nRefCount
    ensures NewTableOk(h, m[id := i], u)
  {
    hide Position;
    forall x | x in m && x != id ensures |Refs(u, x)| == m[x].nRefCount {
      assert Refs(u, x) == Refs(t, x);
    }
    forall k | k in u && u[k] == id ensures k in Refs(u, id) {
    }
  }

  /** An entry with no slot may be added or changed freely. */
  lemma NewTableUnnamed(h: Hashing, m: InfoMap, t: Table, id: int, i: AddrInfo)
    requires NewTableOk(h, m, t) && (id in m ==> m[id].nRefCount == 0) && i.nRefCount == 0
    ensures NewTableOk(h, m[id := i], t)
    ensures forall k | k in t :: t[k] != id
  {
    forall k | k in t ensures t[k] != id {
      assert t[k] == id ==> k in Refs(t, id);
    }
    assert Refs(t, id) == {};
  }

  lemma TriedTableAdded(h: Hashing, m: InfoMap, t: Table, id: int, i: AddrInfo)
    requires TriedTableOk(h, m, t) && (id in m ==> !m[id].inTried && m[id].service == i.service)
    requires TriedSlot(h, i.service) !in t && i.inTried
    ensures TriedTableOk(h, m[id := i], t[TriedSlot(h, i.service) := id])
  {
  }

  lemma TriedTableRemoved(h: Hashing, m: InfoMap, t: Table, k: Slot, i: AddrInfo)
    requires TriedTableOk(h, m, t) && k in t && !i.inTried
    ensures t[k] in m && TriedTableOk(h, m[t[k] := i], t - {k})
  {
  }

  // ---- Each primitive keeps Core ----

  /** Fields that moving entries about never touches. */
  ghost predicate SameFrame(s: State, t: State) {
    t.h == s.h && t.collisions == s.collisions && t.nIdCount == s.nIdCount && t.lastGood == s.lastGood
  }

  lemma EmptyCore(h: Hashing)
    ensures Core(Empty(h))
  {
    var s := Empty(h);
    assert IdsIn(s.mapInfo, false) == {} && IdsIn(s.mapInfo, true) == {};
    forall net: Network ensures IdsInNet(s.mapInfo, false, net) == {} && IdsInNet(s.mapInfo, true, net) == {} {
    }
  }

  /** An update of an entry's statistics only. */
  lemma TouchKeepsCore(s: State, id: int, i: AddrInfo)
    requires Core(s) && id in s.mapInfo && SamePlace(s.mapInfo[id], i) && EntryOk(i)
    requires i.nRefCount == s.mapInfo[id].nRefCount && i.inTried == s.mapInfo[id].inTried
    ensures Core(SetInfo(s, id, i))
  {
    hide RandomOk, AddrOk, CountersOk, EntriesOk, TriedTableOk;
    PlacesKept(s, id, i);
    TriedTableKept(s.h, s.mapInfo, s.vvTried, id, i);
    CountersSame(s.mapInfo, s.mapInfo[id := i], s.nNew, s.nTried, s.counts);
  }

  lemma CreateKeepsCore(s: State, a: Address, source: NetAddr)
    requires Core(s) && a.service !in s.mapAddr
    ensures s.nIdCount !in s.mapInfo
    ensures Core(Create(s, a, source))
  {
    hide CountersOk, NewTableOk, TriedTableOk, AddrOk, RandomOk;
    var i := FreshInfo(a, source, |s.vRandom|);
    assert s.nIdCount !in s.mapInfo;
    CountersAdd(s.mapInfo, s.nIdCount, i, s.nNew, s.nTried, s.counts);
    NewTableUnnamed(s.h, s.mapInfo, s.vvNew, s.nIdCount, i);
    CreateIndexed(s, a, source);
  }

  lemma CreateIndexed(s: State, a: Address, source: NetAddr)
    requires RandomOk(s.mapInfo, s.vRandom) && AddrOk(s.mapInfo, s.mapAddr)
    requires TriedTableOk(s.h, s.mapInfo, s.vvTried)
    requires s.nIdCount !in s.mapInfo && a.service !in s.mapAddr
    ensures var t := Create(s, a, source);
      RandomOk(t.mapInfo, t.vRandom) && AddrOk(t.mapInfo, t.mapAddr) && TriedTableOk(s.h, t.mapInfo, s.vvTried)
  {
    hide RandomOk, AddrOk, TriedTableOk;
    var i := FreshInfo(a, source, |s.vRandom|);
    RandomAdded(s.mapInfo, s.vRandom, s.nIdCount, i);
    AddrAdded(s.mapInfo, s.mapAddr, s.nIdCount, i);
    TriedTableUnnamed(s.h, s.mapInfo, s.vvTried, s.nIdCount, i);
  }

  lemma RandomAdded(m: InfoMap, r: seq<int>, id: int, i: AddrInfo)
    requires RandomOk(m, r) && id !in m && i.randomPos == |r|
    ensures RandomOk(m[id := i], r + [id])
  {
  }

  lemma AddrAdded(m: InfoMap, a: map<Service, int>, id: int, i: AddrInfo)
    requires AddrOk(m, a) && id !in m && i.service !in a
    ensures AddrOk(m[id := i], a[i.service := id])
  {
  }

  lemma TriedTableUnnamed(h: Hashing, m: InfoMap, t: Table, id: int, i: AddrInfo)
    requires TriedTableOk(h, m, t) && id !in m && !i.inTried
    ensures TriedTableOk(h, m[id := i], t)
  {
  }

  ghost predicate SameRecord(a: AddrInfo, b: AddrInfo) {
    b == a.(randomPos := b.randomPos)
  }

  /** Two maps that differ only in the places in vRandom. */
  ghost predicate SameButPlaces(m: InfoMap, n: InfoMap) {
    && (forall id | id in m :: id in n && SameRecord(m[id], n[id]))
    && (forall id | id in n :: id in m)
  }

  lemma TablesIgnorePlaces(h: Hashing, m: InfoMap, n: InfoMap, t: Table, u: Table)
    requires SameButPlaces(m, n) && NewTableOk(h, m, t) && TriedTableOk(h, m, u)
    ensures NewTableOk(h, n, t) && TriedTableOk(h, n, u)
  {
    forall k | k in t ensures t[k] in n && SameRecord(m[t[k]], n[t[k]]) {
      var id := t[k];
      assert id in m;
    }
    forall k | k in u ensures u[k] in n && SameRecord(m[u[k]], n[u[k]]) {
      var id := u[k];
      assert id in m;
    }
  }

  lemma IndexIgnoresPlaces(m: InfoMap, n: InfoMap, a: map<Service, int>, nIdCount: int)
    requires SameButPlaces(m, n) && EntriesOk(m, nIdCount) && AddrOk(m, a)
    ensures EntriesOk(n, nIdCount) && AddrOk(n, a)
  {
    forall x | x in a ensures a[x] in n && SameRecord(m[a[x]], n[a[x]]) {
      var id := a[x];
      assert id in m;
    }
  }

  lemma PlacesIrrelevant(s: State, n: InfoMap)
    requires Core(s) && SameButPlaces(s.mapInfo, n)
    ensures EntriesOk(n, s.nIdCount)
    ensures AddrOk(n, s.mapAddr)
    ensures NewTableOk(s.h, n, s.vvNew)
    ensures TriedTableOk(s.h, n, s.vvTried)
    ensures CountersOk(n, s.nNew, s.nTried, s.counts)
  {
    hide CountersOk, RandomOk, AddrOk, NewTableOk, TriedTableOk, EntriesOk;
    CountersSame(s.mapInfo, n, s.nNew, s.nTried, s.counts);
    IndexIgnoresPlaces(s.mapInfo, n, s.mapAddr, s.nIdCount);
    TablesIgnorePlaces(s.h, s.mapInfo, n, s.vvNew, s.vvTried);
  }

  lemma SwapRandomKeepsCore(s: State, p: int, q: int)
    requires Core(s) && 0 <= p < |s.vRandom| && 0 <= q < |s.vRandom|
    ensures Core(SwapRandom(s, p, q))
    ensures SameButPlaces(s.mapInfo, SwapRandom(s, p, q).mapInfo)
  {
    hide EntriesOk, AddrOk, CountersOk, NewTableOk, TriedTableOk;
    SwapPlaces(s, p, q);
    PlacesIrrelevant(s, SwapRandom(s, p, q).mapInfo);
  }

  lemma SwapPlaces(s: State, p: int, q: int)
    requires RandomOk(s.mapInfo, s.vRandom) && 0 <= p < |s.vRandom| && 0 <= q < |s.vRandom|
    ensures RandomOk(SwapRandom(s, p, q).mapInfo, SwapRandom(s, p, q).vRandom)
    ensures SameButPlaces(s.mapInfo, SwapRandom(s, p, q).mapInfo)
  {
    if p != q {
      var a, b := s.vRandom[p], s.vRandom[q];
      var t := SwapRandom(s, p, q);
      assert a != b;
      assert t.mapInfo == s.mapInfo[a := s.mapInfo[a].(randomPos := q)][b := s.mapInfo[b].(randomPos := p)];
      forall x | 0 <= x < |t.vRandom|
        ensures t.vRandom[x] in t.mapInfo && t.mapInfo[t.vRandom[x]].randomPos == x
      {
        assert s.mapInfo[s.vRandom[x]].randomPos == x;
      }
    }
  }

  lemma RemoveKeepsTables(s: State, id: int)
    requires Core(s) && Deletable(s, id)
    ensures AddrOk(s.mapInfo - {id}, s.mapAddr - {s.mapInfo[id].service})
    ensures EntriesOk(s.mapInfo - {id}, s.nIdCount)
    ensures NewTableOk(s.h, s.mapInfo - {id}, s.vvNew)
    ensures TriedTableOk(s.h, s.mapInfo - {id}, s.vvTried)
  {
    hide CountersOk, RandomOk;
    NewTableUnnamed(s.h, s.mapInfo, s.vvNew, id, s.mapInfo[id]);
  }

  lemma RemoveKeepsRandom(m: InfoMap, r: seq<int>, id: int)
    requires RandomOk(m, r) && id in m && m[id].randomPos == |r| - 1
    ensures RandomOk(m - {id}, r[..|r| - 1])
  {
  }

  lemma DeleteKeepsCore(s: State, id: int)
    requires Core(s) && Deletable(s, id)
    ensures Core(Delete(s, id))
    ensures SameButPlaces(s.mapInfo - {id}, Delete(s, id).mapInfo)
  {
    hide EntriesOk, AddrOk, CountersOk, NewTableOk, TriedTableOk, RandomOk;
    var p, last := DeletePlaces(s, id);
    var t := SwapRandom(s, p, last);
    SwapRandomKeepsCore(s, p, last);
    CountersRemove(t.mapInfo, id, t.nNew, t.nTried, t.counts);
    RemoveKeepsTables(t, id);
    RemoveKeepsRandom(t.mapInfo, t.vRandom, id);
  }

  lemma DeleteFrame(s: State, id: int)
    ensures SameFrame(s, Delete(s, id))
    ensures Delete(s, id).vvTried == s.vvTried && Delete(s, id).vvNew == s.vvNew
  {
  }

  lemma DeletePlaces(s: State, id: int) returns (p: int, last: int)
    requires RandomOk(s.mapInfo, s.vRandom) && id in s.mapInfo
    ensures p == s.mapInfo[id].randomPos && last == |s.vRandom| - 1
    ensures 0 <= p < |s.vRandom| && 0 <= last
    ensures s.vRandom[p] == id && Swappable(s, p, last)
    ensures SwapRandom(s, p, last).mapInfo[id].randomPos == last
  {
    p, last := s.mapInfo[id].randomPos, |s.vRandom| - 1;
  }

  lemma RefsOf(s: State, k: Slot)
    requires Core(s) && k in s.vvNew
    ensures s.vvNew[k] in s.mapInfo && !s.mapInfo[s.vvNew[k]].inTried
    ensures 1 <= s.mapInfo[s.vvNew[k]].nRefCount <= NEW_BUCKETS_PER_ADDRESS
    ensures |Refs(s.vvNew - {k}, s.vvNew[k])| == s.mapInfo[s.vvNew[k]].nRefCount - 1
  {
    hide RandomOk, AddrOk, CountersOk, TriedTableOk;
    var id := s.vvNew[k];
    assert k in Refs(s.vvNew, id);
    assert Refs(s.vvNew - {k}, id) == Refs(s.vvNew, id) - {k};
  }

  lemma DropRefKeepsCore(s: State, k: Slot)
    requires Core(s) && k in s.vvNew
    ensures s.vvNew[k] in s.mapInfo
    ensures Core(DropRef(s, k))
  {
    hide RandomOk, AddrOk, CountersOk, EntriesOk, TriedTableOk;
    RefsOf(s, k);
    var id := s.vvNew[k];
    var i := s.mapInfo[id].(nRefCount := s.mapInfo[id].nRefCount - 1);
    EntryFacts(s, id);
    PlacesKept(s, id, i);
    TriedTableKept(s.h, s.mapInfo, s.vvTried, id, i);
    CountersSame(s.mapInfo, s.mapInfo[id := i], s.nNew, s.nTried, s.counts);
    NewTableChanged(s.h, s.mapInfo, s.vvNew, s.vvNew - {k}, id, i);
  }

  lemma EntryFacts(s: State, id: int)
    requires EntriesOk(s.mapInfo, s.nIdCount) && id in s.mapInfo
    ensures EntryOk(s.mapInfo[id]) && 0 <= id < s.nIdCount
  {
  }

  /** Equal but for the reference count and the place in vRandom. */
  ghost predicate SameButRefs(a: AddrInfo, b: AddrInfo) {
    b == a.(nRefCount := b.nRefCount, randomPos := b.randomPos)
  }

  /** `n` is `m` after losing the reference at `k` of table `t`: the entry it
      named goes exactly when that was its last reference, every other record
      stays as it was. */
  ghost predicate ClearedInfo(m: InfoMap, t: Table, k: Slot, n: InfoMap) {
    && (forall x | x in m ::
          x in n <==> !(k in t && t[k] == x && m[x].nRefCount == 1))
    && (forall x | x in n ::
          && x in m
          && SameButRefs(m[x], n[x])
          && n[x].nRefCount == m[x].nRefCount - (if k in t && t[k] == x then 1 else 0))
  }

  lemma ClearNewKeepsCore(s: State, k: Slot)
    requires Core(s)
    ensures Core(ClearNew(s, k))
    ensures SameFrame(s, ClearNew(s, k)) && ClearNew(s, k).vvTried == s.vvTried
    ensures ClearNew(s, k).vvNew == s.vvNew - {k}
    ensures ClearedInfo(s.mapInfo, s.vvNew, k, ClearNew(s, k).mapInfo)
  {
    hide EntriesOk, AddrOk, CountersOk, NewTableOk, TriedTableOk, RandomOk;
    if k in s.vvNew {
      RefsOf(s, k);
      var id := s.vvNew[k];
      var t := DropRef(s, k);
      DropRefKeepsCore(s, k);
      if t.mapInfo[id].nRefCount == 0 {
        DeleteKeepsCore(t, id);
        DeleteFrame(t, id);
      }
    } else {
      assert s.vvNew - {k} == s.vvNew;
    }
  }

  lemma AddRefKeepsCore(s: State, k: Slot, id: int)
    requires Core(s) && id in s.mapInfo && !s.mapInfo[id].inTried
    requires k !in s.vvNew && 0 <= k.0 < NEW_BUCKET_COUNT
    requires k.1 == Position(s.h, true, k.0, s.mapInfo[id].service)
    requires s.mapInfo[id].nRefCount < NEW_BUCKETS_PER_ADDRESS
    ensures Core(AddRef(s, k, id))
  {
    hide RandomOk, AddrOk, CountersOk, EntriesOk, TriedTableOk, NewTableOk;
    var i := s.mapInfo[id].(nRefCount := s.mapInfo[id].nRefCount + 1);
    EntryFacts(s, id);
    PlacesKept(s, id, i);
    TriedTableKept(s.h, s.mapInfo, s.vvTried, id, i);
    CountersSame(s.mapInfo, s.mapInfo[id := i], s.nNew, s.nTried, s.counts);
    RefAdded(s, k, id);
    NewTableChanged(s.h, s.mapInfo, s.vvNew, s.vvNew[k := id], id, i);
  }

  lemma RefAdded(s: State, k: Slot, id: int)
    requires NewTableOk(s.h, s.mapInfo, s.vvNew) && id in s.mapInfo && k !in s.vvNew
    requires 0 <= k.0 < NEW_BUCKET_COUNT && k.1 == Position(s.h, true, k.0, s.mapInfo[id].service)
    ensures |Refs(s.vvNew[k := id], id)| == s.mapInfo[id].nRefCount + 1
    ensures forall j | j in Refs(s.vvNew[k := id], id) ::
      0 <= j.0 < NEW_BUCKET_COUNT && j.1 == Position(s.h, true, j.0, s.mapInfo[id].service)
  {
    assert Refs(s.vvNew[k := id], id) == Refs(s.vvNew, id) + {k};
  }

  lemma DropAllRefsKeepsCore(s: State, id: int)
    requires Core(s) && id in s.mapInfo && !s.mapInfo[id].inTried
    ensures Core(DropAllRefs(s, id))
  {
    hide RandomOk, AddrOk, CountersOk, EntriesOk, TriedTableOk;
    var i := s.mapInfo[id].(nRefCount := 0);
    EntryFacts(s, id);
    PlacesKept(s, id, i);
    TriedTableKept(s.h, s.mapInfo, s.vvTried, id, i);
    CountersSame(s.mapInfo, s.mapInfo[id := i], s.nNew, s.nTried, s.counts);
    assert Refs(s.vvNew - Refs(s.vvNew, id), id) == {};
    NewTableChanged(s.h, s.mapInfo, s.vvNew, s.vvNew - Refs(s.vvNew, id), id, i);
  }

  lemma DemoteKeepsCore(s: State, k: Slot)
    requires Core(s) && k in s.vvTried
    ensures s.vvTried[k] in s.mapInfo && s.mapInfo[s.vvTried[k]].inTried
    ensures Core(Demote(s, k))
  {
    hide RandomOk, AddrOk, CountersOk, EntriesOk, NewTableOk;
    var id := s.vvTried[k];
    EntryFacts(s, id);
    var i := s.mapInfo[id].(inTried := false);
    PlacesKept(s, id, i);
    CountersFlip(s.mapInfo, id, i, s.nNew, s.nTried, s.counts, -1);
    NewTableUnnamed(s.h, s.mapInfo, s.vvNew, id, i);
    TriedTableRemoved(s.h, s.mapInfo, s.vvTried, k, i);
  }

  lemma PromoteKeepsCore(s: State, id: int)
    requires Core(s) && Deletable(s, id)
    requires TriedSlot(s.h, s.mapInfo[id].service) !in s.vvTried
    requires 0 < s.mapInfo[id].lastSuccess
    ensures Core(Promote(s, id))
  {
    hide RandomOk, AddrOk, CountersOk, EntriesOk, NewTableOk, TriedTableOk;
    EntryFacts(s, id);
    var i := s.mapInfo[id].(inTried := true);
    PlacesKept(s, id, i);
    CountersFlip(s.mapInfo, id, i, s.nNew, s.nTried, s.counts, 1);
    NewTableUnnamed(s.h, s.mapInfo, s.vvNew, id, i);
    TriedTableAdded(s.h, s.mapInfo, s.vvTried, id, i);
  }
}
