/** Compact block reconstruction (BIP 152, section "New data structures"). */
module CompactBlocks {
  import opened Options

  datatype Tx = Tx(hash: nat, isNull: bool)

  /** `index` is the distance to the previous prefilled transaction. */
  datatype Prefilled = Prefilled(index: nat, tx: Tx)

  /** `CBlockHeaderAndShortTxIDs` */
  datatype Compact = Compact(headerNull: bool, shortIds: seq<nat>, prefilled: seq<Prefilled>)

  datatype Status = Good | Invalid | Failed | CheckBlockFailed

  type Slots = seq<Option<Tx>>

  const UINT64 := 0x1_0000_0000_0000_0000

  /** A 64-bit unsigned counter. */
  function Wrap(x: int): (r: nat)
    ensures r < UINT64 && (0 <= x < UINT64 ==> r == x)
  {
    x % UINT64
  }

  lemma WrapStep(x: int, d: int)
    ensures Wrap(Wrap(x) + d) == Wrap(x + d)
  {
  }

  function BlockTxCount(c: Compact): nat {
    |c.shortIds| + |c.prefilled|
  }

  // ---- Free slots ----

  /** The empty slots, in order. */
  function FreeSlots(a: Slots): (f: seq<nat>) {
    if a == [] then [] else
      var n := |a| - 1;
      FreeSlots(a[..n]) + (if a[n].None? then [n] else [])
  }

  lemma {:induction false} FreeFacts(a: Slots)
    ensures forall k | 0 <= k < |FreeSlots(a)| :: FreeSlots(a)[k] < |a| && a[FreeSlots(a)[k]].None?
    ensures forall j, k | 0 <= j < k < |FreeSlots(a)| :: FreeSlots(a)[j] < FreeSlots(a)[k]
    ensures forall i | 0 <= i < |a| && a[i].None? :: i in FreeSlots(a)
  {
    if a != [] {
      FreeFacts(a[..|a| - 1]);
    }
  }

  lemma FreeStep(a: Slots, p: nat)
    requires p < |a|
    ensures FreeSlots(a[..p + 1]) == FreeSlots(a[..p]) + (if a[p].None? then [p] else [])
  {
    assert a[..p + 1][..p] == a[..p];
  }

  /** The free slots of a prefix are a prefix of the free slots. */
  lemma {:induction false} FreePrefix(a: Slots, p: nat)
    requires p <= |a|
    ensures FreeSlots(a[..p]) <= FreeSlots(a)
    decreases |a| - p
  {
    if p == |a| {
      assert a[..p] == a;
    } else {
      FreeStep(a, p);
      FreePrefix(a, p + 1);
    }
  }

  /** Filling an empty slot uses up one, emptying a full one frees one. */
  lemma {:induction false} FreeCount(a: Slots, i: nat, t: Option<Tx>)
    requires i < |a|
    ensures |FreeSlots(a[i := t])| == |FreeSlots(a)| - (if a[i].None? then 1 else 0) + (if t.None? then 1 else 0)
  {
    var n := |a| - 1;
    if i == n {
      assert a[i := t][..n] == a[..n];
    } else {
      assert a[i := t][..n] == a[..n][i := t];
      FreeCount(a[..n], i, t);
    }
  }

  // ---- Prefilled transactions ----

  /** The position of the i-th prefilled transaction; -1 before the first. */
  function Position(ps: seq<Prefilled>, i: int): (p: int)
    requires i < |ps|
    ensures p >= -1 && (i >= 0 ==> p >= i)
    decreases i + 1
  {
    if i < 0 then -1 else Position(ps, i - 1) + ps[i].index + 1
  }

  predicate PrefilledOk(c: Compact, i: nat)
    requires i < |c.prefilled|
  {
    && !c.prefilled[i].tx.isNull
    && Position(c.prefilled, i) <= 0xffff
    && Position(c.prefilled, i) <= |c.shortIds| + i
  }

  predicate WellFormed(c: Compact, maxTx: nat) {
    && !c.headerNull
    && 0 < BlockTxCount(c) <= maxTx
    && forall i | 0 <= i < |c.prefilled| :: PrefilledOk(c, i)
  }

  /** The slots after the first `n` prefilled transactions have been put in. */
  function Placed(c: Compact, n: nat): (a: Slots)
    requires n <= |c.prefilled| && forall i | 0 <= i < n :: PrefilledOk(c, i)
    ensures |a| == BlockTxCount(c)
  {
    if n == 0 then seq(BlockTxCount(c), _ => None) else
      assert PrefilledOk(c, n - 1);
      Placed(c, n - 1)[Position(c.prefilled, n - 1) := Some(c.prefilled[n - 1].tx)]
  }

  /** The slots when the first unacceptable prefilled transaction is met. */
  ghost predicate StoppedAt(c: Compact, a: Slots) {
    exists n: nat | n < |c.prefilled| ::
      (forall i | 0 <= i < n :: PrefilledOk(c, i)) && !PrefilledOk(c, n) && a == Placed(c, n)
  }

  lemma {:induction false} PlacedBeyond(c: Compact, n: nat, j: nat)
    requires n <= |c.prefilled| && (forall i | 0 <= i < n :: PrefilledOk(c, i))
    requires Position(c.prefilled, n - 1) < j < BlockTxCount(c)
    ensures Placed(c, n)[j].None?
  {
    if n > 0 {
      assert Position(c.prefilled, n - 2) < Position(c.prefilled, n - 1);
      PlacedBeyond(c, n - 1, j);
    }
  }

  lemma {:induction false} AllFree(n: nat)
    ensures |FreeSlots(seq(n, _ => None))| == n
  {
    if n > 0 {
      var a: Slots := seq(n, _ => None);
      assert a[..n - 1] == seq(n - 1, _ => None);
      AllFree(n - 1);
    }
  }

  /** As many slots stay empty as there are short ids and prefilled transactions
      still to place. */
  lemma {:induction false} PlacedFree(c: Compact, n: nat)
    requires n <= |c.prefilled| && forall i | 0 <= i < n :: PrefilledOk(c, i)
    ensures |FreeSlots(Placed(c, n))| == BlockTxCount(c) - n
  {
    if n == 0 {
      AllFree(BlockTxCount(c));
    } else {
      assert PrefilledOk(c, n - 1);
      PlacedFree(c, n - 1);
      var p := Position(c.prefilled, n - 1);
      assert Position(c.prefilled, n - 2) < p;
      PlacedBeyond(c, n - 1, p);
      FreeCount(Placed(c, n - 1), p, Some(c.prefilled[n - 1].tx));
    }
  }

  // ---- Matching short ids ----

  predicate Distinct(s: seq<nat>) {
    forall i, j | 0 <= i < j < |s| :: s[i] != s[j]
  }

  /** Slot of each short id: the k-th id belongs to the k-th free slot. */
  predicate IdsOk(c: Compact, a: Slots, ids: map<nat, nat>) {
    var f := FreeSlots(a);
    && |f| == |c.shortIds| == |ids| && Distinct(c.shortIds)
    && (forall k | 0 <= k < |f| :: c.shortIds[k] in ids && ids[c.shortIds[k]] == f[k])
    && (forall s | s in ids :: s in c.shortIds)
  }

  /** A candidate transaction with the hash it is listed under. */
  type Candidate = (nat, Tx)

  lemma IdSlot(c: Compact, start: Slots, ids: map<nat, nat>, s: nat)
    requires IdsOk(c, start, ids) && s in ids
    ensures ids[s] < |start| && start[ids[s]].None?
  {
    var k :| 0 <= k < |c.shortIds| && c.shortIds[k] == s;
    FreeFacts(start);
    assert ids[c.shortIds[k]] == FreeSlots(start)[k];
  }

  /** Slots are only ever filled on top of the prefilled ones. */
  lemma {:induction false} FewerFree(start: Slots, a: Slots)
    requires |start| == |a| && forall j | 0 <= j < |a| && start[j].Some? :: a[j].Some?
    ensures |FreeSlots(a)| <= |FreeSlots(start)|
  {
    if a != [] {
      FewerFree(start[..|a| - 1], a[..|a| - 1]);
    }
  }

  /** Short ids lead to slots without a prefilled transaction. */
  ghost predicate OnFree(ids: map<nat, nat>, start: Slots) {
    forall s | s in ids :: ids[s] < |start| && start[ids[s]].None?
  }

  lemma IdSlots(c: Compact, start: Slots, ids: map<nat, nat>)
    requires IdsOk(c, start, ids)
    ensures OnFree(ids, start)
  {
    hide IdsOk;
    forall s | s in ids ensures ids[s] < |start| && start[ids[s]].None? {
      IdSlot(c, start, ids, s);
    }
  }

  // ---- The two matching loops ----

  /** Slots, flags and count while candidates are looked at. */
  datatype Scan = Scan(slots: Slots, have: seq<bool>, count: int)

  ghost predicate Sized(s: Scan) {
    |s.have| == |s.slots|
  }

  /** The slot whose short id a candidate has; -1 if it has none of them. */
  function Claim(sid: nat -> nat, ids: map<nat, nat>, x: Candidate): int {
    if sid(x.0) in ids then ids[sid(x.0)] else -1
  }

  /** One candidate.  The second one for a slot empties it, unless the loop is
      `lenient` and it is the transaction that is there. */
  function Look(sid: nat -> nat, ids: map<nat, nat>, lenient: bool, s: Scan, x: Candidate): (r: Scan)
    requires Sized(s)
    ensures Sized(r) && |r.slots| == |s.slots|
  {
    var j := Claim(sid, ids, x);
    if !(0 <= j < |s.slots|) then s
    else if !s.have[j] then Scan(s.slots[j := Some(x.1)], s.have[j := true], s.count + 1)
    else if s.slots[j].Some? && !(lenient && s.slots[j].value.hash == x.1.hash) then
      Scan(s.slots[j := None], s.have, s.count - 1)
    else s
  }

  /** The first `n` candidates. */
  function Looked(sid: nat -> nat, ids: map<nat, nat>, lenient: bool, s: Scan, from: seq<Candidate>, n: nat): (r: Scan)
    requires Sized(s) && n <= |from|
    ensures Sized(r) && |r.slots| == |s.slots|
  {
    if n == 0 then s else Look(sid, ids, lenient, Looked(sid, ids, lenient, s, from, n - 1), from[n - 1])
  }

  /** How many candidates are looked at: the loop ends when all short ids have
      been matched, which it finds out after a candidate. */
  function Stop(sid: nat -> nat, ids: map<nat, nat>, lenient: bool, s: Scan, from: seq<Candidate>, n: nat): (r: nat)
    requires Sized(s) && n <= |from|
    ensures n <= r <= |from|
    ensures r == |from| || Looked(sid, ids, lenient, s, from, r).count == |ids|
    decreases |from| - n
  {
    if n == |from| || (n > 0 && Looked(sid, ids, lenient, s, from, n).count == |ids|) then n
    else Stop(sid, ids, lenient, s, from, n + 1)
  }

  function Loop(sid: nat -> nat, ids: map<nat, nat>, lenient: bool, s: Scan, from: seq<Candidate>): (r: Scan)
    requires Sized(s)
    ensures Sized(r) && |r.slots| == |s.slots|
  {
    Looked(sid, ids, lenient, s, from, Stop(sid, ids, lenient, s, from, 0))
  }

  function Fresh(start: Slots): (s: Scan)
    ensures Sized(s)
  {
    Scan(start, seq(|start|, _ => false), 0)
  }

  /** What the mempool loop leaves. */
  function FromPool(sid: nat -> nat, ids: map<nat, nat>, start: Slots, pool: seq<Candidate>): (r: Scan)
    ensures Sized(r) && |r.slots| == |start|
  {
    Loop(sid, ids, false, Fresh(start), pool)
  }

  /** What the loop over the extra transactions leaves after it. */
  function FromBoth(sid: nat -> nat, ids: map<nat, nat>, start: Slots, pool: seq<Candidate>, extra: seq<Candidate>)
    : (r: Scan)
    ensures Sized(r) && |r.slots| == |start|
  {
    Loop(sid, ids, true, FromPool(sid, ids, start, pool), extra)
  }

  /** The transactions that claim slot `j`, in order. */
  function For(sid: nat -> nat, ids: map<nat, nat>, from: seq<Candidate>, n: nat, j: int): (r: seq<Tx>)
    requires n <= |from|
  {
    if n == 0 then [] else
      For(sid, ids, from, n - 1, j) + (if Claim(sid, ids, from[n - 1]) == j then [from[n - 1].1] else [])
  }

  predicate OneHash(ts: seq<Tx>) {
    forall i | 0 <= i < |ts| :: ts[i].hash == ts[0].hash
  }

  /** A slot after the lenient loop: what was there, or else the first claimant,
      while all claimants are one transaction. */
  function Kept(had: bool, was: Option<Tx>, claims: seq<Tx>): Option<Tx> {
    if had && was.None? then None else
      var all := (if was.Some? then [was.value] else []) + claims;
      if all != [] && OneHash(all) then Some(all[0]) else None
  }

  /** Prefilled slots are untouched, filled ones are flagged, and `count` is their
      number. */
  ghost predicate Tracked(start: Slots, ids: map<nat, nat>, s: Scan) {
    && Sized(s) && |s.slots| == |start| && OnFree(ids, start)
    && (forall j | 0 <= j < |start| && start[j].Some? :: s.slots[j] == start[j])
    && (forall j | 0 <= j < |start| && start[j].None? && s.slots[j].Some? :: s.have[j])
    && s.count == |FreeSlots(start)| - |FreeSlots(s.slots)|
  }

  lemma TrackedSized(start: Slots, ids: map<nat, nat>, s: Scan)
    requires Tracked(start, ids, s)
    ensures Sized(s) && |s.slots| == |start| && OnFree(ids, start)
  {
  }

  lemma TrackedCount(start: Slots, ids: map<nat, nat>, s: Scan)
    requires Tracked(start, ids, s)
    ensures s.count == |FreeSlots(start)| - |FreeSlots(s.slots)|
  {
  }

  lemma TrackedStart(start: Slots, ids: map<nat, nat>)
    requires OnFree(ids, start)
    ensures Tracked(start, ids, Fresh(start))
  {
  }

  lemma LookTracked(sid: nat -> nat, ids: map<nat, nat>, lenient: bool, start: Slots, s: Scan, x: Candidate)
    requires Tracked(start, ids, s)
    ensures Sized(s) && Tracked(start, ids, Look(sid, ids, lenient, s, x))
    ensures Look(sid, ids, lenient, s, x).count >= 0
  {
    hide FreeSlots;
    var r := Look(sid, ids, lenient, s, x);
    var j := Claim(sid, ids, x);
    if j >= 0 {
      FreeCount(s.slots, j, r.slots[j]);
    }
    FewerFree(start, r.slots);
  }

  lemma {:induction false} LookedTracked(sid: nat -> nat, ids: map<nat, nat>, lenient: bool, start: Slots, s: Scan,
                                         from: seq<Candidate>, n: nat)
    requires Tracked(start, ids, s) && n <= |from|
    ensures Sized(s) && Tracked(start, ids, Looked(sid, ids, lenient, s, from, n))
  {
    hide Tracked, Look;
    TrackedSized(start, ids, s);
    if n > 0 {
      LookedTracked(sid, ids, lenient, start, s, from, n - 1);
      LookTracked(sid, ids, lenient, start, Looked(sid, ids, lenient, s, from, n - 1), from[n - 1]);
    }
  }

  lemma LookIs(sid: nat -> nat, ids: map<nat, nat>, lenient: bool, start: Slots, s: Scan, x: Candidate)
    requires Tracked(start, ids, s)
    ensures |s.have| == |s.slots| && (sid(x.0) in ids ==> ids[sid(x.0)] < |s.slots|)
    ensures Look(sid, ids, lenient, s, x) ==
      if sid(x.0) !in ids then s else
        var j := ids[sid(x.0)];
        if !s.have[j] then Scan(s.slots[j := Some(x.1)], s.have[j := true], s.count + 1)
        else if s.slots[j].Some? && !(lenient && s.slots[j].value.hash == x.1.hash) then
          Scan(s.slots[j := None], s.have, s.count - 1)
        else s
  {
  }

  lemma LookedNone(sid: nat -> nat, ids: map<nat, nat>, lenient: bool, s: Scan, from: seq<Candidate>)
    requires Sized(s)
    ensures Looked(sid, ids, lenient, s, from, 0) == s
  {
  }

  lemma StopLater(sid: nat -> nat, ids: map<nat, nat>, lenient: bool, s: Scan, from: seq<Candidate>, i: nat)
    requires Sized(s) && i < |from| && (i == 0 || Looked(sid, ids, lenient, s, from, i).count != |ids|)
    ensures Stop(sid, ids, lenient, s, from, i) == Stop(sid, ids, lenient, s, from, i + 1)
    ensures Looked(sid, ids, lenient, s, from, i + 1) ==
      Look(sid, ids, lenient, Looked(sid, ids, lenient, s, from, i), from[i])
  {
  }

  lemma StopHere(sid: nat -> nat, ids: map<nat, nat>, lenient: bool, s: Scan, from: seq<Candidate>, i: nat)
    requires Sized(s) && i <= |from|
    requires i == |from| || (i > 0 && Looked(sid, ids, lenient, s, from, i).count == |ids|)
    ensures Stop(sid, ids, lenient, s, from, i) == i
  {
  }

  lemma {:induction false} StrictSlot(sid: nat -> nat, ids: map<nat, nat>, s: Scan, from: seq<Candidate>,
                                      n: nat, j: nat)
    requires Sized(s) && n <= |from| && j < |s.slots| && !s.have[j] && s.slots[j].None?
    ensures var (r, claims) := (Looked(sid, ids, false, s, from, n), For(sid, ids, from, n, j));
      && (r.have[j] <==> claims != [])
      && r.slots[j] == if |claims| == 1 then Some(claims[0]) else None
  {
    if n > 0 {
      StrictSlot(sid, ids, s, from, n - 1, j);
    }
  }

  lemma {:induction false} LenientSlot(sid: nat -> nat, ids: map<nat, nat>, s: Scan, from: seq<Candidate>,
                                       n: nat, j: nat)
    requires Sized(s) && n <= |from| && j < |s.slots| && (s.slots[j].Some? ==> s.have[j])
    ensures var (r, claims) := (Looked(sid, ids, true, s, from, n), For(sid, ids, from, n, j));
      && (r.have[j] <==> s.have[j] || claims != [])
      && r.slots[j] == Kept(s.have[j], s.slots[j], claims)
  {
    if n > 0 {
      LenientSlot(sid, ids, s, from, n - 1, j);
      var claims := For(sid, ids, from, n - 1, j);
      if Claim(sid, ids, from[n - 1]) == j {
        KeptNext(s.have[j], s.slots[j], claims, from[n - 1].1);
        hide Kept;
      } else {
        assert claims + [] == claims;
      }
    }
  }

  /** One more claimant. */
  lemma KeptNext(had: bool, was: Option<Tx>, claims: seq<Tx>, t: Tx)
    requires was.Some? ==> had
    ensures Kept(had, was, claims + [t]) ==
      if !had && claims == [] then Some(t)
      else var k := Kept(had, was, claims); if k.Some? && k.value.hash == t.hash then k else None
  {
    var lead := if was.Some? then [was.value] else [];
    assert lead + (claims + [t]) == (lead + claims) + [t];
    if !(had && was.None?) && lead + claims != [] {
      OneHashNext(lead + claims, t);
    }
  }

  lemma OneHashNext(ts: seq<Tx>, t: Tx)
    requires ts != []
    ensures OneHash(ts + [t]) <==> OneHash(ts) && t.hash == ts[0].hash
  {
    assert (ts + [t])[|ts|] == t;
    assert forall i | 0 <= i < |ts| :: (ts + [t])[i] == ts[i];
  }

  // ---- What the loops leave in each slot ----

  /** How many mempool transactions are looked at. */
  function PoolStop(sid: nat -> nat, ids: map<nat, nat>, start: Slots, pool: seq<Candidate>): (n: nat)
    ensures n <= |pool|
  {
    Stop(sid, ids, false, Fresh(start), pool, 0)
  }

  /** How many extra transactions are looked at. */
  function ExtraStop(sid: nat -> nat, ids: map<nat, nat>, start: Slots, pool: seq<Candidate>, extra: seq<Candidate>)
    : (n: nat)
    ensures n <= |extra|
  {
    Stop(sid, ids, true, FromPool(sid, ids, start, pool), extra, 0)
  }

  /** The mempool transactions looked at that claim slot `j`. */
  function PoolClaims(sid: nat -> nat, ids: map<nat, nat>, start: Slots, pool: seq<Candidate>, j: int): seq<Tx> {
    For(sid, ids, pool, PoolStop(sid, ids, start, pool), j)
  }

  /** The extra transactions looked at that claim slot `j`. */
  function ExtraClaims(sid: nat -> nat, ids: map<nat, nat>, start: Slots, pool: seq<Candidate>, extra: seq<Candidate>,
                       j: int): seq<Tx>
  {
    For(sid, ids, extra, ExtraStop(sid, ids, start, pool, extra), j)
  }

  /** A slot is filled from the mempool exactly by a sole claimant. */
  lemma PoolOutcome(sid: nat -> nat, ids: map<nat, nat>, start: Slots, pool: seq<Candidate>, j: nat)
    requires j < |start| && start[j].None?
    ensures var (r, claims) := (FromPool(sid, ids, start, pool), PoolClaims(sid, ids, start, pool, j));
      && (r.have[j] <==> claims != [])
      && r.slots[j] == if |claims| == 1 then Some(claims[0]) else None
  {
    hide Looked, For, Stop;
    StrictSlot(sid, ids, Fresh(start), pool, PoolStop(sid, ids, start, pool), j);
  }

  /** In the end a slot is filled exactly if it has at most one claimant from the
      mempool and all its claimants are one transaction. */
  lemma SlotOutcome(sid: nat -> nat, ids: map<nat, nat>, start: Slots, pool: seq<Candidate>, extra: seq<Candidate>,
                    j: nat)
    requires j < |start| && start[j].None?
    ensures var r := FromBoth(sid, ids, start, pool, extra);
      var p := PoolClaims(sid, ids, start, pool, j);
      var all := p + ExtraClaims(sid, ids, start, pool, extra, j);
      && (r.have[j] <==> all != [])
      && r.slots[j] == if |p| <= 1 && all != [] && OneHash(all) then Some(all[0]) else None
  {
    hide Looked, For, Stop, FromPool, PoolClaims;
    PoolOutcome(sid, ids, start, pool, j);
    LenientSlot(sid, ids, FromPool(sid, ids, start, pool), extra, ExtraStop(sid, ids, start, pool, extra), j);
    var p := PoolClaims(sid, ids, start, pool, j);
    assert |p| == 1 ==> p == [p[0]];
  }

  lemma PoolTracked(sid: nat -> nat, ids: map<nat, nat>, start: Slots, pool: seq<Candidate>)
    requires OnFree(ids, start)
    ensures Tracked(start, ids, FromPool(sid, ids, start, pool))
  {
    hide Tracked, Looked, Stop, OnFree;
    TrackedStart(start, ids);
    LookedTracked(sid, ids, false, start, Fresh(start), pool, PoolStop(sid, ids, start, pool));
  }

  lemma BothTracked(sid: nat -> nat, ids: map<nat, nat>, start: Slots, pool: seq<Candidate>, extra: seq<Candidate>)
    requires OnFree(ids, start)
    ensures Tracked(start, ids, FromBoth(sid, ids, start, pool, extra))
  {
    hide Tracked, Looked, Stop, OnFree, FromPool;
    PoolTracked(sid, ids, start, pool);
    var s := FromPool(sid, ids, start, pool);
    LookedTracked(sid, ids, true, start, s, extra, ExtraStop(sid, ids, start, pool, extra));
  }

  /** A loop that leaves candidates unread has filled every slot. */
  lemma EarlyExit(c: Compact, sid: nat -> nat, ids: map<nat, nat>, start: Slots, pool: seq<Candidate>,
                  extra: seq<Candidate>)
    requires IdsOk(c, start, ids)
    ensures PoolStop(sid, ids, start, pool) < |pool| ==> FreeSlots(FromPool(sid, ids, start, pool).slots) == []
    ensures ExtraStop(sid, ids, start, pool, extra) < |extra| ==>
      FreeSlots(FromBoth(sid, ids, start, pool, extra).slots) == []
  {
    IdSlots(c, start, ids);
    PoolTracked(sid, ids, start, pool);
    BothTracked(sid, ids, start, pool, extra);
    hide FreeSlots, Looked, OnFree, Distinct;
  }

  lemma PrefilledStay(c: Compact, sid: nat -> nat, ids: map<nat, nat>, start: Slots, pool: seq<Candidate>,
                      extra: seq<Candidate>, j: nat)
    requires IdsOk(c, start, ids) && j < |start| && start[j].Some?
    ensures FromBoth(sid, ids, start, pool, extra).slots[j] == start[j]
  {
    IdSlots(c, start, ids);
    BothTracked(sid, ids, start, pool, extra);
    hide FreeSlots, FromBoth, IdsOk;
  }

  lemma {:induction false} ForFrom(sid: nat -> nat, ids: map<nat, nat>, from: seq<Candidate>, n: nat, j: nat, k: nat)
    returns (m: nat)
    requires n <= |from| && k < |For(sid, ids, from, n, j)|
    ensures m < n && Claim(sid, ids, from[m]) == j && from[m].1 == For(sid, ids, from, n, j)[k]
  {
    if k < |For(sid, ids, from, n - 1, j)| {
      m := ForFrom(sid, ids, from, n - 1, j, k);
    } else {
      m := n - 1;
    }
  }

  /** A filled slot holds a candidate with its short id. */
  lemma FilledFrom(sid: nat -> nat, ids: map<nat, nat>, start: Slots, pool: seq<Candidate>, extra: seq<Candidate>,
                   j: nat)
    returns (m: nat)
    requires j < |start| && start[j].None? && FromBoth(sid, ids, start, pool, extra).slots[j].Some?
    ensures m < |pool + extra| && Claim(sid, ids, (pool + extra)[m]) == j
    ensures (pool + extra)[m].1 == FromBoth(sid, ids, start, pool, extra).slots[j].value
  {
    hide FromBoth, FromPool, For, PoolStop, ExtraStop, Claim;
    SlotOutcome(sid, ids, start, pool, extra, j);
    if PoolClaims(sid, ids, start, pool, j) != [] {
      m := ForFrom(sid, ids, pool, PoolStop(sid, ids, start, pool), j, 0);
    } else {
      m := ForFrom(sid, ids, extra, ExtraStop(sid, ids, start, pool, extra), j, 0);
      m := |pool| + m;
    }
  }

  lemma ClaimIs(sid: nat -> nat, ids: map<nat, nat>, x: Candidate)
    requires Claim(sid, ids, x) >= 0
    ensures sid(x.0) in ids && ids[sid(x.0)] == Claim(sid, ids, x)
  {
  }

  // ---- extra_count ----

  /** The slots the extra transactions fill. */
  ghost function Gained(sid: nat -> nat, ids: map<nat, nat>, start: Slots, pool: seq<Candidate>, extra: seq<Candidate>)
    : set<int>
  {
    set j | 0 <= j < |start| && start[j].None? && PoolClaims(sid, ids, start, pool, j) == []
      && ExtraClaims(sid, ids, start, pool, extra, j) != [] && OneHash(ExtraClaims(sid, ids, start, pool, extra, j))
  }

  /** The slots the extra transactions empty. */
  ghost function Emptied(sid: nat -> nat, ids: map<nat, nat>, start: Slots, pool: seq<Candidate>, extra: seq<Candidate>)
    : set<int>
  {
    set j | 0 <= j < |start| && start[j].None? && |PoolClaims(sid, ids, start, pool, j)| == 1
      && !OneHash(PoolClaims(sid, ids, start, pool, j) + ExtraClaims(sid, ids, start, pool, extra, j))
  }

  /** Slots full in `b` and empty in `a`. */
  ghost function Newly(a: Slots, b: Slots): set<int>
    requires |a| == |b|
  {
    set j | 0 <= j < |a| && a[j].None? && b[j].Some?
  }

  lemma {:induction false} FreeDifference(a: Slots, b: Slots)
    requires |a| == |b|
    ensures |FreeSlots(a)| - |FreeSlots(b)| == |Newly(a, b)| - |Newly(b, a)|
  {
    if a == [] {
      assert Newly(a, b) == {} && Newly(b, a) == {};
    } else {
      var n := |a| - 1;
      FreeDifference(a[..n], b[..n]);
      NewlyStep(a, b);
      NewlyStep(b, a);
    }
  }

  lemma NewlyStep(a: Slots, b: Slots)
    requires |a| == |b| > 0
    ensures var n := |a| - 1;
      |Newly(a, b)| == |Newly(a[..n], b[..n])| + if a[n].None? && b[n].Some? then 1 else 0
  {
    var n := |a| - 1;
    var rest := Newly(a[..n], b[..n]);
    assert n !in rest;
    assert Newly(a, b) == rest + if a[n].None? && b[n].Some? then {n} else {};
  }

  /** extra_count is what the extra transactions add to mempool_count, unless
      they empty more slots than they fill; then it has wrapped. */
  lemma ExtraCountExact(sid: nat -> nat, ids: map<nat, nat>, start: Slots, pool: seq<Candidate>, extra: seq<Candidate>)
    requires OnFree(ids, start) && |start| <= 0xffff
    ensures var added := FromBoth(sid, ids, start, pool, extra).count - FromPool(sid, ids, start, pool).count;
      && added == |Gained(sid, ids, start, pool, extra)| - |Emptied(sid, ids, start, pool, extra)|
      && (Wrap(added) == added <==>
            |Emptied(sid, ids, start, pool, extra)| <= |Gained(sid, ids, start, pool, extra)|)
  {
    hide FromBoth, FromPool, OnFree, FreeSlots, Wrap, PoolClaims, ExtraClaims, OneHash;
    PoolTracked(sid, ids, start, pool);
    BothTracked(sid, ids, start, pool, extra);
    var a, b := FromPool(sid, ids, start, pool).slots, FromBoth(sid, ids, start, pool, extra).slots;
    FreeDifference(a, b);
    Changes(sid, ids, start, pool, extra);
    BelowSize(Newly(a, b), |a|);
    WrapRange(|Newly(a, b)| - |Newly(b, a)|);
  }

  lemma Changes(sid: nat -> nat, ids: map<nat, nat>, start: Slots, pool: seq<Candidate>, extra: seq<Candidate>)
    requires OnFree(ids, start)
    ensures var (a, b) := (FromPool(sid, ids, start, pool).slots, FromBoth(sid, ids, start, pool, extra).slots);
      && Newly(a, b) == Gained(sid, ids, start, pool, extra)
      && Newly(b, a) == Emptied(sid, ids, start, pool, extra)
  {
    PoolTracked(sid, ids, start, pool);
    BothTracked(sid, ids, start, pool, extra);
    hide FromBoth, FromPool, OnFree, FreeSlots, PoolClaims, ExtraClaims;
    forall j: nat | j < |start| && start[j].None?
      ensures j in Newly(FromPool(sid, ids, start, pool).slots, FromBoth(sid, ids, start, pool, extra).slots)
         <==> j in Gained(sid, ids, start, pool, extra)
      ensures j in Newly(FromBoth(sid, ids, start, pool, extra).slots, FromPool(sid, ids, start, pool).slots)
         <==> j in Emptied(sid, ids, start, pool, extra)
    {
      PoolOutcome(sid, ids, start, pool, j);
      SlotOutcome(sid, ids, start, pool, extra, j);
      var p, x := PoolClaims(sid, ids, start, pool, j), ExtraClaims(sid, ids, start, pool, extra, j);
      assert p == [] ==> p + x == x;
    }
  }

  lemma {:induction false} BelowSize(s: set<int>, n: nat)
    requires forall j | j in s :: 0 <= j < n
    ensures |s| <= n
  {
    if n == 0 {
      assert (forall j :: j !in s) ==> s == {};
    } else {
      BelowSize(s - {n - 1}, n - 1);
    }
  }

  lemma WrapRange(x: int)
    requires x <= 0xffff
    ensures Wrap(x) == x <==> x >= 0
  {
  }

  function SameId(hash: nat): nat {
    7
  }

  /** One short id, a mempool transaction and an extra transaction that both have
      it: the first fills the slot, the second empties it. */
  lemma ExtraCountWraps()
    ensures var (one, two) := (Tx(1, false), Tx(2, false));
      var (ids, start, sid) := (map[7 := 0], [None], SameId);
      && IdsOk(Compact(false, [7], []), start, ids) && start == Placed(Compact(false, [7], []), 0)
      && FromPool(sid, ids, start, [(1, one)]).count == 1
      && FromBoth(sid, ids, start, [(1, one)], [(2, two)]).count == 0
      && Wrap(FromBoth(sid, ids, start, [(1, one)], [(2, two)]).count - FromPool(sid, ids, start, [(1, one)]).count)
         == UINT64 - 1
  {
    var (one, two) := (Tx(1, false), Tx(2, false));
    var (ids, start: Slots, sid) := (map[7 := 0], [None], SameId);
    assert start[..0] == [] && FreeSlots(start) == [0];
    assert start == Placed(Compact(false, [7], []), 0);
    var s := Look(sid, ids, false, Fresh(start), (1, one));
    assert s == Scan([Some(one)], [true], 1);
    assert Looked(sid, ids, false, Fresh(start), [(1, one)], 1) == s;
    assert FromPool(sid, ids, start, [(1, one)]) == s;
    assert Looked(sid, ids, true, s, [(2, two)], 1) == Look(sid, ids, true, s, (2, two)) == Scan([None], [true], 0);
    assert FromBoth(sid, ids, start, [(1, one)], [(2, two)]) == Scan([None], [true], 0);
  }

  /** The slots before `p` have been moved out, the others are untouched. */
  predicate MovedOut(a: Slots, b: Slots, p: int) {
    && |b| == |a|
    && (forall j | 0 <= j < |a| && j < p :: b[j] == None)
    && (forall j | 0 <= j < |a| && j >= p :: b[j] == a[j])
  }

  /** What CheckBlock says of an assembled block. */
  datatype Verdict = Passed | Mutated | Rejected

  /** The verdict as FillBlock reports it. */
  function Reported(v: Verdict): (s: Status)
    ensures s != Invalid
  {
    match v
    case Passed => Good
    case Mutated => Failed
    case Rejected => CheckBlockFailed
  }

  /** The block: what is available, and the missing ones in order. */
  function Filled(a: Slots, missing: seq<Tx>): (vtx: seq<Tx>) {
    if a == [] then [] else
      var n := |a| - 1;
      var m := |FreeSlots(a[..n])|;
      Filled(a[..n], missing)
      + [if a[n].Some? then a[n].value else if m < |missing| then missing[m] else Tx(0, true)]
  }

  lemma FilledStep(a: Slots, missing: seq<Tx>, i: nat)
    requires i < |a|
    ensures var m := |FreeSlots(a[..i])|;
            Filled(a[..i + 1], missing) == Filled(a[..i], missing)
              + [if a[i].Some? then a[i].value else if m < |missing| then missing[m] else Tx(0, true)]
  {
    assert a[..i + 1][..i] == a[..i];
  }

  // ---- Rebuilding the block ----

  /** A message made for the block: prefilled transactions at their places, and
      the short ids of all others in order. */
  ghost predicate Describes(c: Compact, sid: nat -> nat, vtx: seq<Tx>) {
    && (forall i | 0 <= i < |c.prefilled| :: PrefilledOk(c, i))
    && |vtx| == BlockTxCount(c)
    && var start := Placed(c, |c.prefilled|);
       var f := FreeSlots(start);
       && (forall j | 0 <= j < |vtx| && start[j].Some? :: start[j].value == vtx[j])
       && |f| == |c.shortIds|
       && (forall k | 0 <= k < |f| :: f[k] < |vtx| && c.shortIds[k] == sid(vtx[f[k]].hash))
  }

  /** No foreign candidate has the short id of a slot that is to be matched. */
  ghost predicate Own(c: Compact, sid: nat -> nat, from: seq<Candidate>, vtx: seq<Tx>)
    requires Describes(c, sid, vtx)
  {
    var f := FreeSlots(Placed(c, |c.prefilled|));
    forall m, k | 0 <= m < |from| && 0 <= k < |f| && sid(from[m].0) == c.shortIds[k] :: from[m].1 == vtx[f[k]]
  }

  ghost predicate Agrees(a: Slots, vtx: seq<Tx>) {
    |a| == |vtx| && forall j | 0 <= j < |a| && a[j].Some? :: a[j].value == vtx[j]
  }

  /** The constructor's message: the coinbase prefilled, ids for the rest. */
  method BuildCompact(vtx: seq<Tx>, sid: nat -> nat) returns (c: Compact)
    requires vtx != [] && !vtx[0].isNull
    ensures Describes(c, sid, vtx) && !c.headerNull && BlockTxCount(c) == |vtx|
    ensures forall maxTx | maxTx >= |vtx| :: WellFormed(c, maxTx)
  {
    var ids: seq<nat> := [];
    for i := 1 to |vtx|
      invariant |ids| == i - 1 && forall k | 0 <= k < |ids| :: ids[k] == sid(vtx[k + 1].hash)
    {
      ids := ids + [sid(vtx[i].hash)];
    }
    c := Compact(false, ids, [Prefilled(0, vtx[0])]);
    CoinbaseSlots(c);
  }

  lemma CoinbaseSlots(c: Compact)
    requires |c.prefilled| == 1 && c.prefilled[0].index == 0 && !c.prefilled[0].tx.isNull
    ensures PrefilledOk(c, 0) && Placed(c, 1)[0] == Some(c.prefilled[0].tx)
    ensures |FreeSlots(Placed(c, 1))| == |c.shortIds|
    ensures forall j | 0 < j < BlockTxCount(c) :: Placed(c, 1)[j].None?
    ensures forall k | 0 <= k < |c.shortIds| :: FreeSlots(Placed(c, 1))[k] == k + 1
  {
    assert Position(c.prefilled, 0) == 0;
    var a := Placed(c, 1);
    assert a == Placed(c, 0)[0 := Some(c.prefilled[0].tx)];
    assert forall j | 0 <= j < BlockTxCount(c) :: Placed(c, 0)[j] == None;
    TailFree(a, |a|);
    assert a[..|a|] == a;
  }

  lemma {:induction false} TailFree(a: Slots, n: nat)
    requires 0 < n <= |a| && a[0].Some? && forall j | 0 < j < |a| :: a[j].None?
    ensures |FreeSlots(a[..n])| == n - 1 && forall k | 0 <= k < n - 1 :: FreeSlots(a[..n])[k] == k + 1
  {
    FreeStep(a, n - 1);
    if n == 1 {
      assert a[..0] == [];
    } else {
      TailFree(a, n - 1);
    }
  }

  /** Under `Own`, whatever InitData filled in is the block's own transaction. */
  lemma FilledAreOwn(c: Compact, sid: nat -> nat, pool: seq<Candidate>, extra: seq<Candidate>, vtx: seq<Tx>,
                     ids: map<nat, nat>)
    requires Describes(c, sid, vtx) && Own(c, sid, pool + extra, vtx)
    requires IdsOk(c, Placed(c, |c.prefilled|), ids)
    ensures Agrees(FromBoth(sid, ids, Placed(c, |c.prefilled|), pool, extra).slots, vtx)
  {
    var start := Placed(c, |c.prefilled|);
    hide Placed, FreeSlots, PrefilledOk, FromBoth, Claim;
    var a := FromBoth(sid, ids, start, pool, extra).slots;
    forall j | 0 <= j < |a| && a[j].Some?
      ensures a[j].value == vtx[j]
    {
      if start[j].Some? {
        PrefilledStay(c, sid, ids, start, pool, extra, j);
      } else {
        var m := FilledFrom(sid, ids, start, pool, extra, j);
        ClaimIs(sid, ids, (pool + extra)[m]);
        var k :| 0 <= k < |c.shortIds| && c.shortIds[k] == sid((pool + extra)[m].0);
        assert ids[c.shortIds[k]] == FreeSlots(start)[k];
      }
    }
  }

  /** The transactions to ask for. */
  function Missing(a: Slots, vtx: seq<Tx>): (r: seq<Tx>)
    requires |a| == |vtx|
    ensures |r| == |FreeSlots(a)|
  {
    FreeFacts(a);
    seq(|FreeSlots(a)|, k requires 0 <= k < |FreeSlots(a)| && FreeSlots(a)[k] < |vtx| => vtx[FreeSlots(a)[k]])
  }

  lemma FillRebuilds(a: Slots, vtx: seq<Tx>)
    requires Agrees(a, vtx)
    ensures Filled(a, Missing(a, vtx)) == vtx
  {
    FillPrefix(a, vtx, |a|);
    assert a[..|a|] == a && vtx[..|a|] == vtx;
  }

  lemma {:induction false} FillPrefix(a: Slots, vtx: seq<Tx>, n: nat)
    requires Agrees(a, vtx) && n <= |a|
    ensures Filled(a[..n], Missing(a, vtx)) == vtx[..n]
  {
    hide FreeSlots, Filled, Missing;
    if n == 0 {
      FilledNone(a, Missing(a, vtx));
    } else {
      FillPrefix(a, vtx, n - 1);
      FilledStep(a, Missing(a, vtx), n - 1);
      assert vtx[..n] == vtx[..n - 1] + [vtx[n - 1]];
      if a[n - 1].None? {
        NextMissing(a, vtx, n - 1);
      }
    }
  }

  lemma FilledNone(a: Slots, missing: seq<Tx>)
    ensures Filled(a[..0], missing) == []
  {
  }

  /** An empty slot takes the missing transaction that is counted off for it. */
  lemma NextMissing(a: Slots, vtx: seq<Tx>, i: nat)
    requires i < |a| == |vtx| && a[i].None?
    ensures var m := |FreeSlots(a[..i])|;
            m < |Missing(a, vtx)| && Missing(a, vtx)[m] == vtx[i]
  {
    FreeStep(a, i);
    FreePrefix(a, i + 1);
    hide FreeSlots;
    assert FreeSlots(a)[|FreeSlots(a[..i])|] == i;
  }

  class PartialBlock {
    var headerNull: bool
    var txnAvailable: Slots
    var prefilledCount: nat
    var mempoolCount: nat
    var extraCount: nat

    constructor ()
      ensures headerNull && txnAvailable == [] && prefilledCount == 0 && mempoolCount == 0 && extraCount == 0
    {
      headerNull, txnAvailable, prefilledCount, mempoolCount, extraCount := true, [], 0, 0, 0;
    }

    /** The first loop of InitData. */
    method PlacePrefilled(c: Compact) returns (ok: bool)
      requires |txnAvailable| == BlockTxCount(c) && forall j | 0 <= j < |txnAvailable| :: txnAvailable[j] == None
      modifies this`txnAvailable
      ensures ok <==> forall i | 0 <= i < |c.prefilled| :: PrefilledOk(c, i)
      ensures ok ==> txnAvailable == Placed(c, |c.prefilled|)
      ensures !ok ==> StoppedAt(c, txnAvailable)
    {
      hide PrefilledOk;
      var last := -1;
      var i := 0;
      assert txnAvailable == Placed(c, 0);
      while i < |c.prefilled|
        invariant 0 <= i <= |c.prefilled| && last == Position(c.prefilled, i - 1)
        invariant forall k | 0 <= k < i :: PrefilledOk(c, k)
        invariant txnAvailable == Placed(c, i)
      {
        PrefilledIs(c, i);
        if c.prefilled[i].tx.isNull {
          return false;
        }
        last := last + c.prefilled[i].index + 1;
        if last > 0xffff {
          return false;
        }
        if last > |c.shortIds| + i {
          return false;
        }
        txnAvailable := txnAvailable[last := Some(c.prefilled[i].tx)];
        i := i + 1;
      }
      return true;
    }

    /** The second loop: the short id map, and whether ids collided. */
    method MapShortIds(c: Compact, crowdedAt: int) returns (ok: bool, ids: map<nat, nat>)
      requires |FreeSlots(txnAvailable)| == |c.shortIds| && |txnAvailable| <= 0xffff
      ensures ok <==> !(0 <= crowdedAt < |c.shortIds|) && Distinct(c.shortIds)
      ensures ok ==> IdsOk(c, txnAvailable, ids)
    {
      hide FreeSlots, MapOk, IdsOk, Distinct;
      ghost var f := FreeSlots(txnAvailable);
      ids := map[];
      var offset, i := 0, 0;
      MapStart(c.shortIds, f);
      NoneBefore(txnAvailable);
      while i < |c.shortIds|
        invariant 0 <= i <= |c.shortIds| && 0 <= offset && i + offset <= |txnAvailable|
        invariant |FreeSlots(txnAvailable[..i + offset])| == i
        invariant MapOk(c.shortIds, f, i, ids)
        invariant !(0 <= crowdedAt < i)
      {
        offset := NextFree(i, offset);
        MapStep(c.shortIds, f, i, ids, i + offset);
        ids := ids[c.shortIds[i] := i + offset];
        if i == crowdedAt {
          return false, ids;
        }
        i := i + 1;
      }
      MapDone(c, txnAvailable, ids);
      return |ids| == |c.shortIds|, ids;
    }

    /** Advance past occupied slots to the i-th free one, which exists. */
    method NextFree(i: nat, start: nat) returns (offset: nat)
      requires i + start <= |txnAvailable| && i < |FreeSlots(txnAvailable)|
      requires |FreeSlots(txnAvailable[..i + start])| == i
      ensures i + offset < |txnAvailable| && FreeSlots(txnAvailable)[i] == i + offset
      ensures |FreeSlots(txnAvailable[..i + offset + 1])| == i + 1
    {
      hide FreeSlots;
      offset := start;
      NotAllUsed(txnAvailable, i + offset);
      while txnAvailable[i + offset].Some?
        invariant i + offset < |txnAvailable| && |FreeSlots(txnAvailable[..i + offset])| == i
        decreases |txnAvailable| - offset
      {
        FreeStep(txnAvailable, i + offset);
        offset := offset + 1;
        NotAllUsed(txnAvailable, i + offset);
      }
      FreeStep(txnAvailable, i + offset);
      FreePrefix(txnAvailable, i + offset + 1);
    }

    /** The mempool loop: two candidates for one short id cancel each other. */
    method MatchPool(sid: nat -> nat, pool: seq<Candidate>, ids: map<nat, nat>, ghost start: Slots)
      returns (have: seq<bool>)
      requires OnFree(ids, start) && txnAvailable == start && mempoolCount == 0
      modifies this`txnAvailable, this`mempoolCount
      ensures Tracked(start, ids, Scan(txnAvailable, have, mempoolCount))
      ensures Scan(txnAvailable, have, mempoolCount) == FromPool(sid, ids, start, pool)
    {
      hide Tracked, Looked, Stop, Look, Claim, OnFree, FreeSlots;
      have := seq(|txnAvailable|, _ => false);
      ghost var s := Fresh(start);
      TrackedStart(start, ids);
      var i := 0;
      LookedNone(sid, ids, false, s, pool);
      while i < |pool|
        invariant 0 <= i <= |pool| && Tracked(start, ids, Scan(txnAvailable, have, mempoolCount))
        invariant Scan(txnAvailable, have, mempoolCount) == Looked(sid, ids, false, s, pool, i)
        invariant Stop(sid, ids, false, s, pool, 0) == Stop(sid, ids, false, s, pool, i)
        invariant i == 0 || mempoolCount != |ids|
      {
        ghost var now := Scan(txnAvailable, have, mempoolCount);
        StopLater(sid, ids, false, s, pool, i);
        LookTracked(sid, ids, false, start, now, pool[i]);
        LookIs(sid, ids, false, start, now, pool[i]);
        var id := sid(pool[i].0);
        if id in ids {
          var slot := ids[id];
          if !have[slot] {
            txnAvailable := txnAvailable[slot := Some(pool[i].1)];
            have := have[slot := true];
            mempoolCount := mempoolCount + 1;
          } else if txnAvailable[slot].Some? {
            txnAvailable := txnAvailable[slot := None];
            mempoolCount := mempoolCount - 1;
          }
        }
        i := i + 1;
        if mempoolCount == |ids| {
          break;
        }
      }
      StopHere(sid, ids, false, s, pool, i);
    }

    /** The same for the extra transactions, where meeting the very same
        transaction again does no harm. */
    method MatchExtra(sid: nat -> nat, extra: seq<Candidate>, ids: map<nat, nat>, ghost start: Slots, have: seq<bool>)
      returns (have': seq<bool>)
      requires Tracked(start, ids, Scan(txnAvailable, have, mempoolCount)) && extraCount < UINT64
      modifies this`txnAvailable, this`mempoolCount, this`extraCount
      ensures Tracked(start, ids, Scan(txnAvailable, have', mempoolCount))
      ensures Scan(txnAvailable, have', mempoolCount) ==
        Loop(sid, ids, true, Scan(old(txnAvailable), have, old(mempoolCount)), extra)
      ensures extraCount == Wrap(old(extraCount) + mempoolCount - old(mempoolCount))
    {
      hide Tracked, Wrap, Looked, Stop, Look, Claim, OnFree, FreeSlots;
      TrackedSized(start, ids, Scan(txnAvailable, have, mempoolCount));
      ghost var s := Scan(txnAvailable, have, mempoolCount);
      have' := have;
      var i := 0;
      LookedNone(sid, ids, true, s, extra);
      while i < |extra|
        invariant 0 <= i <= |extra| && Tracked(start, ids, Scan(txnAvailable, have', mempoolCount))
        invariant Scan(txnAvailable, have', mempoolCount) == Looked(sid, ids, true, s, extra, i)
        invariant Stop(sid, ids, true, s, extra, 0) == Stop(sid, ids, true, s, extra, i)
        invariant i == 0 || mempoolCount != |ids|
        invariant extraCount == Wrap(old(extraCount) + mempoolCount - old(mempoolCount))
      {
        ghost var now := Scan(txnAvailable, have', mempoolCount);
        StopLater(sid, ids, true, s, extra, i);
        LookTracked(sid, ids, true, start, now, extra[i]);
        LookIs(sid, ids, true, start, now, extra[i]);
        var id := sid(extra[i].0);
        if id in ids {
          var slot := ids[id];
          if !have'[slot] {
            txnAvailable := txnAvailable[slot := Some(extra[i].1)];
            have' := have'[slot := true];
            mempoolCount := mempoolCount + 1;
            WrapStep(old(extraCount) + mempoolCount - 1 - old(mempoolCount), 1);
            extraCount := Wrap(extraCount + 1);
          } else if txnAvailable[slot].Some? && txnAvailable[slot].value.hash != extra[i].1.hash {
            txnAvailable := txnAvailable[slot := None];
            mempoolCount := mempoolCount - 1;
            WrapStep(old(extraCount) + mempoolCount + 1 - old(mempoolCount), -1);
            extraCount := Wrap(extraCount - 1);
          }
        }
        i := i + 1;
        if mempoolCount == |ids| {
          break;
        }
      }
      StopHere(sid, ids, true, s, extra, i);
    }

    /** InitData.  `crowdedAt` stands for the short id at which the hash table
        check gives up, if any. */
    method InitData(c: Compact, maxTx: nat, sid: nat -> nat, pool: seq<Candidate>, extra: seq<Candidate>,
                    crowdedAt: int)
      returns (status: Status, ghost ids: map<nat, nat>)
      requires headerNull && txnAvailable == [] && mempoolCount == 0 && extraCount == 0
      requires BlockTxCount(c) <= 0xffff
      modifies this
      ensures status == Invalid <==> !WellFormed(c, maxTx)
      ensures status == Failed <==>
                WellFormed(c, maxTx) && (0 <= crowdedAt < |c.shortIds| || !Distinct(c.shortIds))
      ensures status == Invalid || status == Failed || status == Good
      ensures status == Good ==>
        var start := Placed(c, |c.prefilled|);
        && !headerNull && prefilledCount == |c.prefilled| && IdsOk(c, start, ids)
        && txnAvailable == FromBoth(sid, ids, start, pool, extra).slots
        && mempoolCount == FromBoth(sid, ids, start, pool, extra).count
        && mempoolCount == |FreeSlots(start)| - |FreeSlots(txnAvailable)|
        && extraCount == Wrap(mempoolCount - FromPool(sid, ids, start, pool).count)
        && (extraCount == mempoolCount - FromPool(sid, ids, start, pool).count <==>
              |Emptied(sid, ids, start, pool, extra)| <= |Gained(sid, ids, start, pool, extra)|)
      ensures status == Failed ==>
        && !headerNull && prefilledCount == |c.prefilled| && mempoolCount == 0 && extraCount == 0
        && txnAvailable == Placed(c, |c.prefilled|)
      ensures status == Invalid ==>
        && prefilledCount == old(prefilledCount) && mempoolCount == 0 && extraCount == 0
        && if c.headerNull || BlockTxCount(c) == 0 || BlockTxCount(c) > maxTx then headerNull && txnAvailable == []
           else !headerNull && StoppedAt(c, txnAvailable)
    {
      hide IdsOk, Placed, PrefilledOk, Distinct, FreeSlots, StoppedAt, Loop, Tracked, OnFree, Emptied, Gained;
      ids := map[];
      if c.headerNull || (c.shortIds == [] && c.prefilled == []) {
        return Invalid, ids;
      }
      if BlockTxCount(c) > maxTx {
        return Invalid, ids;
      }
      headerNull := false;
      txnAvailable := seq(BlockTxCount(c), _ => None);
      var ok := PlacePrefilled(c);
      if !ok {
        return Invalid, ids;
      }
      prefilledCount := |c.prefilled|;
      PlacedFree(c, |c.prefilled|);
      ghost var start := txnAvailable;
      var okIds, idMap := MapShortIds(c, crowdedAt);
      ids := idMap;
      if !okIds {
        return Failed, ids;
      }
      IdSlots(c, start, idMap);
      var have := MatchPool(sid, pool, idMap, start);
      have := MatchExtra(sid, extra, idMap, start, have);
      TrackedCount(start, idMap, Scan(txnAvailable, have, mempoolCount));
      ExtraCountExact(sid, idMap, start, pool, extra);
      status := Good;
    }

    /** FillBlock.  `verdict` is what CheckBlock says of the assembled block. */
    method FillBlock(missing: seq<Tx>, verdict: Verdict) returns (status: Status, vtx: seq<Tx>)
      requires !headerNull
      modifies this
      ensures |missing| != |FreeSlots(old(txnAvailable))| <==> status == Invalid
      ensures |missing| == |FreeSlots(old(txnAvailable))| ==> status == Reported(verdict)
      ensures status != Invalid ==> vtx == Filled(old(txnAvailable), missing)
      ensures |missing| >= |FreeSlots(old(txnAvailable))| ==> headerNull && txnAvailable == []
      ensures |missing| < |FreeSlots(old(txnAvailable))| ==>
        !headerNull && MovedOut(old(txnAvailable), txnAvailable, FreeSlots(old(txnAvailable))[|missing|])
      ensures prefilledCount == old(prefilledCount) && mempoolCount == old(mempoolCount)
      ensures extraCount == old(extraCount)
    {
      ghost var a0 := txnAvailable;
      vtx := [];
      var offset, i := 0, 0;
      assert a0[..0] == [];
      while i < |txnAvailable|
        invariant 0 <= i <= |txnAvailable| == |a0| && 0 <= offset <= |missing|
        invariant offset == |FreeSlots(a0[..i])| && vtx == Filled(a0[..i], missing)
        invariant MovedOut(a0, txnAvailable, i)
        invariant !headerNull && prefilledCount == old(prefilledCount) && mempoolCount == old(mempoolCount)
        invariant extraCount == old(extraCount)
      {
        FreeStep(a0, i);
        FreePrefix(a0, i + 1);
        FilledStep(a0, missing, i);
        if txnAvailable[i].None? {
          if |missing| <= offset {
            return Invalid, vtx;
          }
          vtx := vtx + [missing[offset]];
          offset := offset + 1;
        } else {
          vtx := vtx + [txnAvailable[i].value];
          txnAvailable := txnAvailable[i := None];
        }
        i := i + 1;
      }
      assert a0[..i] == a0;
      headerNull := true;
      txnAvailable := [];
      if |missing| != offset {
        return Invalid, vtx;
      }
      status := Reported(verdict);
    }

    /** The whole exchange: from a message that describes the block, and with the
        missing transactions in order, the block comes back as it was. */
    method Reconstruct(c: Compact, maxTx: nat, sid: nat -> nat, pool: seq<Candidate>, extra: seq<Candidate>,
                       vtx: seq<Tx>) returns (status: Status, rebuilt: seq<Tx>)
      requires headerNull && txnAvailable == [] && mempoolCount == 0 && extraCount == 0
      requires WellFormed(c, maxTx) && BlockTxCount(c) <= 0xffff && Distinct(c.shortIds)
      requires Describes(c, sid, vtx) && Own(c, sid, pool + extra, vtx)
      modifies this
      ensures status == Good && rebuilt == vtx
    {
      hide IdsOk, Placed, PrefilledOk, Distinct, FreeSlots, Own, Describes, WellFormed, Filled, FromBoth;
      ghost var ids;
      status, ids := InitData(c, maxTx, sid, pool, extra, -1);
      FilledAreOwn(c, sid, pool, extra, vtx, ids);
      var missing := Missing(txnAvailable, vtx);
      FillRebuilds(txnAvailable, vtx);
      status, rebuilt := FillBlock(missing, Passed);
    }
  }

  lemma NoneBefore(a: Slots)
    ensures FreeSlots(a[..0]) == []
  {
  }

  lemma PrefilledIs(c: Compact, i: nat)
    requires i < |c.prefilled|
    ensures PrefilledOk(c, i) <==>
      && !c.prefilled[i].tx.isNull
      && Position(c.prefilled, i) <= 0xffff
      && Position(c.prefilled, i) <= |c.shortIds| + i
  {
  }

  /** While short ids remain, an empty slot remains. */
  lemma NotAllUsed(a: Slots, p: nat)
    requires p <= |a| && |FreeSlots(a[..p])| < |FreeSlots(a)|
    ensures p < |a|
  {
    assert a[..|a|] == a;
  }

  ghost predicate MapKeys(ss: seq<nat>, n: nat, ids: map<nat, nat>)
    requires n <= |ss|
  {
    forall s :: s in ids <==> s in ss[..n]
  }

  ghost predicate MapValues(ss: seq<nat>, f: seq<nat>, n: nat, ids: map<nat, nat>)
    requires n <= |ss| == |f|
  {
    forall k | 0 <= k < n && ss[k] !in ss[k + 1..n] :: ss[k] in ids && ids[ss[k]] == f[k]
  }

  /** The map after `n` short ids: the last of equal ids wins. */
  ghost predicate MapOk(ss: seq<nat>, f: seq<nat>, n: nat, ids: map<nat, nat>)
    requires n <= |ss| == |f|
  {
    && MapKeys(ss, n, ids) && MapValues(ss, f, n, ids)
    && |ids| <= n && (|ids| == n <==> Distinct(ss[..n]))
  }

  lemma MapStart(ss: seq<nat>, f: seq<nat>)
    requires |ss| == |f|
    ensures MapOk(ss, f, 0, map[])
  {
  }

  lemma MapStep(ss: seq<nat>, f: seq<nat>, n: nat, ids: map<nat, nat>, slot: nat)
    requires n < |ss| == |f| && MapOk(ss, f, n, ids) && slot == f[n]
    ensures MapOk(ss, f, n + 1, ids[ss[n] := slot])
  {
    assert ss[n] in ids <==> ss[n] in ss[..n];
    hide Distinct, MapKeys, MapValues;
    KeysStep(ss, n, ids, slot);
    MapSize(ids, ss[n], slot);
    DistinctStep(ss, n);
    LastWins(ss, f, n, ids, slot);
  }

  lemma MapSize(ids: map<nat, nat>, s: nat, slot: nat)
    ensures |ids[s := slot]| == |ids| + if s in ids then 0 else 1
  {
    assert ids[s := slot].Keys == ids.Keys + {s};
  }

  lemma KeysStep(ss: seq<nat>, n: nat, ids: map<nat, nat>, slot: nat)
    requires n < |ss| && MapKeys(ss, n, ids)
    ensures MapKeys(ss, n + 1, ids[ss[n] := slot])
  {
    assert ss[..n + 1] == ss[..n] + [ss[n]];
  }

  lemma LastWins(ss: seq<nat>, f: seq<nat>, n: nat, ids: map<nat, nat>, slot: nat)
    requires n < |ss| == |f| && slot == f[n] && MapValues(ss, f, n, ids)
    ensures MapValues(ss, f, n + 1, ids[ss[n] := slot])
  {
    var ids' := ids[ss[n] := slot];
    forall k | 0 <= k < n + 1 && ss[k] !in ss[k + 1..n + 1]
      ensures ss[k] in ids' && ids'[ss[k]] == f[k]
    {
      if k < n {
        assert ss[k + 1..n + 1] == ss[k + 1..n] + [ss[n]];
      }
    }
  }

  lemma DistinctStep(ss: seq<nat>, n: nat)
    requires n < |ss|
    ensures Distinct(ss[..n + 1]) <==> Distinct(ss[..n]) && ss[n] !in ss[..n]
  {
    if Distinct(ss[..n + 1]) {
      assert forall i | 0 <= i < n :: ss[..n + 1][i] == ss[..n][i];
      assert ss[..n + 1][n] == ss[n];
    }
  }

  lemma MapDone(c: Compact, a: Slots, ids: map<nat, nat>)
    requires |FreeSlots(a)| == |c.shortIds| && MapOk(c.shortIds, FreeSlots(a), |c.shortIds|, ids)
    ensures |ids| == |c.shortIds| <==> Distinct(c.shortIds)
    ensures Distinct(c.shortIds) ==> IdsOk(c, a, ids)
  {
    hide FreeSlots;
    assert c.shortIds[..|c.shortIds|] == c.shortIds;
  }

  // ---- Differences of indexes ----

  /** `DifferenceFormatter`: each index is written as its distance from the one
      after the previous index. */
  class DifferenceFormatter {
    var shift: nat

    constructor ()
      ensures shift == 0
    {
      shift := 0;
    }

    /** Ser: None is the thrown failure. */
    method Ser(v: nat) returns (n: Option<nat>)
      requires v < UINT64
      modifies this
      ensures n == if v < old(shift) || v >= UINT64 - 1 then None else Some(v - old(shift))
      ensures shift == if n.Some? then v + 1 else old(shift)
    {
      if v < shift || v >= UINT64 - 1 {
        return None;
      }
      n := Some(v - shift);
      shift := v + 1;
    }

    /** Unser into an unsigned type with maximum `max`. */
    method Unser(n: nat, max: nat) returns (v: Option<nat>)
      requires n < UINT64 && shift < UINT64
      modifies this
      ensures v == if old(shift) + n >= UINT64 - 1 || old(shift) + n > max then None else Some(old(shift) + n)
      ensures v.Some? ==> shift == v.value + 1 < UINT64
    {
      shift := (shift + n) % UINT64;
      if shift < n || shift >= UINT64 - 1 || shift > max {
        return None;
      }
      v := Some(shift);
      shift := shift + 1;
    }
  }

  predicate Increasing(s: seq<nat>) {
    forall i, j | 0 <= i < j < |s| :: s[i] < s[j]
  }

  /** The values the differences stand for. */
  function Sums(ds: seq<nat>): (s: seq<nat>)
    ensures |s| == |ds|
  {
    if ds == [] then [] else
      var s := Sums(ds[..|ds| - 1]);
      s + [(if s == [] then 0 else s[|s| - 1] + 1) + ds[|ds| - 1]]
  }

  /** A list of 16-bit indexes can be written exactly when it is strictly
      increasing. */
  method SerAll(s: seq<nat>) returns (ds: Option<seq<nat>>)
    requires forall i | 0 <= i < |s| :: s[i] <= 0xffff
    ensures ds.Some? <==> Increasing(s)
    ensures ds.Some? ==> Sums(ds.value) == s
  {
    var f := new DifferenceFormatter();
    var r: seq<nat> := [];
    for i := 0 to |s|
      invariant Sums(r) == s[..i] && Increasing(s[..i])
      invariant f.shift == if i == 0 then 0 else s[i - 1] + 1
    {
      var n := f.Ser(s[i]);
      if n.None? {
        assert s[i] <= s[i - 1];
        return None;
      }
      r := r + [n.value];
      assert r[..|r| - 1] + [n.value] == r;
      assert s[..i + 1] == s[..i] + [s[i]];
    }
    assert s[..|s|] == s;
    ds := Some(r);
  }

  /** Reading gives the sums, if they fit 16 bits. */
  method UnserAll(ds: seq<nat>) returns (s: Option<seq<nat>>)
    requires forall i | 0 <= i < |ds| :: ds[i] < UINT64
    ensures s == if (forall k | 0 <= k < |ds| :: Sums(ds)[k] <= 0xffff) then Some(Sums(ds)) else None
  {
    var f := new DifferenceFormatter();
    var r: seq<nat> := [];
    for i := 0 to |ds|
      invariant r == Sums(ds[..i]) && f.shift < UINT64
      invariant f.shift == if i == 0 then 0 else r[i - 1] + 1
      invariant forall k | 0 <= k < i :: r[k] <= 0xffff
    {
      hide Sums;
      SumsNext(ds, i);
      var v := f.Unser(ds[i], 0xffff);
      if v.None? {
        return None;
      }
      r := r + [v.value];
    }
    assert ds[..|ds|] == ds;
    s := Some(r);
  }

  lemma SumsNext(ds: seq<nat>, i: nat)
    requires i < |ds|
    ensures var r := Sums(ds[..i]);
      && Sums(ds)[i] == (if i == 0 then 0 else r[i - 1] + 1) + ds[i]
      && Sums(ds[..i + 1]) == r + [Sums(ds)[i]]
  {
    SumsPrefix(ds, i + 1);
    SumsPrefix(ds, i);
    assert ds[..i + 1][..i] == ds[..i];
  }

  lemma {:induction false} SumsPrefix(ds: seq<nat>, n: nat)
    requires n <= |ds|
    ensures Sums(ds[..n]) == Sums(ds)[..n]
    decreases |ds|
  {
    if n == |ds| {
      assert ds[..n] == ds;
    } else {
      var m := |ds| - 1;
      SumsPrefix(ds[..m], n);
      assert ds[..m][..n] == ds[..n];
    }
  }

  /** Differences are determined by their sums, and the sums increase. */
  lemma {:induction false} SumsInjective(a: seq<nat>, b: seq<nat>)
    requires Sums(a) == Sums(b)
    ensures a == b && Increasing(Sums(a))
  {
    if a != [] {
      var n := |a| - 1;
      SumsPrefix(a, n);
      SumsPrefix(b, n);
      SumsInjective(a[..n], b[..n]);
      assert a == a[..n] + [a[n]] && b == b[..n] + [b[n]];
    }
  }
}
