/** The check queue as a state machine.  One step is one critical section of
    `Loop`, one evaluation outside the lock, or one call of the master. */
module CheckQueue {
  import opened NatArith

  /** A verification and what it evaluates to. */
  datatype Check = Check(id: int, ok: bool)

  /** Where a thread is.  The last thread is the master; only it is ever
      Outside (between calls) or Notifying (in Add, after releasing the lock).
      Inside is the middle of a critical section, never seen between steps. */
  datatype Phase =
    | Outside
    | Notifying(count: nat)
    | Starting
    | Inside
    | Parked(signalled: bool)
    | Working(batch: seq<Check>, next: nat, fOk: bool)

  /** `added` records the checks added since Wait last returned. */
  datatype State = State(
    queue: seq<Check>, nIdle: int, nTotal: int, fAllOk: bool, nTodo: int, nBatchSize: nat,
    threads: seq<Phase>, added: seq<Check>)

  function Master(s: State): nat
    requires |s.threads| > 0
  {
    |s.threads| - 1
  }

  predicate AllOk(cs: seq<Check>) {
    forall i | 0 <= i < |cs| :: cs[i].ok
  }

  // ---- Sums over the threads ----

  function Sum(w: Phase -> int, ts: seq<Phase>): int {
    if ts == [] then 0 else w(ts[0]) + Sum(w, ts[1..])
  }

  lemma {:induction false} SumUpdate(w: Phase -> int, ts: seq<Phase>, i: nat, p: Phase)
    requires i < |ts|
    ensures Sum(w, ts[i := p]) == Sum(w, ts) - w(ts[i]) + w(p)
  {
    if i == 0 {
      assert ts[0 := p][1..] == ts[1..];
    } else {
      SumUpdate(w, ts[1..], i - 1, p);
      assert ts[i := p][1..] == ts[1..][i - 1 := p];
    }
  }

  lemma {:induction false} SumZero(w: Phase -> int, ts: seq<Phase>, i: nat)
    requires (forall p :: w(p) >= 0) && Sum(w, ts) == 0 && i < |ts|
    ensures w(ts[i]) == 0
  {
    SumNonNegative(w, ts[1..]);
    if i > 0 {
      SumZero(w, ts[1..], i - 1);
    }
  }

  lemma {:induction false} SumNonNegative(w: Phase -> int, ts: seq<Phase>)
    requires forall p :: w(p) >= 0
    ensures Sum(w, ts) >= 0
  {
    if ts != [] {
      SumNonNegative(w, ts[1..]);
    }
  }

  lemma {:induction false} SumPositive(w: Phase -> int, ts: seq<Phase>) returns (i: nat)
    requires (forall p :: w(p) >= 0) && Sum(w, ts) > 0
    ensures i < |ts| && w(ts[i]) > 0
  {
    if w(ts[0]) > 0 {
      i := 0;
    } else {
      i := SumPositive(w, ts[1..]);
      i := i + 1;
    }
  }

  function Held(p: Phase): (n: int)
    ensures n >= 0
  {
    if p.Working? then |p.batch| else 0
  }

  function Idle(p: Phase): int { if p.Parked? then 1 else 0 }

  function Counted(p: Phase): int { if p.Parked? || p.Working? || p.Inside? then 1 else 0 }

  /** Work left, for the termination argument. */
  function Potential(p: Phase): int {
    match p
    case Starting => 1
    case Parked(signalled) => if signalled then 1 else 0
    case Working(batch, next, _) => 2 + (if next <= |batch| then |batch| - next else 0)
    case _ => 0
  }

  function Measure(s: State): int {
    3 * |s.queue| + Sum(Potential, s.threads)
  }

  // ---- Steps ----

  datatype Step =
    | Add(checks: seq<Check>)
    | Notify(worker: nat)
    | BeginWait
    | Section(thread: nat)
    | Exec(thread: nat)
    | SpuriousWake(thread: nat)

  function SetThread(s: State, i: nat, p: Phase): State
    requires i < |s.threads|
  {
    s.(threads := s.threads[i := p])
  }

  /** How many checks a thread takes: never none, never more than are queued. */
  function BatchSize(s: State): (n: int)
    ensures 1 <= n && (s.queue != [] ==> n <= |s.queue|)
  {
    var sharers := s.nTotal + s.nIdle + 1;
    var share := if sharers > 0 then Share(|s.queue|, sharers) else 0;
    var capped := if s.nBatchSize < share then s.nBatchSize else share;
    if capped < 1 then 1 else capped
  }

  function Share(size: nat, sharers: int): (n: nat)
    requires sharers > 0
    ensures n <= size
  {
    DivAtMost(size, sharers);
    size / sharers
  }

  /** A batch is the largest number of checks within the batch limit that every
      thread, idle or not, could also take, the master included; one if that is
      none. */
  lemma BatchIsFairShare(s: State)
    requires s.nTotal + s.nIdle >= 0
    ensures var n, sharers := BatchSize(s), s.nTotal + s.nIdle + 1;
      && n >= 1 && (n == 1 || (n <= s.nBatchSize && n * sharers <= |s.queue|))
      && (n >= s.nBatchSize || |s.queue| < (n + 1) * sharers)
  {
    hide Share;
    var n, sharers := BatchSize(s), s.nTotal + s.nIdle + 1;
    var share := Share(|s.queue|, sharers);
    ShareIs(|s.queue|, sharers);
    if n <= share {
      MulMono(n, share, sharers);
    }
    if n >= share {
      MulMono(share + 1, n + 1, sharers);
    }
  }

  lemma ShareIs(size: nat, sharers: nat)
    requires sharers > 0
    ensures Share(size, sharers) * sharers <= size < (Share(size, sharers) + 1) * sharers
  {
    DivModFacts(size, sharers);
    MulDist(sharers, size / sharers, 1);
  }

  lemma DivAtMost(a: nat, b: int)
    requires b > 0
    ensures 0 <= a / b <= a
  {
    MulMono(1, b, a + 1);
    DivUpper(a, b, a);
  }

  /** Checks leave the queue from the back. */
  function TakenFrom(queue: seq<Check>, n: nat): (batch: seq<Check>)
    requires n <= |queue|
    ensures |batch| == n && forall i | 0 <= i < n :: batch[i] == queue[|queue| - 1 - i]
  {
    seq(n, i requires 0 <= i < n => queue[|queue| - 1 - i])
  }

  /** The clean-up at the top of a critical section: report the finished batch
      (waking the master if it was the last work), or count a newcomer, or leave
      the idle set. */
  function CleanUp(s: State, t: nat): State
    requires t < |s.threads|
  {
    var inside := SetThread(s, t, Inside);
    match s.threads[t]
    case Working(batch, _, fOk) =>
      var r := inside.(fAllOk := s.fAllOk && fOk, nTodo := s.nTodo - |batch|);
      if r.nTodo == 0 && t != Master(s) && s.threads[Master(s)].Parked? then
        SetThread(r, Master(s), Parked(true))
      else r
    case Starting => inside.(nTotal := s.nTotal + 1)
    case Parked(_) => inside.(nIdle := s.nIdle - 1)
    case _ => s
  }

  /** The rest of the critical section: return (master only), park, or take a batch. */
  function Decide(s: State, t: nat): State
    requires t < |s.threads|
  {
    if s.queue == [] then
      if t == Master(s) && s.nTodo == 0 then
        SetThread(s, t, Outside).(nTotal := s.nTotal - 1, fAllOk := true, added := [])
      else
        SetThread(s, t, Parked(false)).(nIdle := s.nIdle + 1)
    else
      var n := BatchSize(s);
      SetThread(s, t, Working(TakenFrom(s.queue, n), 0, s.fAllOk)).(queue := s.queue[..|s.queue| - n])
  }

  predicate Finished(p: Phase) {
    p.Working? && p.next == |p.batch|
  }

  predicate Enabled(s: State, step: Step) {
    && |s.threads| > 0
    && match step
       case Add(checks) => checks != [] && s.threads[Master(s)].Outside?
       case Notify(w) => s.threads[Master(s)].Notifying?
       case BeginWait => s.threads[Master(s)].Outside?
       case Section(t) =>
         t < |s.threads| && (s.threads[t].Starting? || s.threads[t] == Parked(true) || Finished(s.threads[t]))
       case Exec(t) => t < |s.threads| && s.threads[t].Working? && s.threads[t].next < |s.threads[t].batch|
       case SpuriousWake(t) => t < |s.threads| && s.threads[t] == Parked(false)
  }

  /** notify_one wakes one parked worker if there is one (`w` is the scheduler's
      pick), notify_all wakes them all. */
  function Woken(ts: seq<Phase>): seq<Phase> {
    seq(|ts|, i requires 0 <= i < |ts| => if i < |ts| - 1 && ts[i].Parked? then Parked(true) else ts[i])
  }

  function SomeParked(ts: seq<Phase>, i: nat): (r: nat)
    requires i <= |ts|
    ensures r < |ts| - 1 ==> ts[r] == Parked(false)
    ensures r >= |ts| - 1 ==> forall j | i <= j < |ts| - 1 :: ts[j] != Parked(false)
    decreases |ts| - i
  {
    if i >= |ts| - 1 then |ts| else if ts[i] == Parked(false) then i else SomeParked(ts, i + 1)
  }

  function WakeOne(ts: seq<Phase>, w: nat): seq<Phase> {
    var pick := if w < |ts| - 1 && ts[w] == Parked(false) then w else SomeParked(ts, 0);
    if pick < |ts| - 1 then ts[pick := Parked(true)] else ts
  }

  function Next(s: State, step: Step): State
    requires Enabled(s, step)
  {
    var m := Master(s);
    match step
    case Add(checks) =>
      SetThread(s, m, Notifying(|checks|)).(
        queue := s.queue + checks, nTodo := s.nTodo + |checks|, added := s.added + checks)
    case Notify(w) =>
      var ts := if s.threads[m].count == 1 then WakeOne(s.threads, w) else Woken(s.threads);
      s.(threads := ts[m := Outside])
    case BeginWait => SetThread(s, m, Starting)
    case Section(t) => Decide(CleanUp(s, t), t)
    case Exec(t) =>
      var p := s.threads[t];
      SetThread(s, t, p.(next := p.next + 1, fOk := if p.fOk then p.batch[p.next].ok else false))
    case SpuriousWake(t) => SetThread(s, t, Parked(true))
  }

  /** Several new checks wake every sleeping worker, a single one wakes exactly
      one of them, if any sleeps. */
  lemma NotifyWakes(s: State, w: nat)
    requires Enabled(s, Notify(w))
    ensures var (m, t) := (|s.threads| - 1, Next(s, Notify(w)));
      && t == s.(threads := t.threads) && |t.threads| == |s.threads| && t.threads[m].Outside?
      && (s.threads[m].count != 1 ==> forall i | 0 <= i < m ::
            t.threads[i] == if s.threads[i] == Parked(false) then Parked(true) else s.threads[i])
      && (s.threads[m].count == 1 ==>
            || ((forall i | 0 <= i < m :: s.threads[i] != Parked(false)) && t.threads == s.threads[m := Outside])
            || (exists i :: 0 <= i < m && s.threads[i] == Parked(false)
                            && t.threads == s.threads[i := Parked(true)][m := Outside]))
  {
  }

  /** A critical section: the thread's own results are merged first.  Then the
      master returns if nothing is left to do; any thread sleeps if nothing is
      queued; else it takes a batch from the back of the queue, to be evaluated only
      if nothing has failed so far.  The worker that reports the last check wakes
      the master; no other thread is touched. */
  lemma SectionTakes(s: State, t: nat)
    requires Enabled(s, Section(t)) && t < |s.threads|
    ensures var (p, m, u) := (s.threads[t], |s.threads| - 1, Next(s, Section(t)));
      var todo := s.nTodo - Held(p);
      var allOk := s.fAllOk && (p.Working? ==> p.fOk);
      && |u.threads| == |s.threads| && u.nTodo == todo && u.nBatchSize == s.nBatchSize
      && (forall i | 0 <= i < |s.threads| && i != t ::
            u.threads[i] == if i == m && p.Working? && todo == 0 && s.threads[m].Parked? then Parked(true)
                            else s.threads[i])
      && (if s.queue == [] then
            && u.queue == [] && u.fAllOk == (allOk || (t == m && todo == 0))
            && (if t == m && todo == 0 then u.threads[t] == Outside && u.added == []
                else u.threads[t] == Parked(false) && u.added == s.added)
          else
            && u.threads[t].Working? && u.threads[t].next == 0 && u.threads[t].fOk == allOk == u.fAllOk
            && var batch := u.threads[t].batch;
              && 1 <= |batch| == BatchSize(u.(queue := s.queue)) <= |s.queue|
              && u.queue == s.queue[..|s.queue| - |batch|] && u.added == s.added
              && forall i | 0 <= i < |batch| :: batch[i] == s.queue[|s.queue| - 1 - i])
  {
    hide Decide, BatchSize;
    var c := CleanUp(s, t);
    DecideIs(c, t);
  }

  lemma DecideIs(s: State, t: nat)
    requires t < |s.threads|
    ensures var (m, u) := (|s.threads| - 1, Decide(s, t));
      && u.threads == s.threads[t := u.threads[t]] && u.nTodo == s.nTodo && u.nBatchSize == s.nBatchSize
      && (if s.queue == [] then
            && u.queue == [] && u.fAllOk == (s.fAllOk || (t == m && s.nTodo == 0))
            && (if t == m && s.nTodo == 0 then u.threads[t] == Outside && u.added == []
                else u.threads[t] == Parked(false) && u.added == s.added)
          else
            && u.threads[t].Working? && u.threads[t].next == 0 && u.threads[t].fOk == s.fAllOk == u.fAllOk
            && var batch := u.threads[t].batch;
              && 1 <= |batch| == BatchSize(u.(queue := s.queue)) <= |s.queue|
              && u.queue == s.queue[..|s.queue| - |batch|] && u.added == s.added
              && forall i | 0 <= i < |batch| :: batch[i] == s.queue[|s.queue| - 1 - i])
  {
    hide Share;
  }

  /** Idle workers about to enter Loop, and a master between calls. */
  function Init(workers: nat, nBatchSize: nat): State {
    State([], 0, 0, true, 0, nBatchSize, seq(workers, i => Starting) + [Outside], [])
  }

  ghost predicate IsRun(s: State, steps: seq<Step>)
    decreases steps
  {
    steps == [] || (Enabled(s, steps[0]) && IsRun(Next(s, steps[0]), steps[1..]))
  }

  ghost function After(s: State, steps: seq<Step>): State
    requires IsRun(s, steps)
    decreases steps
  {
    if steps == [] then s else After(Next(s, steps[0]), steps[1..])
  }

  // ---- The invariant ----

  /** A thread that holds checks will report false if any it still has to run is false. */
  ghost predicate Clean(p: Phase) {
    p.Working? ==> p.fOk && p.next <= |p.batch| && AllOk(p.batch[p.next..])
  }

  ghost predicate PhaseOk(p: Phase) {
    p.Working? ==> p.next <= |p.batch| && |p.batch| > 0
  }

  ghost predicate CountsOk(s: State) {
    && s.nTodo == |s.queue| + Sum(Held, s.threads)
    && s.nIdle == Sum(Idle, s.threads)
    && s.nTotal == Sum(Counted, s.threads)
  }

  /** The verdict so far, plus what is still to be evaluated, is the verdict on
      everything added. */
  ghost predicate VerdictOk(s: State) {
    AllOk(s.added) <==> s.fAllOk && AllOk(s.queue) && forall t | 0 <= t < |s.threads| :: Clean(s.threads[t])
  }

  ghost predicate PhasesOk(s: State) {
    && |s.threads| > 0
    && (forall t | 0 <= t < |s.threads| :: PhaseOk(s.threads[t]))
    && (forall t | 0 <= t < Master(s) :: !s.threads[t].Outside? && !s.threads[t].Notifying?)
  }

  /** The master parks only with an empty queue, and sleeps unsignalled only
      while work is outstanding. */
  ghost predicate MasterOk(s: State)
    requires |s.threads| > 0
  {
    s.threads[Master(s)].Parked? ==>
      s.queue == [] && (!s.threads[Master(s)].signalled ==> s.nTodo > 0)
  }

  /** A queued check is never left with every worker asleep, except in the
      moment between the master's unlock and its notification. */
  ghost predicate WorkersOk(s: State)
    requires |s.threads| > 0
  {
    s.queue != [] && Master(s) > 0 && !s.threads[Master(s)].Notifying? ==>
      exists t :: 0 <= t < Master(s) && s.threads[t] != Parked(false)
  }

  ghost predicate Inv(s: State) {
    PhasesOk(s) && CountsOk(s) && VerdictOk(s) && MasterOk(s) && WorkersOk(s)
  }

  // ---- Critical sections keep it ----

  lemma SetCounts(s: State, t: nat, p: Phase)
    requires t < |s.threads|
    ensures Sum(Held, SetThread(s, t, p).threads) == Sum(Held, s.threads) - Held(s.threads[t]) + Held(p)
    ensures Sum(Idle, SetThread(s, t, p).threads) == Sum(Idle, s.threads) - Idle(s.threads[t]) + Idle(p)
    ensures Sum(Counted, SetThread(s, t, p).threads) == Sum(Counted, s.threads) - Counted(s.threads[t]) + Counted(p)
    ensures Sum(Potential, SetThread(s, t, p).threads) ==
      Sum(Potential, s.threads) - Potential(s.threads[t]) + Potential(p)
  {
    SumUpdate(Held, s.threads, t, p);
    SumUpdate(Idle, s.threads, t, p);
    SumUpdate(Counted, s.threads, t, p);
    SumUpdate(Potential, s.threads, t, p);
  }

  /** What holds of a thread that may enter the lock. */
  predicate MayEnter(p: Phase) {
    p.Starting? || p == Parked(true) || Finished(p)
  }

  lemma CleanUpCounts(s: State, t: nat)
    requires PhasesOk(s) && CountsOk(s) && t < |s.threads| && MayEnter(s.threads[t])
    ensures CountsOk(CleanUp(s, t)) && PhasesOk(CleanUp(s, t))
    ensures |CleanUp(s, t).threads| == |s.threads| && CleanUp(s, t).threads[t] == Inside
    ensures CleanUp(s, t).queue == s.queue
    ensures Measure(CleanUp(s, t)) < Measure(s)
  {
    hide Sum;
    SetCounts(s, t, Inside);
    var inside := SetThread(s, t, Inside);
    if s.threads[t].Working? && s.nTodo == |s.threads[t].batch| && t != Master(s) && s.threads[Master(s)].Parked? {
      SetCounts(inside, Master(s), Parked(true));
    }
  }

  lemma CleanUpVerdict(s: State, t: nat)
    requires PhasesOk(s) && VerdictOk(s) && t < |s.threads| && MayEnter(s.threads[t])
    ensures VerdictOk(CleanUp(s, t)) && CleanUp(s, t).added == s.added
  {
    var r := CleanUp(s, t);
    var p := s.threads[t];
    if p.Working? {
      assert p.batch[p.next..] == [];
      assert Clean(p) <==> p.fOk;
    }
    assert Clean(r.threads[t]);
    forall x | 0 <= x < |s.threads| && x != t ensures Clean(r.threads[x]) <==> Clean(s.threads[x]) {
    }
  }

  lemma CleanUpMaster(s: State, t: nat)
    requires PhasesOk(s) && CountsOk(s) && MasterOk(s) && WorkersOk(s) && t < |s.threads| && MayEnter(s.threads[t])
    ensures MasterOk(CleanUp(s, t)) && WorkersOk(CleanUp(s, t))
  {
    hide Sum;
    CleanUpCounts(s, t);
    var r := CleanUp(s, t);
    HeldNonNegative(r);
    if r.queue != [] && Master(r) > 0 && !r.threads[Master(r)].Notifying? {
      if t < Master(s) {
        assert r.threads[t] != Parked(false);
      } else {
        var x :| 0 <= x < Master(s) && s.threads[x] != Parked(false);
        assert r.threads[x] != Parked(false);
      }
    }
  }

  lemma HeldNonNegative(s: State)
    ensures Sum(Held, s.threads) >= 0
  {
    SumNonNegative(Held, s.threads);
  }

  lemma DecideCounts(s: State, t: nat)
    requires PhasesOk(s) && CountsOk(s) && t < |s.threads| && s.threads[t] == Inside
    ensures CountsOk(Decide(s, t)) && PhasesOk(Decide(s, t))
    ensures Measure(Decide(s, t)) <= Measure(s)
  {
    hide Sum, BatchSize;
    if s.queue == [] {
      SetCounts(s, t, Outside);
      SetCounts(s, t, Parked(false));
    } else {
      var n := BatchSize(s);
      SetCounts(s, t, Working(TakenFrom(s.queue, n), 0, s.fAllOk));
    }
  }

  lemma DecideVerdict(s: State, t: nat)
    requires PhasesOk(s) && CountsOk(s) && VerdictOk(s) && t < |s.threads| && s.threads[t] == Inside
    ensures VerdictOk(Decide(s, t))
  {
    hide Sum, BatchSize, CountsOk;
    var r := Decide(s, t);
    if s.queue == [] && t == Master(s) && s.nTodo == 0 {
      NobodyWorks(s);
    } else {
      forall x | 0 <= x < |s.threads| && x != t ensures r.threads[x] == s.threads[x] {
      }
      if s.queue != [] {
        var n := BatchSize(s);
        TakenAllOk(s.queue, n);
        var batch := TakenFrom(s.queue, n);
        assert batch[0..] == batch;
        assert Clean(r.threads[t]) <==> s.fAllOk && AllOk(batch);
      }
      assert Clean(s.threads[t]);
    }
  }

  lemma TakenAllOk(queue: seq<Check>, n: nat)
    requires n <= |queue|
    ensures AllOk(queue) <==> AllOk(queue[..|queue| - n]) && AllOk(TakenFrom(queue, n))
  {
    var rest, batch := queue[..|queue| - n], TakenFrom(queue, n);
    if AllOk(rest) && AllOk(batch) {
      forall i | 0 <= i < |queue| ensures queue[i].ok {
        if i < |queue| - n {
          assert rest[i].ok;
        } else {
          assert batch[|queue| - 1 - i].ok;
        }
      }
    }
  }

  /** With nothing to do, no thread holds a batch. */
  lemma NobodyWorks(s: State)
    requires PhasesOk(s) && CountsOk(s) && s.nTodo == 0
    ensures s.queue == []
    ensures forall x | 0 <= x < |s.threads| :: !s.threads[x].Working? && Clean(s.threads[x])
  {
    hide Sum;
    HeldNonNegative(s);
    forall x | 0 <= x < |s.threads| ensures !s.threads[x].Working? {
      SumZero(Held, s.threads, x);
    }
  }

  lemma DecideMaster(s: State, t: nat)
    requires PhasesOk(s) && CountsOk(s) && MasterOk(s) && WorkersOk(s) && t < |s.threads| && s.threads[t] == Inside
    ensures MasterOk(Decide(s, t)) && WorkersOk(Decide(s, t))
  {
    hide Sum, BatchSize;
    HeldNonNegative(s);
    var r := Decide(s, t);
    if r.queue != [] && Master(r) > 0 && !r.threads[Master(r)].Notifying? {
      if t < Master(s) {
        assert r.threads[t] != Parked(false);
      } else {
        var x :| 0 <= x < Master(s) && s.threads[x] != Parked(false);
        assert r.threads[x] != Parked(false);
      }
    }
  }

  lemma SectionKeepsInv(s: State, t: nat)
    requires Inv(s) && t < |s.threads| && MayEnter(s.threads[t])
    ensures Inv(Decide(CleanUp(s, t), t)) && Measure(Decide(CleanUp(s, t), t)) < Measure(s)
  {
    hide Sum, CountsOk, VerdictOk, MasterOk, WorkersOk, PhasesOk, CleanUp, Decide;
    PhasesNonEmpty(s);
    CleanUpCounts(s, t);
    CleanUpVerdict(s, t);
    CleanUpMaster(s, t);
    var r := CleanUp(s, t);
    PhasesNonEmpty(r);
    DecideCounts(r, t);
    DecideVerdict(r, t);
    DecideMaster(r, t);
    PhasesNonEmpty(Decide(r, t));
  }

  lemma PhasesNonEmpty(s: State)
    requires PhasesOk(s)
    ensures |s.threads| > 0
  {
  }

  // ---- The other steps keep it ----

  lemma {:induction false} SumSame(w: Phase -> int, ts: seq<Phase>, us: seq<Phase>)
    requires |ts| == |us| && forall i | 0 <= i < |ts| :: w(ts[i]) == w(us[i])
    ensures Sum(w, ts) == Sum(w, us)
  {
    if ts != [] {
      SumSame(w, ts[1..], us[1..]);
    }
  }

  lemma AllOkConcat(a: seq<Check>, b: seq<Check>)
    ensures AllOk(a + b) <==> AllOk(a) && AllOk(b)
  {
    if AllOk(a + b) {
      assert forall i | 0 <= i < |a| :: a[i] == (a + b)[i];
      assert forall i | 0 <= i < |b| :: b[i] == (a + b)[|a| + i];
    }
  }

  lemma AddKeepsInv(s: State, checks: seq<Check>)
    requires Inv(s) && Enabled(s, Add(checks))
    ensures Inv(Next(s, Add(checks)))
  {
    hide Sum;
    SetCounts(s, Master(s), Notifying(|checks|));
    AllOkConcat(s.queue, checks);
    AllOkConcat(s.added, checks);
    var r := Next(s, Add(checks));
    hide AllOk;
    forall x | 0 <= x < |s.threads| ensures Clean(r.threads[x]) <==> Clean(s.threads[x]) {
    }
  }

  /** Waking workers moves no work. */
  ghost predicate OnlyWoken(ts: seq<Phase>, us: seq<Phase>) {
    && |us| == |ts|
    && forall i | 0 <= i < |ts| :: us[i] == ts[i] || (ts[i].Parked? && us[i] == Parked(true) && i < |ts| - 1)
  }

  lemma WokenKeepsInv(s: State, us: seq<Phase>)
    requires PhasesOk(s) && CountsOk(s) && VerdictOk(s) && OnlyWoken(s.threads, us)
    ensures var r := s.(threads := us);
      PhasesOk(r) && CountsOk(r) && VerdictOk(r)
  {
    SumSame(Held, s.threads, us);
    SumSame(Idle, s.threads, us);
    SumSame(Counted, s.threads, us);
    hide Sum, AllOk;
    var r := s.(threads := us);
    forall x | 0 <= x < |us| ensures (Clean(us[x]) <==> Clean(s.threads[x])) && PhaseOk(us[x]) {
    }
  }

  lemma WakeOneSpec(ts: seq<Phase>, w: nat)
    requires |ts| > 1
    ensures OnlyWoken(ts, WakeOne(ts, w))
    ensures exists t :: 0 <= t < |ts| - 1 && WakeOne(ts, w)[t] != Parked(false)
  {
    var us := WakeOne(ts, w);
    var pick := if w < |ts| - 1 && ts[w] == Parked(false) then w else SomeParked(ts, 0);
    if pick < |ts| - 1 {
      assert us[pick] != Parked(false);
    } else {
      assert us[0] != Parked(false);
    }
  }

  lemma NotifyKeepsInv(s: State, w: nat)
    requires Inv(s) && Enabled(s, Notify(w))
    ensures Inv(Next(s, Notify(w)))
  {
    hide Sum, WakeOne, Woken, AllOk, CountsOk, VerdictOk;
    var m := Master(s);
    var ts := if s.threads[m].count == 1 then WakeOne(s.threads, w) else Woken(s.threads);
    NotifiedThreads(s.threads, w);
    WokenKeepsInv(s, ts);
    var r := s.(threads := ts);
    LeaveNotify(r);
    if m > 0 {
      var t :| 0 <= t < m && ts[t] != Parked(false);
      assert Next(s, Notify(w)).threads[t] != Parked(false);
    }
  }

  lemma NotifiedThreads(ts: seq<Phase>, w: nat)
    requires |ts| > 0
    ensures OnlyWoken(ts, WakeOne(ts, w)) && OnlyWoken(ts, Woken(ts))
    ensures |ts| > 1 ==> exists t :: 0 <= t < |ts| - 1 && WakeOne(ts, w)[t] != Parked(false)
    ensures |ts| > 1 ==> exists t :: 0 <= t < |ts| - 1 && Woken(ts)[t] != Parked(false)
  {
    hide WakeOne;
    if |ts| > 1 {
      WakeOneSpec(ts, w);
      assert Woken(ts)[0] != Parked(false);
    } else {
      OnlyMaster(ts, w);
    }
  }

  lemma LeaveNotify(s: State)
    requires PhasesOk(s) && CountsOk(s) && VerdictOk(s) && s.threads[Master(s)].Notifying?
    ensures var r := SetThread(s, Master(s), Outside);
      PhasesOk(r) && CountsOk(r) && VerdictOk(r)
  {
    hide Sum, AllOk;
    SetCounts(s, Master(s), Outside);
    var r := SetThread(s, Master(s), Outside);
    forall x | 0 <= x < |s.threads| ensures Clean(r.threads[x]) <==> Clean(s.threads[x]) {
    }
  }

  lemma OnlyMaster(ts: seq<Phase>, w: nat)
    requires |ts| == 1
    ensures WakeOne(ts, w) == ts
  {
  }

  lemma BeginWaitKeepsInv(s: State)
    requires Inv(s) && Enabled(s, BeginWait)
    ensures Inv(Next(s, BeginWait))
  {
    hide Sum, AllOk;
    var m := Master(s);
    SetCounts(s, m, Starting);
    var r := Next(s, BeginWait);
    forall x | 0 <= x < |s.threads| ensures Clean(r.threads[x]) <==> Clean(s.threads[x]) {
    }
    if s.queue != [] && m > 0 {
      var t :| 0 <= t < m && s.threads[t] != Parked(false);
      assert r.threads[t] != Parked(false);
    }
  }

  lemma WakeKeepsInv(s: State, t: nat)
    requires Inv(s) && Enabled(s, SpuriousWake(t))
    ensures Inv(Next(s, SpuriousWake(t)))
  {
    hide Sum, AllOk;
    SetCounts(s, t, Parked(true));
    var r := Next(s, SpuriousWake(t));
    forall x | 0 <= x < |s.threads| ensures Clean(r.threads[x]) <==> Clean(s.threads[x]) {
    }
    if s.queue != [] && Master(s) > 0 && !s.threads[Master(s)].Notifying? {
      var x :| 0 <= x < Master(s) && s.threads[x] != Parked(false);
      assert r.threads[x] != Parked(false);
    }
  }

  lemma ExecKeepsInv(s: State, t: nat)
    requires Inv(s) && Enabled(s, Exec(t))
    ensures Inv(Next(s, Exec(t))) && Measure(Next(s, Exec(t))) < Measure(s)
  {
    hide Sum;
    var p := s.threads[t];
    var r := Next(s, Exec(t));
    var q := r.threads[t];
    SetCounts(s, t, q);
    ExecClean(p, q);
    hide AllOk;
    forall x | 0 <= x < |s.threads| ensures Clean(r.threads[x]) <==> Clean(s.threads[x]) {
    }
    if s.queue != [] && Master(s) > 0 && !s.threads[Master(s)].Notifying? {
      var x :| 0 <= x < Master(s) && s.threads[x] != Parked(false);
      assert r.threads[x] != Parked(false);
    }
  }

  /** Evaluating one check, or skipping it after a failure, keeps the promise. */
  lemma ExecClean(p: Phase, q: Phase)
    requires p.Working? && p.next < |p.batch|
    requires q == p.(next := p.next + 1, fOk := if p.fOk then p.batch[p.next].ok else false)
    ensures Clean(q) <==> Clean(p)
  {
    assert p.batch[p.next..] == [p.batch[p.next]] + p.batch[p.next + 1..];
    AllOkConcat([p.batch[p.next]], p.batch[p.next + 1..]);
    assert AllOk([p.batch[p.next]]) <==> p.batch[p.next].ok;
  }

  lemma StepKeepsInv(s: State, step: Step)
    requires Inv(s) && Enabled(s, step)
    ensures Inv(Next(s, step))
  {
    hide Inv;
    match step
    case Add(checks) => AddKeepsInv(s, checks);
    case Notify(w) => NotifyKeepsInv(s, w);
    case BeginWait => BeginWaitKeepsInv(s);
    case Section(t) => SectionKeepsInv(s, t);
    case Exec(t) => ExecKeepsInv(s, t);
    case SpuriousWake(t) => WakeKeepsInv(s, t);
  }

  lemma {:induction false} RunKeepsInv(s: State, steps: seq<Step>)
    requires Inv(s) && IsRun(s, steps)
    ensures Inv(After(s, steps))
    decreases steps
  {
    hide Inv, Next, Enabled;
    if steps != [] {
      StepKeepsInv(s, steps[0]);
      RunKeepsInv(Next(s, steps[0]), steps[1..]);
    }
  }

  lemma InitInv(workers: nat, nBatchSize: nat)
    ensures Inv(Init(workers, nBatchSize))
  {
    var s := Init(workers, nBatchSize);
    SumAllZero(Held, s.threads);
    SumAllZero(Idle, s.threads);
    SumAllZero(Counted, s.threads);
  }

  lemma {:induction false} SumAllZero(w: Phase -> int, ts: seq<Phase>)
    requires forall i | 0 <= i < |ts| :: w(ts[i]) == 0
    ensures Sum(w, ts) == 0
  {
    if ts != [] {
      SumAllZero(w, ts[1..]);
    }
  }

  ghost predicate Reachable(s: State) {
    exists workers: nat, nBatchSize: nat, steps: seq<Step> ::
      IsRun(Init(workers, nBatchSize), steps) && s == After(Init(workers, nBatchSize), steps)
  }

  lemma ReachableInv(s: State)
    requires Reachable(s)
    ensures Inv(s)
  {
    hide Inv;
    var workers: nat, nBatchSize: nat, steps: seq<Step> :|
      IsRun(Init(workers, nBatchSize), steps) && s == After(Init(workers, nBatchSize), steps);
    InitInv(workers, nBatchSize);
    RunKeepsInv(Init(workers, nBatchSize), steps);
  }

  // ---- Main results ----

  /** `nTodo` counts exactly the checks queued or held in batches. */
  lemma TodoIsExact(s: State)
    requires Reachable(s)
    ensures s.nTodo == |s.queue| + Sum(Held, s.threads)
    ensures s.nIdle == Sum(Idle, s.threads) && s.nTotal == Sum(Counted, s.threads)
  {
    hide Reachable, Sum;
    ReachableInv(s);
  }

  /** The value Wait returns from a critical section of the master. */
  function Result(s: State): bool
    requires |s.threads| > 0
  {
    CleanUp(s, Master(s)).fAllOk
  }

  /** Wait returns true exactly when every check added since the previous Wait
      evaluates to true, although checks after a failure are skipped. */
  lemma WaitIsTheConjunction(s: State)
    requires Reachable(s) && |s.threads| > 0
    requires Enabled(s, Section(Master(s))) && Next(s, Section(Master(s))).threads[Master(s)].Outside?
    ensures Result(s) <==> AllOk(s.added)
    ensures Next(s, Section(Master(s))).added == [] && Next(s, Section(Master(s))).fAllOk
  {
    hide Reachable, Sum, AllOk, CleanUp;
    ReachableInv(s);
    var m := Master(s);
    var r := CleanUp(s, m);
    CleanUpCounts(s, m);
    CleanUpVerdict(s, m);
    NobodyWorks(r);
    assert AllOk([]) by { EmptyAllOk(); }
  }

  lemma EmptyAllOk()
    ensures AllOk([])
  {
  }

  /** A master asleep without a signal waits for a worker that holds work. */
  lemma SleepingMasterIsAwaited(s: State) returns (t: nat)
    requires Reachable(s) && |s.threads| > 0 && s.threads[Master(s)] == Parked(false)
    ensures s.queue == [] && s.nTodo > 0
    ensures t < Master(s) && s.threads[t].Working? && |s.threads[t].batch| > 0
  {
    hide Reachable, Sum;
    ReachableInv(s);
    t := SumPositive(Held, s.threads);
    assert t != Master(s);
  }

  /** The master is somewhere inside Wait. */
  predicate Waiting(s: State) {
    |s.threads| > 0 && (s.threads[Master(s)].Starting? || s.threads[Master(s)].Parked? || s.threads[Master(s)].Working?)
  }

  predicate IsWork(step: Step) {
    step.Section? || step.Exec?
  }

  /** While the master waits, some thread can take a step of real work. */
  lemma NeverStuck(s: State) returns (step: Step)
    requires Reachable(s) && Waiting(s)
    ensures IsWork(step) && Enabled(s, step)
  {
    hide Reachable, Sum;
    ReachableInv(s);
    var t := Master(s);
    if s.threads[t] == Parked(false) {
      t := SleepingMasterIsAwaited(s);
    }
    assert PhaseOk(s.threads[t]);
    step := if s.threads[t].Working? && s.threads[t].next < |s.threads[t].batch| then Exec(t) else Section(t);
  }

  /** While checks are queued, some worker is not asleep, except in the moment
      between the master's unlock in Add and its notification. */
  lemma QueuedWorkIsAttended(s: State) returns (t: nat)
    requires Reachable(s) && s.queue != [] && |s.threads| > 1 && !s.threads[Master(s)].Notifying?
    ensures t < Master(s) && s.threads[t] != Parked(false)
  {
    hide Reachable, Sum;
    ReachableInv(s);
    t :| 0 <= t < Master(s) && s.threads[t] != Parked(false);
  }

  /** The master makes no call: only work and spurious wakes. */
  ghost predicate NoCalls(steps: seq<Step>) {
    forall i | 0 <= i < |steps| :: IsWork(steps[i]) || steps[i].SpuriousWake?
  }

  function WorkCount(steps: seq<Step>): (n: nat)
    ensures n <= |steps|
  {
    if steps == [] then 0 else (if IsWork(steps[0]) then 1 else 0) + WorkCount(steps[1..])
  }

  /** Work cannot go on for ever: the critical sections and evaluations of a run
      without calls are at most as many as the measure of the state it starts
      from and the spurious wakes on the way. */
  lemma {:induction false} WorkIsBounded(s: State, steps: seq<Step>)
    requires Inv(s) && IsRun(s, steps) && NoCalls(steps)
    ensures WorkCount(steps) <= Measure(s) + (|steps| - WorkCount(steps))
    decreases steps
  {
    hide Inv, Next, Enabled, Measure;
    if steps == [] {
      MeasureNonNegative(s);
    } else {
      if IsWork(steps[0]) {
        WorkDecreases(s, steps[0]);
      } else {
        WakeCostsOne(s, steps[0].thread);
      }
      WorkIsBounded(Next(s, steps[0]), steps[1..]);
    }
  }

  lemma WakeCostsOne(s: State, t: nat)
    requires Inv(s) && Enabled(s, SpuriousWake(t))
    ensures Inv(Next(s, SpuriousWake(t))) && Measure(Next(s, SpuriousWake(t))) == Measure(s) + 1
  {
    WakeKeepsInv(s, t);
    hide Inv, Sum;
    SetCounts(s, t, Parked(true));
  }

  /** Every Wait returns: a run without calls from inside Wait can go on working
      until the master is back outside. */
  lemma WaitReturns(s: State, steps: seq<Step>)
    requires Reachable(s) && Waiting(s) && IsRun(s, steps) && NoCalls(steps)
    requires forall step | IsWork(step) :: !Enabled(After(s, steps), step)
    ensures var r := After(s, steps);
      |r.threads| == |s.threads| && r.threads[Master(r)].Outside?
  {
    hide Reachable, Next, Enabled, IsRun, After, NoCalls;
    StaysInWait(s, steps);
    var r := After(s, steps);
    ReachableExtends(s, steps);
    if Waiting(r) {
      var step := NeverStuck(r);
    }
  }

  /** Without calls the master stays in Wait or has just returned from it. */
  lemma {:induction false} StaysInWait(s: State, steps: seq<Step>)
    requires |s.threads| > 0 && (Waiting(s) || s.threads[Master(s)].Outside?) && IsRun(s, steps) && NoCalls(steps)
    ensures var r := After(s, steps);
      |r.threads| == |s.threads| && (Waiting(r) || r.threads[Master(r)].Outside?)
    decreases steps
  {
    hide Next, Enabled;
    if steps != [] {
      StepInWait(s, steps[0]);
      StaysInWait(Next(s, steps[0]), steps[1..]);
    }
  }

  lemma StepInWait(s: State, step: Step)
    requires |s.threads| > 0 && (Waiting(s) || s.threads[Master(s)].Outside?)
    requires Enabled(s, step) && (IsWork(step) || step.SpuriousWake?)
    ensures var r := Next(s, step);
      |r.threads| == |s.threads| && (Waiting(r) || r.threads[Master(r)].Outside?)
  {
    hide CleanUp, Decide;
    if step.Section? {
      SectionThreads(s, step.thread);
    }
  }

  /** A critical section of one thread may signal the master, no more. */
  lemma SectionThreads(s: State, t: nat)
    requires t < |s.threads|
    ensures var r := Decide(CleanUp(s, t), t);
      && |r.threads| == |s.threads|
      && (t == Master(s) ==> r.threads[t].Outside? || r.threads[t].Parked? || r.threads[t].Working?)
      && (t != Master(s) && r.threads[Master(s)] != s.threads[Master(s)] ==>
            s.threads[Master(s)].Parked? && r.threads[Master(s)].Parked?)
  {
    hide BatchSize;
  }

  lemma ReachableExtends(s: State, steps: seq<Step>)
    requires Reachable(s) && IsRun(s, steps)
    ensures Reachable(After(s, steps))
  {
    hide Next, Enabled, Init;
    var workers: nat, nBatchSize: nat, before: seq<Step> :|
      IsRun(Init(workers, nBatchSize), before) && s == After(Init(workers, nBatchSize), before);
    RunConcat(Init(workers, nBatchSize), before, steps);
  }

  lemma {:induction false} RunConcat(s: State, a: seq<Step>, b: seq<Step>)
    requires IsRun(s, a) && IsRun(After(s, a), b)
    ensures IsRun(s, a + b) && After(s, a + b) == After(After(s, a), b)
    decreases a
  {
    hide Next, Enabled;
    if a == [] {
      assert a + b == b;
    } else {
      assert (a + b)[0] == a[0] && (a + b)[1..] == a[1..] + b;
      RunConcat(Next(s, a[0]), a[1..], b);
    }
  }

  lemma WorkDecreases(s: State, step: Step)
    requires Inv(s) && Enabled(s, step) && IsWork(step)
    ensures Inv(Next(s, step)) && Measure(Next(s, step)) < Measure(s)
  {
    hide Inv, Measure;
    match step
    case Section(t) => SectionKeepsInv(s, t);
    case Exec(t) => ExecKeepsInv(s, t);
  }

  lemma MeasureNonNegative(s: State)
    ensures Measure(s) >= 0
  {
    SumNonNegative(Potential, s.threads);
  }

  // ---- The loops of the source ----

  /** Popping a batch off the back of the queue. */
  method TakeBatch(queue: seq<Check>, n: nat) returns (batch: seq<Check>, rest: seq<Check>)
    requires n <= |queue|
    ensures batch == TakenFrom(queue, n) && rest == queue[..|queue| - n]
  {
    batch, rest := [], queue;
    for i := 0 to n
      invariant batch == TakenFrom(queue, i) && rest == queue[..|queue| - i]
    {
      batch := batch + [rest[|rest| - 1]];
      rest := rest[..|rest| - 1];
    }
  }

  /** Running a batch: evaluation stops at the first failure, yet the outcome is
      that of evaluating everything. */
  method Execute(batch: seq<Check>, fAllOk: bool) returns (fOk: bool)
    ensures fOk <==> fAllOk && AllOk(batch)
  {
    fOk := fAllOk;
    for i := 0 to |batch|
      invariant fOk <==> fAllOk && AllOk(batch[..i])
    {
      assert batch[..i + 1] == batch[..i] + [batch[i]];
      AllOkConcat(batch[..i], [batch[i]]);
      assert AllOk([batch[i]]) <==> batch[i].ok;
      if fOk {
        fOk := batch[i].ok;
      }
    }
    assert batch[..|batch|] == batch;
  }
}
