/**
 How many attempts a row can cost. The lease statement does not re-check the attempt count, so
 overlapping runs that selected the same row can overshoot its maximum; the overshoot is bounded by
 the number of runs in flight, and the bound is reached.
 */
module QueueBounds {
  import opened Common
  import opened EvaluationQueue

  /** The run still has an unused snapshot that lets it lease the row. */
  predicate Claims(worker: Worker, id: nat) {
    && worker.Running?
    && exists i :: 0 <= i < |worker.items| && worker.items[i].id == id && HasAttemptsLeft(worker.items[i])
  }

  function Claimant(id: nat): Worker -> bool { (w: Worker) => Claims(w, id) }

  ghost predicate DistinctItems(worker: Worker) {
    worker.Running? ==>
      forall i, j :: 0 <= i < j < |worker.items| ==> worker.items[i].id != worker.items[j].id
  }

  /** `max_attempts` as the schema's default makes it: null or at least 1. */
  predicate ProperMax(r: Row) {
    r.maxAttempts == None || r.maxAttempts.value >= 1
  }

  predicate WithinMax(r: Row, runs: nat) {
    r.attempts <= WorkerMax(r.maxAttempts) + runs - 1
  }

  /** The row is takeable now or becomes so as time passes. */
  predicate Reclaimable(r: Row) {
    r.status == Pending || r.status == RetryWait || (r.status == Evaluating && r.expires.Some?)
  }

  /** Nobody holds the row, and no run will lease it: it has no attempts left, or it cannot be taken. */
  predicate Dormant(r: Row) {
    r.lease == None && (r.attempts >= WorkerMax(r.maxAttempts) || !Reclaimable(r))
  }

  /** Attempts made plus attempts still claimed by snapshots stay within the bound; a row whose maximum is not
      proper is dormant. */
  ghost predicate BoundInv(s: System) {
    && (forall w :: 0 <= w < |s.workers| ==> DistinctItems(s.workers[w]))
    && forall id :: id in s.db.queue ==> RowInv(s, id)
  }

  ghost predicate RowInv(s: System, id: nat)
    requires id in s.db.queue
  {
    && (ProperMax(s.db.queue[id]) ==> Excess(s.db.queue[id]) + Count(s.workers, Claimant(id)) <= |s.workers| - 1)
    && (!ProperMax(s.db.queue[id]) ==>
          Dormant(s.db.queue[id]) && WithinMax(s.db.queue[id], |s.workers|) && Count(s.workers, Claimant(id)) == 0)
  }

  function Claim(worker: Worker, id: nat): int { if Claims(worker, id) then 1 else 0 }

  /** Attempts above the maximum. */
  function Excess(r: Row): int { r.attempts - WorkerMax(r.maxAttempts) }

  /** What one statement may do to a row while the bound is kept. */
  ghost predicate KeepsBound(r: Row, q: Row, before: Worker, after: Worker, id: nat) {
    if ProperMax(r) then
      ProperMax(q) && (Excess(q) + Claim(after, id) <= Excess(r) + Claim(before, id) || Excess(q) < 0)
    else Dormant(r) ==> Dormant(q) && q.attempts == r.attempts && q.maxAttempts == r.maxAttempts && !Claims(after, id)
  }

  lemma PutBound(s: System, e: Db, w: nat, worker: Worker)
    requires BoundInv(s) && w < |s.workers| && DistinctItems(worker)
    requires e.queue.Keys == s.db.queue.Keys
    requires forall id :: id in e.queue ==> KeepsBound(s.db.queue[id], e.queue[id], s.workers[w], worker, id)
    ensures BoundInv(Put(s, e, w, worker))
  {
    var t := Put(s, e, w, worker);
    forall id | id in e.queue ensures RowInv(t, id) {
      assert RowInv(s, id) && KeepsBound(s.db.queue[id], e.queue[id], s.workers[w], worker, id);
      CountUpdate(s.workers, w, worker, Claimant(id));
      CountBound(t.workers, Claimant(id));
    }
  }

  /** A run that claims a dormant row without a proper maximum would be counted: there is none. */
  lemma NobodyClaimsDormant(s: System, w: nat, id: nat)
    requires BoundInv(s) && w < |s.workers| && id in s.db.queue && !ProperMax(s.db.queue[id])
    ensures !Claims(s.workers[w], id) && Dormant(s.db.queue[id])
  {
    assert RowInv(s, id);
    if Claims(s.workers[w], id) { CountUpdate(s.workers, w, Idle, Claimant(id)); }
  }

  lemma TakeClaims(worker: Worker, rest: Worker, id: nat)
    requires worker.Running? && |worker.items| > 0 && DistinctItems(worker)
    requires rest.Running? && rest.items == worker.items[1..]
    ensures Claims(worker, id) <==>
      (Claims(rest, id) || (worker.items[0].id == id && HasAttemptsLeft(worker.items[0])))
    ensures worker.items[0].id == id ==> !Claims(rest, id)
  {
    if Claims(rest, id) {
      var i :| 0 <= i < |rest.items| && rest.items[i].id == id && HasAttemptsLeft(rest.items[i]);
      assert worker.items[i + 1] == rest.items[i];
    }
    if Claims(worker, id) && !(worker.items[0].id == id && HasAttemptsLeft(worker.items[0])) {
      var i :| 0 <= i < |worker.items| && worker.items[i].id == id && HasAttemptsLeft(worker.items[i]);
      assert rest.items[i - 1] == worker.items[i];
    }
  }

  lemma StartBound(s: System, w: nat, stale: set<nat>, archived: set<nat>, ids: seq<nat>)
    requires BoundInv(s) && Enabled(s, Start(w, stale, archived, ids))
    ensures BoundInv(Step(s, Start(w, stale, archived, ids)))
  {
    var t := Step(s, Start(w, stale, archived, ids));
    forall id | id in t.db.queue && Claims(t.workers[w], id) ensures Excess(t.db.queue[id]) < 0 {
    }
    PutBound(s, t.db, w, t.workers[w]);
  }

  lemma TakeBound(s: System, w: nat)
    requires BoundInv(s) && Enabled(s, Take(w))
    ensures BoundInv(Step(s, Take(w)))
  {
    var t := Step(s, Take(w));
    forall id
      ensures Claims(s.workers[w], id) <==>
        (Claims(t.workers[w], id) || (s.workers[w].items[0].id == id && HasAttemptsLeft(s.workers[w].items[0])))
      ensures s.workers[w].items[0].id == id ==> !Claims(t.workers[w], id)
    {
      TakeClaims(s.workers[w], t.workers[w], id);
    }
    forall id | id in s.db.queue && !ProperMax(s.db.queue[id])
      ensures !Claims(s.workers[w], id) && Dormant(s.db.queue[id])
    {
      NobodyClaimsDormant(s, w, id);
    }
    PutBound(s, t.db, w, t.workers[w]);
  }

  lemma SettleBound(s: System, w: nat, retryAt: int)
    requires BoundInv(s) && Enabled(s, Settle(w, retryAt))
    ensures BoundInv(Step(s, Settle(w, retryAt)))
  {
    SameClaims(s, Step(s, Settle(w, retryAt)), w);
  }

  lemma FinishBound(s: System, w: nat, outcome: Outcome)
    requires BoundInv(s) && Enabled(s, Finish(w, outcome))
    ensures BoundInv(Step(s, Finish(w, outcome)))
  {
    SameClaims(s, Step(s, Finish(w, outcome)), w);
  }

  lemma RecordBound(s: System, w: nat)
    requires BoundInv(s) && Enabled(s, Record(w))
    ensures BoundInv(Step(s, Record(w)))
  {
    SameClaims(s, Step(s, Record(w)), w);
  }

  lemma QuietBound(s: System, e: Event)
    requires BoundInv(s) && (e.Tick? || e.Beat? || e.Stop?)
    ensures BoundInv(Step(s, e))
  {
    if e.Stop? && Enabled(s, e) { PutBound(s, s.db, e.w, Idle); }
  }

  lemma StepBound(s: System, e: Event)
    requires BoundInv(s)
    ensures BoundInv(Step(s, e))
  {
    hide BoundInv;
    if Enabled(s, e) {
      match e
      case Start(w, stale, archived, ids) => StartBound(s, w, stale, archived, ids);
      case Take(w) => TakeBound(s, w);
      case Finish(w, outcome) => FinishBound(s, w, outcome);
      case Record(w) => RecordBound(s, w);
      case Settle(w, retryAt) => SettleBound(s, w, retryAt);
      case _ => QuietBound(s, e);
    }
  }

  /** A step that leaves a run's remaining snapshots alone and lowers no maximum. */
  lemma SameClaims(s: System, t: System, w: nat)
    requires BoundInv(s) && w < |s.workers| && s.workers[w].Running?
    requires |t.workers| == |s.workers| && t.workers == s.workers[w := t.workers[w]]
    requires t.workers[w].Running? && t.workers[w].items == s.workers[w].items
    requires t.db.queue.Keys == s.db.queue.Keys
    requires forall id :: id in t.db.queue ==>
      if ProperMax(s.db.queue[id]) then ProperMax(t.db.queue[id]) && Excess(t.db.queue[id]) <= Excess(s.db.queue[id])
      else Dormant(s.db.queue[id]) ==> t.db.queue[id] == s.db.queue[id]
    ensures BoundInv(t)
  {
    forall id | id in s.db.queue && !ProperMax(s.db.queue[id])
      ensures !Claims(s.workers[w], id) && Dormant(s.db.queue[id])
    {
      NobodyClaimsDormant(s, w, id);
    }
    forall id ensures Claims(t.workers[w], id) == Claims(s.workers[w], id) {
    }
    PutBound(s, t.db, w, t.workers[w]);
    assert t == Put(s, t.db, w, t.workers[w]);
  }

  /** A row that no schedule of `runs` overlapping runs can take past the bound. */
  predicate Safe(r: Row, runs: nat) {
    WithinMax(r, runs) && (ProperMax(r) || r.attempts >= WorkerMax(r.maxAttempts) || !Reclaimable(r))
  }

  ghost predicate InitiallyWithin(s0: System) {
    && Initial(s0) && |s0.workers| >= 1
    && forall id :: id in s0.db.queue ==> Safe(s0.db.queue[id], |s0.workers|)
  }

  /**
   Main bound: with at most W runs in flight no schedule takes a row past `max_attempts + W - 1`
   attempts, so one run at a time never passes the maximum.
   */
  lemma AttemptBound(s0: System, es: seq<Event>)
    requires InitiallyWithin(s0)
    ensures forall id :: id in Run(s0, es).db.queue ==> WithinMax(Run(s0, es).db.queue[id], |s0.workers|)
  {
    RunBound(s0, es);
    RunWorkers(s0, es);
    forall id | id in Run(s0, es).db.queue ensures WithinMax(Run(s0, es).db.queue[id], |s0.workers|) {
      assert RowInv(Run(s0, es), id);
    }
  }

  lemma {:induction false} RunBound(s0: System, es: seq<Event>)
    requires InitiallyWithin(s0)
    ensures BoundInv(Run(s0, es))
  {
    if |es| == 0 {
      forall id ensures Count(s0.workers, Claimant(id)) == 0 { CountNone(s0.workers, Claimant(id)); }
    } else {
      RunBound(s0, es[..|es| - 1]);
      StepBound(Run(s0, es[..|es| - 1]), es[|es| - 1]);
    }
  }

  lemma {:induction false} RunWorkers(s0: System, es: seq<Event>)
    ensures |Run(s0, es).workers| == |s0.workers|
  {
    if |es| != 0 { RunWorkers(s0, es[..|es| - 1]); }
  }

  // ------------------------------------------------------------------ the bound is reached

  lemma {:induction false} RunConcat(s: System, a: seq<Event>, b: seq<Event>)
    ensures Run(s, a + b) == Run(Run(s, a), b)
  {
    if |b| == 0 {
      assert a + b == a;
    } else {
      assert (a + b)[..|a + b| - 1] == a + b[..|b| - 1];
      RunConcat(s, a, b[..|b| - 1]);
    }
  }

  lemma RunNone(s: System)
    ensures Run(s, []) == s
  {
  }

  lemma RunOne(s: System, e: Event)
    ensures Run(s, [e]) == Step(s, e)
  {
    assert [e][..0] == [];
  }

  /** A row ready to be selected, and every run slot idle. */
  ghost predicate Lone(s: System, id: nat) {
    && id in s.db.queue && s.db.queue[id].lease == None && Selectable(s.db.queue[id], s.db.clock)
    && forall w :: 0 <= w < |s.workers| ==> s.workers[w] == Idle
  }

  /** `k` runs have selected the row and none has used its snapshot; `used` of them have finished it. */
  ghost predicate Overlapping(s: System, t: System, id: nat, k: nat, used: nat) {
    && |t.workers| == |s.workers| && used <= k <= |s.workers| && t.db.clock == s.db.clock
    && t.db.queue.Keys == s.db.queue.Keys && id in t.db.queue
    && t.db.queue[id].lease == None
    && (used == 0 ==> t.db.queue == s.db.queue)
    && (t.db.queue[id].status == RetryWait || used == 0)
    && t.db.queue[id].attempts == s.db.queue[id].attempts + used
    && t.db.queue[id].maxAttempts == s.db.queue[id].maxAttempts
    && (forall w :: used <= w < k ==> t.workers[w] == Running([SnapshotOf(s.db, id)], Nothing))
    && (forall w :: k <= w < |s.workers| ==> t.workers[w] == Idle)
  }

  lemma StartEffect(t: System, w: nat, id: nat)
    requires w < |t.workers| && t.workers[w] == Idle
    requires id in t.db.queue && Selectable(t.db.queue[id], t.db.clock)
    ensures Step(t, Start(w, {}, {}, [id])) == Put(t, t.db, w, Running([SnapshotOf(t.db, id)], Nothing))
  {
    assert Supersede(t.db, {}, {}) == t.db;
    assert Snapshots(t.db, [id]) == [SnapshotOf(t.db, id)];
  }

  lemma OneMoreStarts(s: System, t: System, id: nat, k: nat)
    requires Lone(s, id) && k < |s.workers| && Overlapping(s, t, id, k, 0)
    ensures Overlapping(s, Step(t, Start(k, {}, {}, [id])), id, k + 1, 0)
  {
    StartEffect(t, k, id);
  }

  lemma {:induction false} AllStart(s: System, id: nat, k: nat) returns (es: seq<Event>)
    requires Lone(s, id) && k <= |s.workers|
    ensures Overlapping(s, Run(s, es), id, k, 0)
  {
    if k == 0 {
      es := [];
    } else {
      var before := AllStart(s, id, k - 1);
      es := before + [Start(k - 1, {}, {}, [id])];
      assert es[..|es| - 1] == before;
      OneMoreStarts(s, Run(s, before), id, k - 1);
    }
  }

  /** One run uses its snapshot: it leases the row, fails, and gives it back. */
  function Spend(w: nat, limited: bool): seq<Event> {
    [Take(w), Finish(w, Failure(limited)), Record(w), Settle(w, 0)]
  }

  lemma RunFour(s: System, a: Event, b: Event, c: Event, d: Event)
    ensures Run(s, [a, b, c, d]) == Step(Step(Step(Step(s, a), b), c), d)
  {
    RunOne(s, a);
    RunOne(Step(s, a), b);
    RunOne(Step(Step(s, a), b), c);
    RunOne(Step(Step(Step(s, a), b), c), d);
    RunConcat(s, [a, b, c], [d]);
    RunConcat(s, [a, b], [c]);
    RunConcat(s, [a], [b]);
    assert [a, b, c, d] == [a, b, c] + [d] && [a, b, c] == [a, b] + [c] && [a, b] == [a] + [b];
  }

  lemma TakeEffect(t: System, w: nat, item: Snapshot)
    requires w < |t.workers| && t.workers[w] == Running([item], Nothing)
    requires HasAttemptsLeft(item) && CanLease(t.db, item.id)
    ensures var r, u := t.db.queue[item.id], Step(t, Take(w));
      && u.workers == t.workers[w := Running([], Held(item.id, |t.db.leases|, r.attempts + 1, Working))]
      && u.db == GrantLease(t.db, item.id)
  {
    assert [item][1..] == [];
  }

  lemma FailEffect(t: System, w: nat, id: nat, lease: nat, number: int, limited: bool)
    requires w < |t.workers| && t.workers[w] == Running([], Held(id, lease, number, Working))
    requires lease < |t.db.leases| && Holds(t.db, id, lease)
    ensures var u := Step(Step(Step(t, Finish(w, Failure(limited))), Record(w)), Settle(w, 0));
      && u.workers == t.workers[w := Running([], Nothing)]
      && u.db == (var d := RecordAttempt(t.db, id, lease, number);
                  if limited then Defer(d, id, lease, 0) else ScheduleRetry(d, id, lease, number))
  {
    var t2 := Step(t, Finish(w, Failure(limited)));
    var t3 := Step(t2, Record(w));
    assert t3.workers[w] == Running([], Held(id, lease, number, Failing(limited, true)));
    assert t2.workers == t.workers[w := t2.workers[w]];
    assert t3.workers == t.workers[w := t3.workers[w]];
  }

  /** The four steps of `Spend` cost the row one attempt and leave it waiting for a retry. */
  lemma SpendEffect(t: System, w: nat, item: Snapshot, limited: bool)
    requires w < |t.workers| && t.workers[w] == Running([item], Nothing)
    requires HasAttemptsLeft(item) && CanLease(t.db, item.id)
    ensures var u := Run(t, Spend(w, limited));
      && u.workers == t.workers[w := Running([], Nothing)]
      && u.db.clock == t.db.clock
      && u.db.queue.Keys == t.db.queue.Keys
      && SpentRow(t.db.queue[item.id], u.db.queue[item.id], limited)
  {
    hide Run, Step;
    RunFour(t, Take(w), Finish(w, Failure(limited)), Record(w), Settle(w, 0));
    TakeEffect(t, w, item);
    FailEffect(Step(t, Take(w)), w, item.id, |t.db.leases|, t.db.queue[item.id].attempts + 1, limited);
  }

  ghost predicate SpentRow(r: Row, q: Row, limited: bool) {
    && q.lease == None && q.status == RetryWait && q.attempts == r.attempts + 1 && q.availableAt.Some?
    && q.maxAttempts == if limited then Some(SqlMax(r.maxAttempts) + 1) else r.maxAttempts
  }

  lemma OneSpends(s: System, t: System, id: nat, used: nat, limited: bool)
    requires Lone(s, id) && used < |s.workers| && Overlapping(s, t, id, |s.workers|, used)
    requires s.db.queue[id].attempts < WorkerMax(s.db.queue[id].maxAttempts)
    ensures var u := Run(t, Spend(used, limited));
      && (!limited ==> Overlapping(s, u, id, |s.workers|, used + 1))
      && u.db.queue.Keys == s.db.queue.Keys
      && SpentRow(t.db.queue[id], u.db.queue[id], limited)
  {
    SpendEffect(t, used, SnapshotOf(s.db, id), limited);
  }

  lemma {:induction false} ManySpend(s: System, t: System, id: nat, used: nat) returns (es: seq<Event>)
    requires Lone(s, id) && used <= |s.workers| && Overlapping(s, t, id, |s.workers|, 0)
    requires s.db.queue[id].attempts < WorkerMax(s.db.queue[id].maxAttempts)
    ensures Overlapping(s, Run(t, es), id, |s.workers|, used)
  {
    if used == 0 {
      es := [];
    } else {
      var before := ManySpend(s, t, id, used - 1);
      es := before + Spend(used - 1, false);
      RunConcat(t, before, Spend(used - 1, false));
      OneSpends(s, Run(t, before), id, used - 1, false);
    }
  }

  /** W runs that all select the row before any of them leases it cost it W further attempts. */
  lemma Overshoot(s: System, id: nat, limited: bool) returns (es: seq<Event>)
    requires Lone(s, id) && |s.workers| >= 1
    requires s.db.queue[id].attempts < WorkerMax(s.db.queue[id].maxAttempts)
    ensures var u := Run(s, es);
      && u.db.queue.Keys == s.db.queue.Keys
      && u.db.queue[id].attempts == s.db.queue[id].attempts + |s.workers|
      && u.db.queue[id].maxAttempts ==
         if limited then Some(SqlMax(s.db.queue[id].maxAttempts) + 1) else s.db.queue[id].maxAttempts
  {
    hide Run, Step;
    var n := |s.workers| - 1;
    var starts := AllStart(s, id, n + 1);
    var spends := ManySpend(s, Run(s, starts), id, n);
    OneSpends(s, Run(Run(s, starts), spends), id, n, limited);
    es := starts + spends + Spend(n, limited);
    RunConcat(s, starts + spends, Spend(n, limited));
    RunConcat(s, starts, spends);
  }

  /** The bound is exact: from one attempt below the maximum, W overlapping runs reach it. */
  lemma BoundIsReached(s: System, id: nat) returns (es: seq<Event>)
    requires Lone(s, id) && |s.workers| >= 1
    requires s.db.queue[id].attempts == WorkerMax(s.db.queue[id].maxAttempts) - 1
    ensures id in Run(s, es).db.queue
    ensures Run(s, es).db.queue[id].attempts == WorkerMax(Run(s, es).db.queue[id].maxAttempts) + |s.workers| - 1
  {
    es := Overshoot(s, id, false);
  }

  /** One run selects the row, spends an attempt and stops, and time passes until the row is ready again. */
  lemma FailOnce(s: System, id: nat, limited: bool) returns (es: seq<Event>, t: System)
    requires Lone(s, id) && |s.workers| >= 1
    requires s.db.queue[id].attempts < WorkerMax(s.db.queue[id].maxAttempts)
    ensures t == Run(s, es) && Lone(t, id) && |t.workers| == |s.workers|
    ensures t.db.queue[id].attempts == s.db.queue[id].attempts + 1
    ensures t.db.queue[id].maxAttempts ==
      if limited then Some(SqlMax(s.db.queue[id].maxAttempts) + 1) else s.db.queue[id].maxAttempts
  {
    hide Run;
    var t1 := Step(s, Start(0, {}, {}, [id]));
    assert Overlapping(s, s, id, 0, 0);
    OneMoreStarts(s, s, id, 0);
    SpendEffect(t1, 0, SnapshotOf(s.db, id), limited);
    var c := Run(t1, Spend(0, limited));
    var wait := c.db.queue[id].availableAt.value - c.db.clock;
    var n: nat := if wait < 0 then 0 else wait;
    t := Step(Step(c, Stop(0)), Tick(n));
    es := [Start(0, {}, {}, [id])] + Spend(0, limited) + [Stop(0), Tick(n)];
    RunConcat(s, [Start(0, {}, {}, [id])] + Spend(0, limited), [Stop(0), Tick(n)]);
    RunConcat(s, [Start(0, {}, {}, [id])], Spend(0, limited));
    RunOne(s, Start(0, {}, {}, [id]));
    RunOne(c, Stop(0));
    RunOne(Step(c, Stop(0)), Tick(n));
    RunConcat(c, [Stop(0)], [Tick(n)]);
    assert [Stop(0), Tick(n)] == [Stop(0)] + [Tick(n)];
  }

  /** The bound fails for a maximum of 0, which the worker reads as 3 and a deferral turns into 1; deferrals bring a
      negative maximum to 0. */
  lemma {:induction false} ZeroMaxOvershoots(s: System, id: nat) returns (es: seq<Event>)
    requires Lone(s, id) && |s.workers| >= 1
    requires !ProperMax(s.db.queue[id]) && s.db.queue[id].attempts < WorkerMax(s.db.queue[id].maxAttempts)
    ensures id in Run(s, es).db.queue && !WithinMax(Run(s, es).db.queue[id], |s.workers|)
    decreases -s.db.queue[id].maxAttempts.value, DEFAULT_MAX_ATTEMPTS - s.db.queue[id].attempts
  {
    if s.db.queue[id].maxAttempts == Some(0) && s.db.queue[id].attempts > 0 {
      es := Overshoot(s, id, true);
    } else {
      var first, t := FailOnce(s, id, s.db.queue[id].maxAttempts != Some(0));
      var rest := ZeroMaxOvershoots(t, id);
      es := first + rest;
      RunConcat(s, first, rest);
    }
  }

  /** Time alone makes a reclaimable row selectable. */
  lemma Wake(s: System, id: nat) returns (n: nat)
    requires Initial(s) && id in s.db.queue && Reclaimable(s.db.queue[id])
    ensures var t := Step(s, Tick(n)); Lone(t, id) && t.db.queue == s.db.queue && t.workers == s.workers
  {
    var r := s.db.queue[id];
    var ready := if r.status == RetryWait && r.availableAt.Some? then r.availableAt.value
                 else if r.status == Evaluating then r.expires.value + 1 else s.db.clock;
    n := if ready < s.db.clock then 0 else ready - s.db.clock;
  }

  /** Exactly when every schedule keeps every row of a table within the bound: no row starts above it, and no row
      that can be taken has attempts left under a maximum of 0 or less. */
  lemma BoundHoldsExactly(s: System)
    requires Initial(s) && |s.workers| >= 1
    ensures (forall es, id :: id in Run(s, es).db.queue ==> WithinMax(Run(s, es).db.queue[id], |s.workers|))
       <==> forall id :: id in s.db.queue ==> Safe(s.db.queue[id], |s.workers|)
  {
    if id :| id in s.db.queue && !Safe(s.db.queue[id], |s.workers|) {
      var es := UnsafeRowOvershoots(s, id);
    } else {
      forall es, id | id in Run(s, es).db.queue ensures WithinMax(Run(s, es).db.queue[id], |s.workers|) {
        AttemptBound(s, es);
      }
    }
  }

  lemma UnsafeRowOvershoots(s: System, id: nat) returns (es: seq<Event>)
    requires Initial(s) && |s.workers| >= 1 && id in s.db.queue && !Safe(s.db.queue[id], |s.workers|)
    ensures id in Run(s, es).db.queue && !WithinMax(Run(s, es).db.queue[id], |s.workers|)
  {
    if !WithinMax(s.db.queue[id], |s.workers|) {
      es := [];
      RunNone(s);
    } else {
      var n := Wake(s, id);
      var rest := ZeroMaxOvershoots(Step(s, Tick(n)), id);
      es := [Tick(n)] + rest;
      RunConcat(s, [Tick(n)], rest);
      RunOne(s, Tick(n));
    }
  }
}
