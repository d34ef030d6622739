/**
 One evaluation run as the program executes it: a loop over selected rows that updates a shared
 database in place, while other runs, the clock and crashes act between its statements. The run
 performs exactly the steps of the state machine, so everything proved of schedules holds for it.
 */
module QueueRunner {
  import opened Common
  import opened EvaluationQueue
  import QueueBounds

  predicate HasRoom(ids: seq<nat>, limit: Option<nat>) { limit.None? || |ids| < limit.value }

  /** The candidates that can be selected, in their order, up to the limit. */
  function Picked(d: Db, candidates: seq<nat>, limit: Option<nat>): seq<nat> {
    if |candidates| == 0 then []
    else
      var n := |candidates| - 1;
      var rest := Picked(d, candidates[..n], limit);
      if HasRoom(rest, limit) && Wanted(d, candidates[n]) then rest + [candidates[n]] else rest
  }

  predicate Wanted(d: Db, id: nat) { id in d.queue && Selectable(d.queue[id], d.clock) }

  /** The picks reach the limit, all with better candidates than the ones after `better`. */
  ghost predicate FullBefore(ids: seq<nat>, better: seq<nat>, limit: Option<nat>) {
    !HasRoom(ids, limit) && forall i :: 0 <= i < |ids| ==> ids[i] in better
  }

  /** What is picked keeps the order of the candidates. */
  ghost predicate InOrder(ids: seq<nat>, candidates: seq<nat>) {
    forall i, j, k, l :: 0 <= i < j < |ids| && 0 <= k < |candidates| && 0 <= l < |candidates| ==>
      ids[i] == candidates[k] && ids[j] == candidates[l] ==> k < l
  }

  /** What is picked, in their order, are selectable candidates; one is passed over only if it is not selectable or the
      limit is reached, and then every pick stands before it. */
  lemma {:induction false} PickedFacts(d: Db, candidates: seq<nat>, limit: Option<nat>)
    requires Distinct(candidates)
    ensures var ids := Picked(d, candidates, limit);
      && Selection(d, ids) && (forall i :: 0 <= i < |ids| ==> ids[i] in candidates)
      && |ids| <= |candidates| && (limit.Some? ==> |ids| <= limit.value)
      && InOrder(ids, candidates)
      && (forall k :: 0 <= k < |candidates| && Wanted(d, candidates[k]) && candidates[k] !in ids ==>
           FullBefore(ids, candidates[..k], limit))
  {
    if |candidates| != 0 {
      hide Selectable;
      var n := |candidates| - 1;
      var rest, ids := Picked(d, candidates[..n], limit), Picked(d, candidates, limit);
      PickedFacts(d, candidates[..n], limit);
      forall k | 0 <= k < |candidates| && Wanted(d, candidates[k]) && candidates[k] !in ids
        ensures FullBefore(ids, candidates[..k], limit)
      {
        if k < n {
          assert candidates[..n][..k] == candidates[..k] && candidates[..n][k] == candidates[k];
          assert candidates[k] !in rest;
        }
      }
    }
  }

  /** The tables one run shares with the others. */
  class Store {
    var queue: map<nat, Row>
    var clock: int
    var leases: seq<Lease>
    var evaluations: seq<Evaluation>
    var attempts: seq<Attempt>

    function View(): Db
      reads this
    {
      Db(queue, clock, leases, evaluations, attempts)
    }

    constructor (d: Db)
      ensures View() == d
    {
      queue, clock, leases, evaluations, attempts := d.queue, d.clock, d.leases, d.evaluations, d.attempts;
    }

    /** What the rest of the system does between two statements of this run. */
    method Interfere(s: System, es: seq<Event>)
      requires View() == s.db
      modifies this
      ensures View() == Run(s, es).db
    {
      var d := Run(s, es).db;
      queue, clock, leases, evaluations, attempts := d.queue, d.clock, d.leases, d.evaluations, d.attempts;
    }

    /** The first transaction: stale rows are superseded, then the rows to evaluate are read. `candidates` are the rows
        whose other columns qualify, best first. */
    method SelectRows(stale: set<nat>, archived: set<nat>, candidates: seq<nat>, limit: Option<nat>)
      returns (ids: seq<nat>)
      modifies this
      ensures View() == Supersede(old(View()), stale, archived)
      ensures ids == Picked(View(), candidates, limit)
    {
      queue := Supersede(View(), stale, archived).queue;
      ids := [];
      var i := 0;
      while i < |candidates|
        invariant 0 <= i <= |candidates| && View() == Supersede(old(View()), stale, archived)
        invariant ids == Picked(View(), candidates[..i], limit)
      {
        assert candidates[..i + 1][..i] == candidates[..i];
        var id := candidates[i];
        if HasRoom(ids, limit) && id in queue && Selectable(queue[id], clock) { ids := ids + [id]; }
        i := i + 1;
      }
      assert candidates[..|candidates|] == candidates;
    }

    method FenceForReview(id: nat) returns (moved: bool)
      modifies this
      ensures View() == MoveToManualReview(old(View()), id)
      ensures moved <==> id in old(queue) && EntersReview(old(View()), id)
    {
      moved := false;
      if id in queue {
        var r := queue[id];
        if Takeable(r, clock) && r.attempts >= SqlMax(r.maxAttempts) {
          queue := queue[id := r.(status := NeedsManualReview)];
          moved := true;
        }
      }
    }

    method AcquireLease(id: nat) returns (granted: Option<(nat, int)>)
      modifies this
      ensures old(CanLease(View(), id)) ==>
        && View() == GrantLease(old(View()), id)
        && granted == Some((|old(leases)|, old(queue)[id].attempts + 1))
      ensures !old(CanLease(View(), id)) ==> View() == old(View()) && granted == None
    {
      granted := None;
      if id in queue && Takeable(queue[id], clock) {
        var r := queue[id];
        var lease := |leases|;
        queue := queue[id := r.(status := Evaluating, lease := Some(lease),
                                expires := Some(clock + LEASE_SECONDS), attempts := r.attempts + 1)];
        leases := leases + [Lease(id, r.attempts + 1, Open)];
        granted := Some((lease, r.attempts + 1));
      }
    }

    method Renew(id: nat, lease: nat)
      modifies this
      ensures View() == Heartbeat(old(View()), id, lease)
    {
      if id in queue && queue[id].lease == Some(lease) {
        queue := queue[id := queue[id].(expires := Some(clock + LEASE_SECONDS))];
      }
    }

    method Complete(id: nat, lease: nat, number: int) returns (committed: bool)
      requires lease < |leases|
      modifies this
      ensures View() == CommitCompletion(old(View()), id, lease, number)
      ensures committed == Holds(old(View()), id, lease)
    {
      var evaluationsBefore, attemptsBefore := evaluations, attempts;
      evaluations := evaluations + [Evaluation(id, lease)];
      attempts := attempts + [Attempt(id, number, lease)];
      committed := id in queue && queue[id].lease == Some(lease);
      if committed {
        queue := queue[id := Release(queue[id], Completed, None)];
        leases := leases[lease := leases[lease].(fate := Evaluated)];
      } else {
        evaluations, attempts := evaluationsBefore, attemptsBefore;  // ROLLBACK
      }
    }

    method RecordFailure(id: nat, lease: nat, number: int)
      modifies this
      ensures View() == RecordAttempt(old(View()), id, lease, number)
    {
      if id in queue && queue[id].lease == Some(lease) {
        attempts := attempts + [Attempt(id, number, lease)];
      }
    }

    method Retry(id: nat, lease: nat, number: int)
      requires lease < |leases|
      modifies this
      ensures View() == ScheduleRetry(old(View()), id, lease, number)
    {
      if id in queue && queue[id].lease == Some(lease) {
        var n := if number < 0 then 0 else number;
        queue := queue[id := Release(queue[id], RetryWait, Some(clock + Backoff(n)))];
        leases := leases[lease := leases[lease].(fate := Failed)];
      }
    }

    method DeferForCapacity(id: nat, lease: nat, retryAt: int)
      requires lease < |leases|
      modifies this
      ensures View() == Defer(old(View()), id, lease, retryAt)
    {
      if id in queue && queue[id].lease == Some(lease) {
        var r := queue[id];
        queue := queue[id := Release(r, RetryWait, Some(retryAt)).(maxAttempts := Some(SqlMax(r.maxAttempts) + 1))];
        leases := leases[lease := leases[lease].(fate := RateLimited)];
      }
    }
  }

  predicate EntersReview(d: Db, id: nat) {
    id in d.queue && Takeable(d.queue[id], d.clock) && d.queue[id].attempts >= SqlMax(d.queue[id].maxAttempts)
  }

  // ------------------------------------------------------------------ counters

  /** The counters a run reports. */
  datatype Stats = Stats(processed: nat, failed: nat, rateLimited: nat, manualReview: nat)

  function Total(st: Stats): nat { st.processed + st.failed + st.rateLimited + st.manualReview }

  /** How one event moves the counters of run slot `w`. */
  function TallyStep(s: System, e: Event, w: nat, st: Stats): Stats {
    if !Enabled(s, e) || e.Tick? || e.w != w then st else
    match e
    case Take(_) =>
      var item := s.workers[w].items[0];
      if !HasAttemptsLeft(item) && EntersReview(s.db, item.id) then st.(manualReview := st.manualReview + 1) else st
    case Finish(_, outcome) =>
      var c := s.workers[w].current;
      if outcome == Success && Holds(s.db, c.id, c.lease) then st.(processed := st.processed + 1)
      else if outcome.Failure? && outcome.rateLimited then st.(rateLimited := st.rateLimited + 1)
      else st.(failed := st.failed + 1)
    case _ => st
  }

  function Tally(s: System, es: seq<Event>, w: nat, st: Stats): Stats {
    if |es| == 0 then st
    else TallyStep(Run(s, es[..|es| - 1]), es[|es| - 1], w, Tally(s, es[..|es| - 1], w, st))
  }

  // ------------------------------------------------------------------ one run

  /** Events that are not this run's own. */
  predicate Foreign(es: seq<Event>, w: nat) {
    forall i :: 0 <= i < |es| ==> es[i].Tick? || es[i].w != w
  }

  /** What happens around one item: others' events before each statement, the evaluation's outcome, a crash. While it is
      evaluated the timer renews the lease any number of times, at any moment: `beats` lists others' events before
      each renewal, and `during` those after the last. */
  datatype Turn = Turn(
    before: seq<Event>, beats: seq<seq<Event>>, during: seq<Event>, between: seq<Event>, settling: seq<Event>,
    outcome: Outcome, retryAt: int, crash: Crash)

  datatype Crash = Survives | AtStart | WhileWorking | BeforeRecord | BeforeSettle

  predicate ForeignTurn(t: Turn, w: nat) {
    && Foreign(t.before, w) && Foreign(t.during, w) && Foreign(t.between, w) && Foreign(t.settling, w)
    && forall i :: 0 <= i < |t.beats| ==> Foreign(t.beats[i], w)
  }

  lemma {:induction false} ForeignKeepsRun(s: System, es: seq<Event>, w: nat, st: Stats)
    requires Foreign(es, w) && w < |s.workers|
    ensures |Run(s, es).workers| == |s.workers| && Run(s, es).workers[w] == s.workers[w]
    ensures |s.db.leases| <= |Run(s, es).db.leases|
    ensures Tally(s, es, w, st) == st
  {
    if |es| != 0 {
      hide Step, TallyStep;
      ForeignKeepsRun(s, es[..|es| - 1], w, st);
      ForeignStep(Run(s, es[..|es| - 1]), es[|es| - 1], w, st);
    }
  }

  lemma ForeignStep(s: System, e: Event, w: nat, st: Stats)
    requires (e.Tick? || e.w != w) && w < |s.workers|
    ensures |Step(s, e).workers| == |s.workers| && Step(s, e).workers[w] == s.workers[w]
    ensures |s.db.leases| <= |Step(s, e).db.leases| && TallyStep(s, e, w, st) == st
  {
  }

  lemma {:induction false} TallyConcat(s: System, a: seq<Event>, b: seq<Event>, w: nat, st: Stats)
    ensures Tally(s, a + b, w, st) == Tally(Run(s, a), b, w, Tally(s, a, w, st))
  {
    if |b| == 0 {
      assert a + b == a;
    } else {
      assert (a + b)[..|a + b| - 1] == a + b[..|b| - 1];
      TallyConcat(s, a, b[..|b| - 1], w, st);
      QueueBounds.RunConcat(s, a, b[..|b| - 1]);
    }
  }

  /** `t` is where the schedule `es` of the system `s` leads, and `st` what it counts for slot `w`. */
  ghost predicate Reached(s: System, es: seq<Event>, t: System, w: nat, st0: Stats, st: Stats) {
    t == Run(s, es) && st == Tally(s, es, w, st0) && w < |t.workers|
  }

  lemma ExtendOwn(s: System, es: seq<Event>, t: System, w: nat, st0: Stats, st: Stats, e: Event)
    requires Reached(s, es, t, w, st0, st) && !e.Tick? && w < |Step(t, e).workers|
    ensures Reached(s, es + [e], Step(t, e), w, st0, TallyStep(t, e, w, st))
  {
    assert (es + [e])[..|es|] == es;
  }

  lemma ExtendForeign(s: System, es: seq<Event>, t: System, w: nat, st0: Stats, st: Stats, more: seq<Event>)
    requires Reached(s, es, t, w, st0, st) && Foreign(more, w)
    ensures Reached(s, es + more, Run(t, more), w, st0, st)
    ensures Run(t, more).workers[w] == t.workers[w] && |t.db.leases| <= |Run(t, more).db.leases|
  {
    QueueBounds.RunConcat(s, es, more);
    TallyConcat(s, es, more, w, st0);
    ForeignKeepsRun(t, more, w, st);
  }

  /** The failure path: write the attempt row, then give the row back if its lease is still ours. */
  method GiveBack(store: Store, s: System, w: nat, id: nat, lease: nat, number: int, limited: bool, turn: Turn,
                  stats: Stats, ghost s0: System, ghost es0: seq<Event>, ghost st0: Stats)
    returns (t: System, alive: bool, ghost es: seq<Event>)
    requires Reached(s0, es0, s, w, st0, stats) && store.View() == s.db && ForeignTurn(turn, w)
    requires Holding(s, w) && s.workers[w].current == Held(id, lease, number, Failing(limited, false))
    modifies store
    ensures Reached(s0, es, t, w, st0, stats) && store.View() == t.db
    ensures t.workers[w] == if alive then Running(s.workers[w].items, Nothing) else Idle
  {
    hide Run, Tally;
    ExtendForeign(s0, es0, s, w, st0, stats, turn.between);
    store.Interfere(s, turn.between);
    t, es, alive := Run(s, turn.between), es0 + turn.between, turn.crash != BeforeRecord;
    if alive {
      ExtendOwn(s0, es, t, w, st0, stats, Record(w));
      store.RecordFailure(id, lease, number);
      t, es := Step(t, Record(w)), es + [Record(w)];

      ExtendForeign(s0, es, t, w, st0, stats, turn.settling);
      store.Interfere(t, turn.settling);
      t, es, alive := Run(t, turn.settling), es + turn.settling, turn.crash != BeforeSettle;
    }
    var last := if alive then Settle(w, turn.retryAt) else Stop(w);
    ExtendOwn(s0, es, t, w, st0, stats, last);
    if alive {
      if limited {
        store.DeferForCapacity(id, lease, turn.retryAt);
      } else {
        store.Retry(id, lease, number);
      }
    }
    t, es := Step(t, last), es + [last];
  }

  /** The heartbeat timer while an evaluation is under way. */
  method KeepAlive(store: Store, s: System, w: nat, id: nat, lease: nat, number: int, beats: seq<seq<Event>>,
                   stats: Stats, ghost s0: System, ghost es0: seq<Event>, ghost st0: Stats)
    returns (t: System, ghost es: seq<Event>)
    requires Reached(s0, es0, s, w, st0, stats) && store.View() == s.db
    requires forall i :: 0 <= i < |beats| ==> Foreign(beats[i], w)
    requires Holding(s, w) && s.workers[w].current == Held(id, lease, number, Working)
    modifies store
    ensures Reached(s0, es, t, w, st0, stats) && store.View() == t.db
    ensures Holding(t, w) && t.workers[w] == s.workers[w]
  {
    hide Run, Tally, Foreign;
    t, es := s, es0;
    for i := 0 to |beats|
      invariant Reached(s0, es, t, w, st0, stats) && store.View() == t.db
      invariant Holding(t, w) && t.workers[w] == s.workers[w]
    {
      ExtendForeign(s0, es, t, w, st0, stats, beats[i]);
      store.Interfere(t, beats[i]);
      t, es := Run(t, beats[i]), es + beats[i];
      ExtendOwn(s0, es, t, w, st0, stats, Beat(w));
      store.Renew(id, lease);
      t, es := Step(t, Beat(w)), es + [Beat(w)];
    }
  }

  /** Evaluate under a lease kept alive, then commit the result or take the failure path. */
  method WorkLease(store: Store, s: System, w: nat, id: nat, lease: nat, number: int, turn: Turn, stats: Stats,
                   ghost s0: System, ghost es0: seq<Event>, ghost st0: Stats)
    returns (t: System, counted: Stats, alive: bool, ghost es: seq<Event>)
    requires Reached(s0, es0, s, w, st0, stats) && store.View() == s.db && ForeignTurn(turn, w)
    requires Holding(s, w) && s.workers[w].current == Held(id, lease, number, Working)
    modifies store
    ensures Reached(s0, es, t, w, st0, counted) && store.View() == t.db && Total(counted) <= Total(stats) + 1
    ensures t.workers[w] == if alive then Running(s.workers[w].items, Nothing) else Idle
  {
    hide Run, Tally;
    counted := stats;
    t, es := KeepAlive(store, s, w, id, lease, number, turn.beats, stats, s0, es0, st0);
    ExtendForeign(s0, es, t, w, st0, stats, turn.during);
    store.Interfere(t, turn.during);
    t, es, alive := Run(t, turn.during), es + turn.during, turn.crash != WhileWorking;
    var next := if alive then Finish(w, turn.outcome) else Stop(w);
    ExtendOwn(s0, es, t, w, st0, stats, next);
    if !alive {
      t, es := Step(t, next), es + [next];
      return;
    }
    if turn.outcome == Success {
      var committed := store.Complete(id, lease, number);
      if committed {
        t, es, counted := Step(t, next), es + [next], stats.(processed := stats.processed + 1);
        return;
      }
    }
    var limited := turn.outcome.Failure? && turn.outcome.rateLimited;
    counted := if limited then stats.(rateLimited := stats.rateLimited + 1) else stats.(failed := stats.failed + 1);
    t, es := Step(t, next), es + [next];
    t, alive, es := GiveBack(store, t, w, id, lease, number, limited, turn, counted, s0, es, st0);
  }

  /** One turn of the loop over selected rows. */
  method HandleItem(store: Store, s: System, w: nat, item: Snapshot, turn: Turn, stats: Stats,
                    ghost s0: System, ghost es0: seq<Event>, ghost st0: Stats)
    returns (t: System, counted: Stats, alive: bool, ghost es: seq<Event>)
    requires Reached(s0, es0, s, w, st0, stats) && store.View() == s.db && ForeignTurn(turn, w)
    requires s.workers[w].Running? && s.workers[w].current == Nothing
    requires |s.workers[w].items| > 0 && s.workers[w].items[0] == item
    modifies store
    ensures Reached(s0, es, t, w, st0, counted) && store.View() == t.db && Total(counted) <= Total(stats) + 1
    ensures t.workers[w] == if alive then Running(s.workers[w].items[1..], Nothing) else Idle
  {
    hide Run, Tally;
    counted := stats;
    ExtendForeign(s0, es0, s, w, st0, stats, turn.before);
    store.Interfere(s, turn.before);
    t, es, alive := Run(s, turn.before), es0 + turn.before, turn.crash != AtStart;
    var next := if alive then Take(w) else Stop(w);
    ExtendOwn(s0, es, t, w, st0, stats, next);
    ghost var u := t;
    t, es := Step(t, next), es + [next];
    if alive {
      if item.attempts >= WorkerMax(item.maxAttempts) {
        var moved := store.FenceForReview(item.id);
        if moved { counted := stats.(manualReview := stats.manualReview + 1); }
      } else {
        var granted := store.AcquireLease(item.id);
        match granted
        case None => assert !CanLease(u.db, item.id);
        case Some((lease, number)) =>
          assert CanLease(u.db, item.id);
          t, counted, alive, es := WorkLease(store, t, w, item.id, lease, number, turn, stats, s0, es, st0);
      }
    }
  }

  /**
   A whole run. For every selection, every behaviour of the others between its statements and every
   crash, the run is a schedule of the state machine and its counters are that schedule's tally.
   */
  method EvaluateQueue(store: Store, s0: System, w: nat, stale: set<nat>, archived: set<nat>, candidates: seq<nat>,
                       limit: Option<nat>, turns: seq<Turn>)
    returns (stats: Stats, eligible: nat, ghost es: seq<Event>)
    requires store.View() == s0.db && w < |s0.workers| && s0.workers[w] == Idle && Distinct(candidates)
    requires |turns| == |candidates| && forall i :: 0 <= i < |turns| ==> ForeignTurn(turns[i], w)
    modifies store
    ensures store.View() == Run(s0, es).db
    ensures w < |Run(s0, es).workers| && Run(s0, es).workers[w] == Idle
    ensures stats == Tally(s0, es, w, Stats(0, 0, 0, 0))
    ensures eligible == |Picked(Supersede(s0.db, stale, archived), candidates, limit)|
    ensures stats.processed + stats.failed + stats.rateLimited + stats.manualReview <= eligible
  {
    hide *;
    stats := Stats(0, 0, 0, 0);
    StartReached(s0, w, stale, archived, candidates, limit, stats);
    assert Total(stats) == 0 by { NothingCounted(); }
    var ids := store.SelectRows(stale, archived, candidates, limit);
    eligible, es := |ids|, [Start(w, stale, archived, ids)];
    var t := Step(s0, Start(w, stale, archived, ids));
    t, stats, es := DrainItems(store, t, w, turns[..|ids|], stats, s0, es, stats);
    ReachedMeans(s0, es, t, w, Stats(0, 0, 0, 0), stats);
    TotalIs(stats);
  }

  lemma NothingCounted()
    ensures Total(Stats(0, 0, 0, 0)) == 0
  {
  }

  lemma TotalIs(st: Stats)
    ensures Total(st) == st.processed + st.failed + st.rateLimited + st.manualReview
  {
  }

  lemma StartReached(s0: System, w: nat, stale: set<nat>, archived: set<nat>, candidates: seq<nat>, limit: Option<nat>,
                     st: Stats)
    requires w < |s0.workers| && s0.workers[w] == Idle && Distinct(candidates)
    ensures var ids := Picked(Supersede(s0.db, stale, archived), candidates, limit);
      var e := Start(w, stale, archived, ids);
      var t := Step(s0, e);
      && |ids| <= |candidates|
      && Reached(s0, [e], t, w, st, st) && t.db == Supersede(s0.db, stale, archived)
      && t.workers[w].Running? && t.workers[w].current == Nothing && |t.workers[w].items| == |ids|
  {
    var d := Supersede(s0.db, stale, archived);
    var ids := Picked(d, candidates, limit);
    assert Selection(d, ids) && |ids| <= |candidates| by { PickedFacts(d, candidates, limit); }
    hide Picked;
    ExtendOwn(s0, [], s0, w, st, st, Start(w, stale, archived, ids));
    assert [] + [Start(w, stale, archived, ids)] == [Start(w, stale, archived, ids)];
  }

  lemma ReachedMeans(s0: System, es: seq<Event>, t: System, w: nat, st0: Stats, st: Stats)
    requires Reached(s0, es, t, w, st0, st)
    ensures t == Run(s0, es) && st == Tally(s0, es, w, st0) && w < |t.workers|
  {
  }

  /** The loop over the selected rows. */
  method DrainItems(store: Store, s: System, w: nat, turns: seq<Turn>, zero: Stats,
                    ghost s0: System, ghost es0: seq<Event>, ghost st0: Stats)
    returns (t: System, stats: Stats, ghost es: seq<Event>)
    requires Reached(s0, es0, s, w, st0, zero) && store.View() == s.db && Total(zero) == 0
    requires s.workers[w].Running? && s.workers[w].current == Nothing && |s.workers[w].items| == |turns|
    requires forall i :: 0 <= i < |turns| ==> ForeignTurn(turns[i], w)
    modifies store
    ensures Reached(s0, es, t, w, st0, stats) && store.View() == t.db && Total(stats) <= |turns|
    ensures t.workers[w] == Idle
  {
    hide Run, Tally, ForeignTurn;
    var items, i, alive := s.workers[w].items, 0, true;
    t, stats, es := s, zero, es0;
    while i < |items| && alive
      invariant 0 <= i <= |items|
      invariant Reached(s0, es, t, w, st0, stats) && store.View() == t.db
      invariant t.workers[w] == if alive then Running(items[i..], Nothing) else Idle
      invariant Total(stats) <= i
    {
      t, stats, alive, es := HandleItem(store, t, w, items[i], turns[i], stats, s0, es, st0);
      i := i + 1;
    }
    if alive {
      ExtendOwn(s0, es, t, w, st0, stats, Stop(w));
      t, es := Step(t, Stop(w)), es + [Stop(w)];
    }
  }
}
