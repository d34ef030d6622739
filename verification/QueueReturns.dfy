/**
 What a row given back, leased or superseded looks like to the runs that come later: from when it can be selected, to
 the second, and which attempt rows its leases left.
 */
module QueueReturns {
  import opened Common
  import opened EvaluationQueue
  import opened QueueInvariants
  import opened QueueSafety
  import QueueBounds

  // ------------------------------------------------------------------ when a row can be selected again

  /** Seconds a row waits after its failed attempt number `n`. */
  function Wait(n: nat): nat {
    if n == 0 then 30 else if n == 1 then 60 else if n == 2 then 120
    else if n == 3 then 240 else if n == 4 then 480 else if n == 5 then 960 else 1800
  }

  lemma WaitIsBackoff(n: nat)
    ensures Wait(n) == Backoff(n)
  {
    if n >= 6 {
      Power2Grows(6, n);
      assert Power2(6) == 64;
    } else if n > 0 {
      assert Power2(1) == 2 && Power2(3) == 8 && Power2(5) == 32;
    }
  }

  /** No selection returns the row before time `t`, and from then on any idle run can select it. */
  ghost predicate ReadyFrom(s: System, id: nat, t: int) {
    && (forall w, stale, archived, ids :: Enabled(s, Start(w, stale, archived, ids)) && id in ids ==> s.db.clock >= t)
    && (forall w: nat :: w < |s.workers| && s.workers[w].Idle? ==>
          (Enabled(s, Start(w, {}, {}, [id])) <==> s.db.clock >= t))
  }

  lemma WaitingReady(s: System, id: nat, t: int)
    requires id in s.db.queue && s.db.queue[id].status == RetryWait && s.db.queue[id].availableAt == Some(t)
    ensures ReadyFrom(s, id, t)
  {
    assert Supersede(s.db, {}, {}) == s.db;
  }

  lemma LeasedReady(s: System, id: nat, t: int)
    requires id in s.db.queue && s.db.queue[id].status == Evaluating && s.db.queue[id].expires == Some(t)
    ensures ReadyFrom(s, id, t + 1)
  {
    assert Supersede(s.db, {}, {}) == s.db;
  }

  lemma PendingReady(s: System, id: nat)
    requires id in s.db.queue && s.db.queue[id].status == Pending
    ensures ReadyFrom(s, id, s.db.clock)
  {
    assert Supersede(s.db, {}, {}) == s.db;
  }

  /** The run has written its attempt row and is about to give the row back. */
  predicate ReadyToSettle(s: System, w: nat, id: nat) {
    HoldsRow(s, w, id) && s.workers[w].current.stage.Failing? && s.workers[w].current.stage.recorded
  }

  /** However the schedule goes on, as long as nobody has changed the row: after failed attempt `n` it is selected by
      nobody for 30 * 2^n seconds, at most 1800, and by anybody afterwards; after a rate limit the time the provider
      asked for stands instead. */
  lemma GivenBackRowWaits(s: System, w: nat, retryAt: int, more: seq<Event>, id: nat)
    requires ReadyToSettle(s, w, id) && s.workers[w].current.number >= 0
    ensures var c, t := s.workers[w].current, Step(s, Settle(w, retryAt));
      && id in t.db.queue
      && (id in Run(t, more).db.queue && Run(t, more).db.queue[id] == t.db.queue[id] ==>
            ReadyFrom(Run(t, more), id, if c.stage.rateLimited then retryAt else s.db.clock + Wait(c.number)))
  {
    WaitIsBackoff(s.workers[w].current.number);
    var t := Step(s, Settle(w, retryAt));
    assert t.db.queue[id].status == RetryWait && t.db.queue[id].availableAt.Some?;
    hide Run, ReadyFrom;
    var u := Run(t, more);
    if id in u.db.queue && u.db.queue[id] == t.db.queue[id] { WaitingReady(u, id, t.db.queue[id].availableAt.value); }
  }

  /** A lease granted or renewed keeps every other run from selecting the row for exactly 300 seconds. */
  lemma LeaseLastsFiveMinutes(s: System, e: Event, more: seq<Event>, id: nat)
    requires (e.Take? || e.Beat?) && Enabled(s, e) && HoldsRow(Step(s, e), e.w, id)
    requires Step(s, e).db.queue[id].status == Evaluating
    ensures var t := Step(s, e);
      id in Run(t, more).db.queue && Run(t, more).db.queue[id] == t.db.queue[id] ==>
        ReadyFrom(Run(t, more), id, s.db.clock + 301)
  {
    var t := Step(s, e);
    assert t.db.queue[id].expires == Some(s.db.clock + 300);
    hide Run, ReadyFrom;
    var u := Run(t, more);
    if id in u.db.queue && u.db.queue[id] == t.db.queue[id] { LeasedReady(u, id, s.db.clock + 300); }
  }

  /** A row nobody has worked on can be selected at any time. */
  lemma PendingRowIsReady(s: System, id: nat, w: nat)
    requires id in s.db.queue && s.db.queue[id].status == Pending && w < |s.workers| && s.workers[w] == Idle
    ensures Enabled(s, Start(w, {}, {}, [id]))
  {
    PendingReady(s, id);
  }

  /** A run that finds a waiting or abandoned row stale retires it for good: no later event changes it. */
  lemma StaleRowIsRetired(s: System, w: nat, stale: set<nat>, archived: set<nat>, ids: seq<nat>, more: seq<Event>,
                          id: nat)
    requires Enabled(s, Start(w, stale, archived, ids)) && id in stale && id in s.db.queue
    requires var r := s.db.queue[id];
      r.status in {Pending, RetryWait} || (r.status == Evaluating && r.expires.Some? && r.expires.value < s.db.clock)
    ensures var u := Run(Step(s, Start(w, stale, archived, ids)), more);
      && id in u.db.queue && id !in ids && u.db.queue[id].lease == None
      && u.db.queue[id].status == if id in archived then SkippedArchived else Superseded
  {
    var t := Step(s, Start(w, stale, archived, ids));
    assert Settled(t.db.queue[id]);
    SettledRowsNeverChange(t, more, id);
  }

  /** What a run does with a row it selects alone: it works on the row if attempts are left, out of three unless the row
      says otherwise, and sends it to manual review if not. */
  lemma LoneRowsTurn(s: System, id: nat)
    requires QueueBounds.Lone(s, id) && |s.workers| > 0
    ensures var r, u := s.db.queue[id], Run(s, [Start(0, {}, {}, [id]), Take(0)]);
      var allowed := if r.maxAttempts in {None, Some(0)} then 3 else r.maxAttempts.value;
      && id in u.db.queue
      && u.db.queue[id].status == (if r.attempts < allowed then Evaluating else NeedsManualReview)
      && u.db.queue[id].attempts == (if r.attempts < allowed then r.attempts + 1 else r.attempts)
  {
    var start, take := Start(0, {}, {}, [id]), Take(0);
    QueueBounds.StartEffect(s, 0, id);
    QueueBounds.RunOne(s, start);
    QueueBounds.RunOne(Step(s, start), take);
    QueueBounds.RunConcat(s, [start], [take]);
    assert [start] + [take] == [start, take];
    var item, t := SnapshotOf(s.db, id), Step(s, start);
    hide Run, Step;
    if HasAttemptsLeft(item) { QueueBounds.TakeEffect(t, 0, item); } else { ReviewEffect(t, 0, item); }
  }

  /** A rate limit costs the row nothing: the attempt it used is added to what it may use, four for a row that never
      said how many. */
  lemma DeferralsAreFree(s: System, w: nat, retryAt: int, id: nat)
    requires ReadyToSettle(s, w, id)
    ensures var r, q := s.db.queue[id], Step(s, Settle(w, retryAt)).db.queue[id];
      && q.attempts == r.attempts && q.lease == None && q.expires == None
      && q.maxAttempts == if !s.workers[w].current.stage.rateLimited then r.maxAttempts
                          else Some(if r.maxAttempts == None then 4 else r.maxAttempts.value + 1)
  {
    assert HoldsRow(s, w, id);
  }

  /** A success that still holds its lease writes one evaluation and one attempt row and completes the row, in one step
      that touches no other row. */
  lemma SuccessIsCommitted(s: System, w: nat, id: nat)
    requires HoldsRow(s, w, id) && s.workers[w].current.stage == Working
    ensures var c, r, u := s.workers[w].current, s.db.queue[id], Step(s, Finish(w, Success));
      && u.db.evaluations == s.db.evaluations + [Evaluation(id, c.lease)]
      && u.db.attempts == s.db.attempts + [Attempt(id, c.number, c.lease)]
      && u.db.queue == s.db.queue[id := Row(Completed, None, None, r.attempts, r.maxAttempts, None)]
      && u.workers[w] == Running(s.workers[w].items, Nothing)
  {
  }

  // ------------------------------------------------------------------ what a lease leaves behind

  ghost predicate Recorded(d: Db, lease: nat) {
    exists i :: 0 <= i < |d.attempts| && d.attempts[i].lease == lease
  }

  ghost predicate Stored(d: Db, id: nat, lease: nat) {
    exists i :: 0 <= i < |d.evaluations| && d.evaluations[i] == Evaluation(id, lease)
  }

  /** A lease given back has its attempt row, and its evaluation if that succeeded. */
  ghost predicate Accounted(d: Db, lease: nat)
    requires lease < |d.leases|
  {
    && (d.leases[lease].fate != Open ==> Recorded(d, lease))
    && (d.leases[lease].fate == Evaluated ==> Stored(d, d.leases[lease].item, lease))
  }

  ghost predicate LeasesAreAccounted(s: System) {
    && (forall l :: 0 <= l < |s.db.leases| ==> Accounted(s.db, l))
    && (forall w: nat, id: nat :: ReadyToSettle(s, w, id) ==> Recorded(s.db, s.workers[w].current.lease))
  }

  lemma RecordsStay(s: System, e: Event, lease: nat, id: nat)
    ensures Recorded(s.db, lease) ==> Recorded(Step(s, e).db, lease)
    ensures Stored(s.db, id, lease) ==> Stored(Step(s, e).db, id, lease)
  {
    var d, t := s.db, Step(s, e);
    assert d.attempts <= t.db.attempts && d.evaluations <= t.db.evaluations;
    hide Step;
    if i :| 0 <= i < |d.attempts| && d.attempts[i].lease == lease { assert t.db.attempts[i].lease == lease; }
    if i :| 0 <= i < |d.evaluations| && d.evaluations[i] == Evaluation(id, lease) {
      assert t.db.evaluations[i] == Evaluation(id, lease);
    }
  }

  /** A lease changes hands in the ledger only by its holder: it completes, or settles what it recorded. */
  lemma Closing(s: System, e: Event, lease: nat)
    requires lease < |s.db.leases| && Step(s, e).db.leases[lease] != s.db.leases[lease]
    ensures ByHolder(e) && e.w < |s.workers| && Holding(s, e.w) && s.workers[e.w].current.lease == lease
    ensures HoldsRow(s, e.w, s.workers[e.w].current.id)
    ensures Step(s, e).db.leases[lease].item == s.db.leases[lease].item
    ensures e.Settle? ==>
      ReadyToSettle(s, e.w, s.workers[e.w].current.id) && Step(s, e).db.leases[lease].fate != Evaluated
    ensures !e.Settle? ==> Written(Step(s, e).db, s.workers[e.w].current.id, lease)
  {
    var t, c := Step(s, e), s.workers[e.w].current;
    if !e.Settle? {
      assert t.db.attempts[|s.db.attempts|].lease == lease;
      assert t.db.evaluations[|s.db.evaluations|] == Evaluation(c.id, lease);
    }
  }

  ghost predicate Written(d: Db, id: nat, lease: nat) { Recorded(d, lease) && Stored(d, id, lease) }

  lemma BeforeSettling(s: System, e: Event, w: nat, id: nat)
    requires ReadyToSettle(Step(s, e), w, id) && w < |s.workers|
    requires s.workers[w].Running? && s.workers[w].current.Held? ==> s.workers[w].current.lease < |s.db.leases|
    ensures HoldsRow(s, w, id) && s.workers[w].current.lease == Step(s, e).workers[w].current.lease
    ensures ReadyToSettle(s, w, id) || (e == Record(w) && Enabled(s, e))
  {
    CurrentAfter(s, e, w);
  }

  lemma SettlersRecord(s: System, e: Event, w: nat, id: nat)
    requires LeasesAreAccounted(s) && ReadyToSettle(Step(s, e), w, id) && w < |s.workers|
    requires s.workers[w].Running? && s.workers[w].current.Held? ==> s.workers[w].current.lease < |s.db.leases|
    ensures Recorded(Step(s, e).db, Step(s, e).workers[w].current.lease)
  {
    BeforeSettling(s, e, w, id);
    if ReadyToSettle(s, w, id) {
      hide Step, ReadyToSettle;
      RecordsStay(s, e, s.workers[w].current.lease, id);
    } else {
      var t := Step(s, e);
      assert t.db.attempts[|s.db.attempts|].lease == s.workers[w].current.lease;
    }
  }

  lemma LeaseStaysAccounted(s: System, e: Event, lease: nat)
    requires LeasesAreAccounted(s) && lease < |s.db.leases| <= |Step(s, e).db.leases|
    requires forall w :: 0 <= w < |s.workers| ==> HolderAgrees(s.db, s.workers[w])
    ensures Accounted(Step(s, e).db, lease)
  {
    hide Step, ReadyToSettle, Recorded, Stored;
    var t, x := Step(s, e), s.db.leases[lease];
    assert Accounted(s.db, lease);
    RecordsStay(s, e, lease, x.item);
    if t.db.leases[lease] != x {
      Closing(s, e, lease);
      assert HolderAgrees(s.db, s.workers[e.w]);
      assert s.workers[e.w].current.id == x.item;
    }
  }

  lemma StepAccounts(d0: Db, s: System, e: Event)
    requires Inv(d0, s) && LeasesAreAccounted(s)
    ensures LeasesAreAccounted(Step(s, e))
  {
    var t := Step(s, e);
    assert |t.workers| == |s.workers| && |t.db.leases| >= |s.db.leases|;
    assert |t.db.leases| > |s.db.leases| ==>
      |t.db.leases| == |s.db.leases| + 1 && t.db.leases[|s.db.leases|].fate == Open;
    hide Step, DbInv;
    forall l | 0 <= l < |t.db.leases| ensures Accounted(t.db, l) {
      if l < |s.db.leases| { LeaseStaysAccounted(s, e, l); }
    }
    forall w: nat, id: nat | ReadyToSettle(t, w, id) ensures Recorded(t.db, t.workers[w].current.lease) {
      assert HolderAgrees(s.db, s.workers[w]);
      SettlersRecord(s, e, w, id);
    }
  }

  lemma {:induction false} RunAccounts(s0: System, es: seq<Event>)
    requires Initial(s0)
    ensures LeasesAreAccounted(Run(s0, es))
  {
    if |es| != 0 {
      hide Step, LeasesAreAccounted;
      RunAccounts(s0, es[..|es| - 1]);
      RunKeeps(s0, es[..|es| - 1]);
      StepAccounts(s0.db, Run(s0, es[..|es| - 1]), es[|es| - 1]);
    }
  }

  /** In every schedule a lease that was given back left exactly one attempt row, with the row and the number it was
      granted for, and an evaluation of that row if it succeeded. */
  lemma ReturnedLeasesAreAccounted(s0: System, es: seq<Event>, lease: nat)
    requires Initial(s0) && lease < |Run(s0, es).db.leases| && Run(s0, es).db.leases[lease].fate != Open
    ensures var d := Run(s0, es).db;
      && (exists i :: 0 <= i < |d.attempts| &&
           d.attempts[i] == Attempt(d.leases[lease].item, d.leases[lease].attempt, lease))
      && (forall i, j :: 0 <= i < j < |d.attempts| ==> d.attempts[i].lease != lease || d.attempts[j].lease != lease)
      && (d.leases[lease].fate == Evaluated ==> Stored(d, d.leases[lease].item, lease))
  {
    RunAccounts(s0, es);
    RunKeeps(s0, es);
    var d := Run(s0, es).db;
    hide Run, LedgerAgrees, AccountsBalance, ResultsAgree;
    assert Accounted(d, lease);
    var i :| 0 <= i < |d.attempts| && d.attempts[i].lease == lease;
    assert d.attempts[i] == Attempt(d.leases[lease].item, d.leases[lease].attempt, lease);
  }
}
