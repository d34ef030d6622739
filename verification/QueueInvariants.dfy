/** What every schedule of the evaluation queue keeps: one invariant, proved statement by statement. */
module QueueInvariants {
  import opened Common
  import opened EvaluationQueue

  function LeaseOf(id: nat): Lease -> bool { (l: Lease) => l.item == id }
  function DeferralOf(id: nat): Lease -> bool { (l: Lease) => l.item == id && l.fate == RateLimited }
  function AttemptOf(id: nat): Attempt -> bool { (a: Attempt) => a.item == id }

  /** The lease on a row is an open entry of the ledger, and attempt numbers grow from lease to lease. */
  ghost predicate LedgerAgrees(d: Db) {
    && (forall id :: id in d.queue && d.queue[id].lease.Some? ==>
          && d.queue[id].lease.value < |d.leases|
          && d.leases[d.queue[id].lease.value].item == id
          && d.leases[d.queue[id].lease.value].fate == Open)
    && (forall l :: 0 <= l < |d.leases| ==>
          && d.leases[l].item in d.queue
          && d.leases[l].attempt <= d.queue[d.leases[l].item].attempts)
    && (forall k, l :: 0 <= k < l < |d.leases| && d.leases[k].item == d.leases[l].item ==>
          d.leases[k].attempt < d.leases[l].attempt)
  }

  /** A completed row has exactly one evaluation and no lease; any other row has no evaluation. */
  ghost predicate ResultsAgree(d: Db) {
    forall id :: id in d.queue ==>
      && (d.queue[id].status == Completed ==> d.queue[id].lease == None)
      && Count(d.evaluations, EvaluationOf(id)) == (if d.queue[id].status == Completed then 1 else 0)
  }

  /** Attempts and maximum attempts are the initial ones plus the leases granted and the deferrals. */
  ghost predicate AccountsBalance(d0: Db, d: Db) {
    && d.queue.Keys == d0.queue.Keys
    && forall id :: id in d.queue ==>
         && d.queue[id].attempts == d0.queue[id].attempts + Count(d.leases, LeaseOf(id))
         && SqlMax(d.queue[id].maxAttempts) == SqlMax(d0.queue[id].maxAttempts) + Count(d.leases, DeferralOf(id))
  }

  /** Every attempt row was written under a granted lease, with its number, and no lease wrote two. */
  ghost predicate AttemptLogAgrees(d: Db) {
    && (forall i :: 0 <= i < |d.attempts| ==>
          && d.attempts[i].lease < |d.leases|
          && d.attempts[i].item == d.leases[d.attempts[i].lease].item
          && d.attempts[i].number == d.leases[d.attempts[i].lease].attempt)
    && (forall i, j :: 0 <= i < j < |d.attempts| ==> d.attempts[i].lease != d.attempts[j].lease)
  }

  ghost predicate DbInv(d0: Db, d: Db) {
    LedgerAgrees(d) && ResultsAgree(d) && AccountsBalance(d0, d) && AttemptLogAgrees(d)
  }

  /** The lease wrote no attempt row yet. */
  ghost predicate Unrecorded(d: Db, lease: nat) {
    forall i :: 0 <= i < |d.attempts| ==> d.attempts[i].lease != lease
  }

  /** A run holding a lease knows its item and number, shares it with no other run, and records once. */
  ghost predicate HolderAgrees(d: Db, worker: Worker) {
    worker.Running? && worker.current.Held? ==>
      var c := worker.current;
      && c.lease < |d.leases| && d.leases[c.lease].item == c.id && d.leases[c.lease].attempt == c.number
      && ((c.stage.Failing? && c.stage.recorded) || Unrecorded(d, c.lease))
  }

  ghost predicate Shares(a: Worker, b: Worker) {
    a.Running? && b.Running? && a.current.Held? && b.current.Held? && a.current.lease == b.current.lease
  }

  ghost predicate Inv(d0: Db, s: System) {
    && DbInv(d0, s.db)
    && (forall w :: 0 <= w < |s.workers| ==> HolderAgrees(s.db, s.workers[w]))
    && (forall v, w :: 0 <= v < w < |s.workers| ==> !Shares(s.workers[v], s.workers[w]))
  }

  // ------------------------------------------------------------------ statements

  /** A statement that grants, closes and records nothing, and completes no row. */
  ghost predicate Quiet(d: Db, e: Db) {
    && e.leases == d.leases && e.evaluations == d.evaluations && e.attempts == d.attempts
    && e.queue.Keys == d.queue.Keys
    && forall id :: id in d.queue ==> QuietRow(d.queue[id], e.queue[id])
  }

  ghost predicate QuietRow(r: Row, q: Row) {
    && q.attempts == r.attempts && q.maxAttempts == r.maxAttempts
    && (q.lease == r.lease || q.lease == None)
    && (q.status == Completed <==> r.status == Completed)
  }

  lemma QuietLedger(d: Db, e: Db)
    requires LedgerAgrees(d) && Quiet(d, e)
    ensures LedgerAgrees(e)
  {
    forall id | id in e.queue && e.queue[id].lease.Some?
      ensures QuietRow(d.queue[id], e.queue[id])
    {
    }
  }

  lemma QuietKeeps(d0: Db, d: Db, e: Db)
    requires DbInv(d0, d) && Quiet(d, e)
    ensures DbInv(d0, e)
  {
    hide LedgerAgrees, AttemptLogAgrees;
    QuietLedger(d, e);
    LogFrame(d, e);
  }

  lemma LogFrame(d: Db, e: Db)
    requires AttemptLogAgrees(d)
    requires |d.leases| <= |e.leases| && d.attempts == e.attempts
    requires forall l :: 0 <= l < |d.leases| ==>
      e.leases[l].item == d.leases[l].item && e.leases[l].attempt == d.leases[l].attempt
    ensures AttemptLogAgrees(e)
  {
  }

  lemma SupersedeKeeps(d0: Db, d: Db, stale: set<nat>, archived: set<nat>)
    requires DbInv(d0, d)
    ensures DbInv(d0, Supersede(d, stale, archived))
  {
    hide DbInv;
    QuietKeeps(d0, d, Supersede(d, stale, archived));
  }

  lemma ManualReviewKeeps(d0: Db, d: Db, id: nat)
    requires DbInv(d0, d)
    ensures DbInv(d0, MoveToManualReview(d, id))
  {
    hide DbInv;
    QuietKeeps(d0, d, MoveToManualReview(d, id));
  }

  lemma HeartbeatKeeps(d0: Db, d: Db, id: nat, lease: nat)
    requires DbInv(d0, d)
    ensures DbInv(d0, Heartbeat(d, id, lease))
  {
    hide DbInv;
    QuietKeeps(d0, d, Heartbeat(d, id, lease));
  }

  lemma GrantLedger(d: Db, id: nat)
    requires LedgerAgrees(d) && CanLease(d, id)
    ensures LedgerAgrees(GrantLease(d, id))
  {
  }

  lemma GrantAccounts(d0: Db, d: Db, id: nat)
    requires AccountsBalance(d0, d) && CanLease(d, id)
    ensures AccountsBalance(d0, GrantLease(d, id))
  {
    var lease, e := Lease(id, d.queue[id].attempts + 1, Open), GrantLease(d, id);
    forall other | other in e.queue
      ensures Count(e.leases, LeaseOf(other)) == Count(d.leases, LeaseOf(other)) + (if other == id then 1 else 0)
      ensures Count(e.leases, DeferralOf(other)) == Count(d.leases, DeferralOf(other))
    {
      CountAppend(d.leases, lease, LeaseOf(other));
      CountAppend(d.leases, lease, DeferralOf(other));
    }
  }

  lemma GrantKeeps(d0: Db, d: Db, id: nat)
    requires DbInv(d0, d) && CanLease(d, id)
    ensures DbInv(d0, GrantLease(d, id))
  {
    hide LedgerAgrees, AccountsBalance, AttemptLogAgrees;
    GrantLedger(d, id);
    GrantAccounts(d0, d, id);
    LogFrame(d, GrantLease(d, id));
  }

  /** Closing the lease a row holds changes one ledger entry, and counts a deferral once. */
  lemma CloseCounts(d: Db, id: nat, lease: nat, fate: Fate)
    requires LedgerAgrees(d) && Holds(d, id, lease)
    ensures forall other :: other in d.queue ==>
      var closed := d.leases[lease := d.leases[lease].(fate := fate)];
      && Count(closed, LeaseOf(other)) == Count(d.leases, LeaseOf(other))
      && Count(closed, DeferralOf(other)) ==
         Count(d.leases, DeferralOf(other)) + (if other == id && fate == RateLimited then 1 else 0)
  {
    var x := d.leases[lease].(fate := fate);
    forall other | other in d.queue
      ensures Count(d.leases[lease := x], LeaseOf(other)) == Count(d.leases, LeaseOf(other))
      ensures Count(d.leases[lease := x], DeferralOf(other)) ==
              Count(d.leases, DeferralOf(other)) + (if other == id && fate == RateLimited then 1 else 0)
    {
      CountUpdate(d.leases, lease, x, LeaseOf(other));
      CountUpdate(d.leases, lease, x, DeferralOf(other));
    }
  }

  lemma RecordLog(d: Db, lease: nat)
    requires AttemptLogAgrees(d) && lease < |d.leases| && Unrecorded(d, lease)
    ensures AttemptLogAgrees(RecordAttempt(d, d.leases[lease].item, lease, d.leases[lease].attempt))
  {
  }

  lemma TableFrame(d0: Db, d: Db, e: Db)
    requires LedgerAgrees(d) && ResultsAgree(d) && AccountsBalance(d0, d)
    requires e.queue == d.queue && e.leases == d.leases && e.evaluations == d.evaluations
    ensures LedgerAgrees(e) && ResultsAgree(e) && AccountsBalance(d0, e)
  {
  }

  lemma RecordKeeps(d0: Db, d: Db, id: nat, lease: nat, number: int)
    requires DbInv(d0, d) && lease < |d.leases|
    requires d.leases[lease].item == id && d.leases[lease].attempt == number && Unrecorded(d, lease)
    ensures DbInv(d0, RecordAttempt(d, id, lease, number))
  {
    hide LedgerAgrees, AccountsBalance, ResultsAgree, AttemptLogAgrees;
    RecordLog(d, lease);
    TableFrame(d0, d, RecordAttempt(d, id, lease, number));
  }

  /** `e` is `d` after the holder of a lease gave it back, with more results or attempts perhaps. */
  ghost predicate Closed(d: Db, e: Db, id: nat, lease: nat, row: Row, fate: Fate)
    requires lease < |d.leases|
  {
    e.queue == d.queue[id := row] && e.leases == d.leases[lease := d.leases[lease].(fate := fate)]
  }

  lemma CloseLedger(d: Db, e: Db, id: nat, lease: nat, row: Row, fate: Fate)
    requires LedgerAgrees(d) && Holds(d, id, lease) && Closed(d, e, id, lease, row, fate)
    requires row.lease == None && row.attempts == d.queue[id].attempts
    ensures LedgerAgrees(e)
  {
    forall other | other in e.queue && e.queue[other].lease.Some?
      ensures e.queue[other].lease.value != lease
    {
      assert other != id;
    }
  }

  lemma CloseAccounts(d0: Db, d: Db, e: Db, id: nat, lease: nat, row: Row, fate: Fate)
    requires LedgerAgrees(d) && AccountsBalance(d0, d) && Holds(d, id, lease) && Closed(d, e, id, lease, row, fate)
    requires row.attempts == d.queue[id].attempts
    requires SqlMax(row.maxAttempts) == SqlMax(d.queue[id].maxAttempts) + (if fate == RateLimited then 1 else 0)
    ensures AccountsBalance(d0, e)
  {
    CloseCounts(d, id, lease, fate);
  }

  lemma CloseResults(d: Db, e: Db, id: nat, row: Row)
    requires ResultsAgree(d) && id in d.queue && d.queue[id].lease.Some?
    requires e.queue == d.queue[id := row] && row.status != Completed && e.evaluations == d.evaluations
    ensures ResultsAgree(e)
  {
  }

  lemma CloseLog(d: Db, e: Db, id: nat, lease: nat, row: Row, fate: Fate)
    requires AttemptLogAgrees(d) && lease < |d.leases| && Closed(d, e, id, lease, row, fate)
    requires
      || e.attempts == d.attempts
      || (e.attempts == d.attempts + [Attempt(d.leases[lease].item, d.leases[lease].attempt, lease)] &&
        Unrecorded(d, lease))
    ensures AttemptLogAgrees(e)
  {
  }

  lemma SettleKeeps(d0: Db, d: Db, id: nat, lease: nat, e: Db, fate: Fate)
    requires DbInv(d0, d) && Holds(d, id, lease) && lease < |d.leases|
    requires id in e.queue && Closed(d, e, id, lease, e.queue[id], fate)
    requires e.queue[id].lease == None && e.queue[id].attempts == d.queue[id].attempts &&
      e.queue[id].status != Completed
    requires SqlMax(e.queue[id].maxAttempts) == SqlMax(d.queue[id].maxAttempts) + (if fate == RateLimited then 1 else 0)
    requires e.evaluations == d.evaluations && e.attempts == d.attempts
    ensures DbInv(d0, e)
  {
    hide LedgerAgrees, AccountsBalance, ResultsAgree, AttemptLogAgrees;
    CloseLedger(d, e, id, lease, e.queue[id], fate);
    CloseAccounts(d0, d, e, id, lease, e.queue[id], fate);
    CloseResults(d, e, id, e.queue[id]);
    CloseLog(d, e, id, lease, e.queue[id], fate);
  }

  lemma GiveBackKeeps(d0: Db, d: Db, id: nat, lease: nat, number: int, retryAt: int)
    requires DbInv(d0, d) && lease < |d.leases|
    ensures DbInv(d0, ScheduleRetry(d, id, lease, number))
    ensures DbInv(d0, Defer(d, id, lease, retryAt))
  {
    hide DbInv;
    if Holds(d, id, lease) {
      SettleKeeps(d0, d, id, lease, ScheduleRetry(d, id, lease, number), Failed);
      SettleKeeps(d0, d, id, lease, Defer(d, id, lease, retryAt), RateLimited);
    }
  }

  lemma CompletionResults(d: Db, e: Db, id: nat, lease: nat)
    requires ResultsAgree(d) && Holds(d, id, lease)
    requires e.evaluations == d.evaluations + [Evaluation(id, lease)]
    requires e.queue == d.queue[id := Release(d.queue[id], Completed, None)]
    ensures ResultsAgree(e)
  {
    forall other | other in d.queue
      ensures Count(e.evaluations, EvaluationOf(other)) ==
              Count(d.evaluations, EvaluationOf(other)) + (if other == id then 1 else 0)
    {
      CountAppend(d.evaluations, Evaluation(id, lease), EvaluationOf(other));
    }
  }

  lemma CompletionKeeps(d0: Db, d: Db, id: nat, lease: nat, number: int)
    requires DbInv(d0, d) && lease < |d.leases|
    requires d.leases[lease].item == id && d.leases[lease].attempt == number && Unrecorded(d, lease)
    ensures DbInv(d0, CommitCompletion(d, id, lease, number))
  {
    hide LedgerAgrees, AccountsBalance, ResultsAgree, AttemptLogAgrees;
    if Holds(d, id, lease) {
      var e := CommitCompletion(d, id, lease, number);
      CloseLedger(d, e, id, lease, e.queue[id], Evaluated);
      CloseAccounts(d0, d, e, id, lease, e.queue[id], Evaluated);
      CompletionResults(d, e, id, lease);
      CloseLog(d, e, id, lease, e.queue[id], Evaluated);
    }
  }

  // ------------------------------------------------------------------ steps

  /** The other runs still agree with the database after one of them wrote to it. */
  ghost predicate OnlyAppends(d: Db, e: Db, lease: Option<nat>) {
    && |d.leases| <= |e.leases|
    && (forall l :: 0 <= l < |d.leases| ==>
          e.leases[l].item == d.leases[l].item && e.leases[l].attempt == d.leases[l].attempt)
    && |d.attempts| <= |e.attempts|
    && (forall i :: 0 <= i < |e.attempts| ==>
          e.attempts[i] == (if i < |d.attempts| then d.attempts[i] else e.attempts[i])
          && (i >= |d.attempts| ==> lease == Some(e.attempts[i].lease)))
  }

  lemma PutKeeps(d0: Db, s: System, e: Db, w: nat, worker: Worker, lease: Option<nat>)
    requires Inv(d0, s) && DbInv(d0, e) && w < |s.workers|
    requires OnlyAppends(s.db, e, lease)
    requires lease.Some? ==>
      s.workers[w].Running? && s.workers[w].current.Held? && s.workers[w].current.lease == lease.value
    requires HolderAgrees(e, worker)
    requires worker.Running? && worker.current.Held? ==>
      || worker.current.lease == |s.db.leases|
      || (s.workers[w].Running? && s.workers[w].current.Held? && s.workers[w].current.lease == worker.current.lease)
    ensures Inv(d0, Put(s, e, w, worker))
  {
    hide DbInv;
  }

  lemma StepKeeps(d0: Db, s: System, e: Event)
    requires Inv(d0, s)
    ensures Inv(d0, Step(s, e))
  {
    hide DbInv;
    if Enabled(s, e) {
      match e
      case Tick(_) => QuietKeeps(d0, s.db, Step(s, e).db);
      case Start(w, stale, archived, ids) =>
        SupersedeKeeps(d0, s.db, stale, archived);
        PutKeeps(d0, s, Step(s, e).db, w, Step(s, e).workers[w], None);
      case Take(w) => TakeKeeps(d0, s, w);
      case Beat(w) => BeatKeeps(d0, s, w);
      case Finish(w, outcome) => FinishKeeps(d0, s, w, outcome);
      case Record(w) => RecordStepKeeps(d0, s, w);
      case Settle(w, retryAt) => SettleStepKeeps(d0, s, w, retryAt);
      case Stop(w) => PutKeeps(d0, s, s.db, w, Idle, None);
    }
  }

  lemma BeatKeeps(d0: Db, s: System, w: nat)
    requires Inv(d0, s) && Enabled(s, Beat(w))
    ensures Inv(d0, Step(s, Beat(w)))
  {
    hide DbInv;
    var e := Step(s, Beat(w));
    HeartbeatKeeps(d0, s.db, s.workers[w].current.id, s.workers[w].current.lease);
    assert e == Put(s, e.db, w, s.workers[w]) by { assert s.workers[w := s.workers[w]] == s.workers; }
    PutKeeps(d0, s, e.db, w, s.workers[w], None);
  }

  lemma RecordStepKeeps(d0: Db, s: System, w: nat)
    requires Inv(d0, s) && Enabled(s, Record(w))
    ensures Inv(d0, Step(s, Record(w)))
  {
    hide DbInv;
    var c, e := s.workers[w].current, Step(s, Record(w));
    RecordKeeps(d0, s.db, c.id, c.lease, c.number);
    PutKeeps(d0, s, e.db, w, e.workers[w], Some(c.lease));
  }

  lemma SettleAppends(d: Db, id: nat, lease: nat, number: int, retryAt: int)
    requires lease < |d.leases|
    ensures OnlyAppends(d, ScheduleRetry(d, id, lease, number), None)
    ensures OnlyAppends(d, Defer(d, id, lease, retryAt), None)
  {
  }

  lemma SettleStepKeeps(d0: Db, s: System, w: nat, retryAt: int)
    requires Inv(d0, s) && Enabled(s, Settle(w, retryAt))
    ensures Inv(d0, Step(s, Settle(w, retryAt)))
  {
    hide DbInv, OnlyAppends;
    var c, e := s.workers[w].current, SettleItem(s, w, retryAt).db;
    GiveBackKeeps(d0, s.db, c.id, c.lease, c.number, retryAt);
    SettleAppends(s.db, c.id, c.lease, c.number, retryAt);
    assert DbInv(d0, e) && OnlyAppends(s.db, e, None);
    PutKeeps(d0, s, e, w, s.workers[w].(current := Nothing), None);
  }

  lemma FreshLease(d0: Db, d: Db)
    requires DbInv(d0, d)
    ensures Unrecorded(d, |d.leases|)
  {
  }

  lemma TakeAppends(s: System, w: nat)
    requires Enabled(s, Take(w))
    ensures OnlyAppends(s.db, TakeItem(s, w).db, None)
  {
  }

  lemma TakeKeeps(d0: Db, s: System, w: nat)
    requires Inv(d0, s) && Enabled(s, Take(w))
    ensures Inv(d0, TakeItem(s, w))
  {
    FreshLease(d0, s.db);
    TakeAppends(s, w);
    hide DbInv, OnlyAppends;
    var item, e := s.workers[w].items[0], TakeItem(s, w);
    if !HasAttemptsLeft(item) {
      ManualReviewKeeps(d0, s.db, item.id);
    } else if CanLease(s.db, item.id) {
      GrantKeeps(d0, s.db, item.id);
      assert HolderAgrees(e.db, e.workers[w]);
    }
    hide Inv;
    PutKeeps(d0, s, e.db, w, e.workers[w], None);
  }

  lemma FinishKeeps(d0: Db, s: System, w: nat, outcome: Outcome)
    requires Inv(d0, s) && Enabled(s, Finish(w, outcome))
    ensures Inv(d0, FinishItem(s, w, outcome))
  {
    hide DbInv;
    var c := s.workers[w].current;
    if outcome == Success && Holds(s.db, c.id, c.lease) {
      CompletionKeeps(d0, s.db, c.id, c.lease, c.number);
      PutKeeps(d0, s, FinishItem(s, w, outcome).db, w, s.workers[w].(current := Nothing), Some(c.lease));
    } else {
      PutKeeps(d0, s, s.db, w, FinishItem(s, w, outcome).workers[w], None);
    }
  }

  lemma InitialInv(s0: System)
    requires Initial(s0)
    ensures Inv(s0.db, s0)
  {
  }

  lemma {:induction false} RunKeeps(s0: System, es: seq<Event>)
    requires Initial(s0)
    ensures Inv(s0.db, Run(s0, es))
  {
    hide Inv, Step, Initial;
    if |es| == 0 {
      InitialInv(s0);
    } else {
      RunKeeps(s0, es[..|es| - 1]);
      StepKeeps(s0.db, Run(s0, es[..|es| - 1]), es[|es| - 1]);
    }
  }
}
