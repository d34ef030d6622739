/** The promises of the evaluation queue, for every schedule of overlapping runs, expiries and crashes. */
module QueueSafety {
  import opened Common
  import opened EvaluationQueue
  import opened QueueInvariants
  import QueueBounds

  // ------------------------------------------------------------------ results

  /** A row has one evaluation if it is completed and none otherwise. */
  lemma OneEvaluationPerCompletedRow(s0: System, es: seq<Event>, id: nat)
    requires Initial(s0) && id in Run(s0, es).db.queue
    ensures var d := Run(s0, es).db;
      Count(d.evaluations, EvaluationOf(id)) == if d.queue[id].status == Completed then 1 else 0
  {
    RunKeeps(s0, es);
  }

  /** No statement of any run can change this row again. */
  ghost predicate Settled(r: Row) {
    r.lease == None && r.status in {Completed, Superseded, SkippedArchived, NeedsManualReview}
  }

  lemma {:induction false} SettledRowsNeverChange(s: System, es: seq<Event>, id: nat)
    requires id in s.db.queue && Settled(s.db.queue[id])
    ensures id in Run(s, es).db.queue && Run(s, es).db.queue[id] == s.db.queue[id]
  {
    if |es| != 0 { SettledRowsNeverChange(s, es[..|es| - 1], id); }
  }

  /** Once completed, a row stays exactly as it is: it is completed at most once. */
  lemma CompletedIsFinal(s0: System, es: seq<Event>, more: seq<Event>, id: nat)
    requires Initial(s0) && id in Run(s0, es).db.queue && Run(s0, es).db.queue[id].status == Completed
    ensures id in Run(s0, es + more).db.queue && Run(s0, es + more).db.queue[id] == Run(s0, es).db.queue[id]
    ensures Count(Run(s0, es + more).db.evaluations, EvaluationOf(id)) == 1
  {
    RunKeeps(s0, es);
    QueueBounds.RunConcat(s0, es, more);
    SettledRowsNeverChange(Run(s0, es), more, id);
    OneEvaluationPerCompletedRow(s0, es + more, id);
  }

  // ------------------------------------------------------------------ fencing

  /** What a run can still send once it holds a lease. */
  predicate ByHolder(e: Event) {
    e.Beat? || e.Finish? || e.Record? || e.Settle?
  }

  /** A run whose lease was replaced writes nothing at all. */
  lemma ReplacedHolderWritesNothing(s: System, e: Event)
    requires ByHolder(e) && Holding(s, e.w) && !Holds(s.db, s.workers[e.w].current.id, s.workers[e.w].current.lease)
    ensures Step(s, e).db == s.db
  {
  }

  /** A lease a row has lost never comes back to it. */
  lemma {:induction false} LostFenceStaysLost(s: System, es: seq<Event>, id: nat, lease: nat)
    requires lease < |s.db.leases| && !Holds(s.db, id, lease)
    ensures lease < |Run(s, es).db.leases| && !Holds(Run(s, es).db, id, lease)
  {
    if |es| != 0 { LostFenceStaysLost(s, es[..|es| - 1], id, lease); }
  }

  /** Until its lease expires, a leased row changes only by what its holder sends. */
  lemma UnexpiredLeaseExcludesOthers(s: System, e: Event, id: nat, lease: nat)
    requires Holds(s.db, id, lease) && s.db.queue[id].status == Evaluating && !Expired(s.db.queue[id], s.db.clock)
    requires !(ByHolder(e) && Holding(s, e.w) && s.workers[e.w].current.lease == lease)
    ensures id in Step(s, e).db.queue && Step(s, e).db.queue[id] == s.db.queue[id]
  {
  }

  // ------------------------------------------------------------------ attempt rows

  /** The leases granted on a row. */
  ghost function LeasesOf(leases: seq<Lease>, id: nat): set<nat> {
    set l | 0 <= l < |leases| && leases[l].item == id
  }

  /** The leases of a row that wrote an attempt row. */
  ghost function RecordedLeases(attempts: seq<Attempt>, id: nat): set<nat> {
    set i | 0 <= i < |attempts| && attempts[i].item == id :: attempts[i].lease
  }

  lemma LeasesSnoc(leases: seq<Lease>, last: Lease, id: nat)
    ensures LeasesOf(leases + [last], id) == LeasesOf(leases, id) + (if last.item == id then {|leases|} else {})
  {
  }

  lemma {:induction false} CountLeases(leases: seq<Lease>, id: nat)
    ensures |LeasesOf(leases, id)| == Count(leases, LeaseOf(id))
  {
    if |leases| != 0 {
      var n := |leases| - 1;
      CountLeases(leases[..n], id);
      LeasesSnoc(leases[..n], leases[n], id);
      assert leases[..n] + [leases[n]] == leases;
    }
  }

  lemma RecordedSnoc(attempts: seq<Attempt>, last: Attempt, id: nat)
    ensures RecordedLeases(attempts + [last], id) ==
      RecordedLeases(attempts, id) + (if last.item == id then {last.lease} else {})
  {
    var all := attempts + [last];
    assert all[|attempts|] == last;
    forall l | l in RecordedLeases(attempts, id) ensures l in RecordedLeases(all, id) {
      var i :| 0 <= i < |attempts| && attempts[i].item == id && attempts[i].lease == l;
      assert all[i] == attempts[i];
    }
  }

  lemma {:induction false} CountRecorded(attempts: seq<Attempt>, id: nat)
    requires forall i, j :: 0 <= i < j < |attempts| ==> attempts[i].lease != attempts[j].lease
    ensures |RecordedLeases(attempts, id)| == Count(attempts, AttemptOf(id))
  {
    if |attempts| != 0 {
      var n := |attempts| - 1;
      var before := attempts[..n];
      CountRecorded(before, id);
      RecordedSnoc(before, attempts[n], id);
      assert before + [attempts[n]] == attempts;
      assert attempts[n].lease !in RecordedLeases(before, id);
    }
  }

  lemma SubsetIsSmaller(a: set<nat>, b: set<nat>)
    requires a <= b
    ensures |a| <= |b|
  {
    assert b == a + (b - a);
  }

  /** A row's attempt rows carry different numbers and are at most the leases granted on it. */
  lemma AttemptRowsAreDistinct(s0: System, es: seq<Event>)
    requires Initial(s0)
    ensures var d := Run(s0, es).db;
      && (forall i, j :: 0 <= i < j < |d.attempts| && d.attempts[i].item == d.attempts[j].item ==>
            d.attempts[i].number != d.attempts[j].number)
      && d.queue.Keys == s0.db.queue.Keys
      && (forall id :: id in s0.db.queue ==>
            Count(d.attempts, AttemptOf(id)) <= d.queue[id].attempts - s0.db.queue[id].attempts)
  {
    RunKeeps(s0, es);
    var d := Run(s0, es).db;
    forall id | id in s0.db.queue
      ensures Count(d.attempts, AttemptOf(id)) <= d.queue[id].attempts - s0.db.queue[id].attempts
    {
      CountLeases(d.leases, id);
      CountRecorded(d.attempts, id);
      SubsetIsSmaller(RecordedLeases(d.attempts, id), LeasesOf(d.leases, id));
    }
  }

  // ------------------------------------------------------------------ conservation

  /** Attempts grow by the leases granted, and the maximum by the rate-limited deferrals. */
  lemma AttemptsAreConserved(s0: System, es: seq<Event>, id: nat)
    requires Initial(s0) && id in s0.db.queue
    ensures var d := Run(s0, es).db;
      && id in d.queue
      && d.queue[id].attempts == s0.db.queue[id].attempts + Count(d.leases, LeaseOf(id))
      && SqlMax(d.queue[id].maxAttempts) == SqlMax(s0.db.queue[id].maxAttempts) + Count(d.leases, DeferralOf(id))
  {
    RunKeeps(s0, es);
  }

  /** Leases that did not end in a rate limit. */
  function SpentLease(id: nat): Lease -> bool { (l: Lease) => l.item == id && l.fate != RateLimited }

  lemma {:induction false} LeasesSplit(leases: seq<Lease>, id: nat)
    ensures Count(leases, LeaseOf(id)) == Count(leases, DeferralOf(id)) + Count(leases, SpentLease(id))
  {
    if |leases| != 0 { LeasesSplit(leases[..|leases| - 1], id); }
  }

  /** Rows that wait carry no lease. */
  ghost predicate WaitingRowsAreFree(d: Db) {
    forall id :: id in d.queue && d.queue[id].status in {Pending, RetryWait} ==> d.queue[id].lease == None
  }

  lemma {:induction false} WaitingRowsStayFree(s0: System, es: seq<Event>)
    requires Initial(s0)
    ensures WaitingRowsAreFree(Run(s0, es).db)
  {
    if |es| != 0 {
      WaitingRowsStayFree(s0, es[..|es| - 1]);
      var s, e := Run(s0, es[..|es| - 1]), es[|es| - 1];
      var t := Step(s, e);
      assert t.db.queue.Keys == s.db.queue.Keys;
      forall id | id in t.db.queue && t.db.queue[id].status in {Pending, RetryWait}
        ensures t.db.queue[id].lease == None
      {
        assert t.db.queue[id] == s.db.queue[id] || (e.Settle? && t.db.queue[id].lease == None);
      }
    }
  }

  /** The row's lease is still running: held and not expired. */
  predicate Live(d: Db, id: nat, lease: nat) {
    Holds(d, id, lease) && !Expired(d.queue[id], d.clock)
  }

  predicate EntersReview(s: System, e: Event, id: nat) {
    && id in s.db.queue && s.db.queue[id].status != NeedsManualReview
    && id in Step(s, e).db.queue && Step(s, e).db.queue[id].status == NeedsManualReview
  }

  lemma ReviewGuard(s: System, e: Event, id: nat)
    requires EntersReview(s, e, id)
    ensures Takeable(s.db.queue[id], s.db.clock) && s.db.queue[id].attempts >= SqlMax(s.db.queue[id].maxAttempts)
  {
  }

  /**
   A run that moves a row to manual review, however old its snapshot, does so only after at least
   (initial maximum - initial attempts) leases of that row ended without a rate limit.
   */
  lemma ManualReviewCostsRealAttempts(s0: System, es: seq<Event>, e: Event, id: nat)
    requires Initial(s0) && id in s0.db.queue && EntersReview(Run(s0, es), e, id)
    ensures var d := Run(s0, es).db;
      && Count(d.leases, SpentLease(id)) >= SqlMax(s0.db.queue[id].maxAttempts) - s0.db.queue[id].attempts
      && forall l :: 0 <= l < |d.leases| && d.leases[l].item == id ==> !Live(d, id, l)
  {
    var s := Run(s0, es);
    ReviewGuard(s, e, id);
    hide Run, Step;
    WaitingRowsStayFree(s0, es);
    AttemptsAreConserved(s0, es, id);
    LeasesSplit(s.db.leases, id);
  }

  // ------------------------------------------------------------------ manual review is not final

  /** Some run still holds the lease left on the row. */
  ghost predicate StillHeld(s: System, id: nat) {
    exists w :: 0 <= w < |s.workers| && HoldsRow(s, w, id)
  }

  predicate HoldsRow(s: System, w: nat, id: nat) {
    Holding(s, w) && s.workers[w].current.id == id && Holds(s.db, id, s.workers[w].current.lease)
  }

  lemma {:induction false} UnheldReviewNeverChanges(d0: Db, s: System, es: seq<Event>, id: nat)
    requires Inv(d0, s) && id in s.db.queue && s.db.queue[id].status == NeedsManualReview && !StillHeld(s, id)
    ensures var t := Run(s, es);
      id in t.db.queue && t.db.queue[id] == s.db.queue[id] && Inv(d0, t) && !StillHeld(t, id)
  {
    if |es| != 0 {
      var t, e := Run(s, es[..|es| - 1]), es[|es| - 1];
      UnheldReviewNeverChanges(d0, s, es[..|es| - 1], id);
      StepKeeps(d0, t, e);
      UnheldStep(d0, t, e, id);
    }
  }

  lemma UnheldStep(d0: Db, s: System, e: Event, id: nat)
    requires Inv(d0, s) && id in s.db.queue && s.db.queue[id].status == NeedsManualReview && !StillHeld(s, id)
    ensures id in Step(s, e).db.queue && Step(s, e).db.queue[id] == s.db.queue[id] && !StillHeld(Step(s, e), id)
  {
    var t := Step(s, e);
    assert s.db.queue[id].lease.Some? ==> s.db.queue[id].lease.value < |s.db.leases|;
    hide Inv, DbInv;
    UnheldRow(s, e, id);
    forall w | 0 <= w < |t.workers| ensures !HoldsRow(t, w, id) {
      assert !HoldsRow(s, w, id) by { CurrentAfter(s, e, w); }
      CurrentAfter(s, e, w);
    }
  }

  lemma UnheldRow(s: System, e: Event, id: nat)
    requires id in s.db.queue && s.db.queue[id].status == NeedsManualReview && !StillHeld(s, id)
    ensures id in Step(s, e).db.queue && Step(s, e).db.queue[id] == s.db.queue[id]
  {
    if ByHolder(e) && e.w < |s.workers| { assert !HoldsRow(s, e.w, id); }
  }

  /** A run comes to hold a lease only by being granted a new one. */
  lemma CurrentAfter(s: System, e: Event, w: nat)
    requires w < |Step(s, e).workers|
    ensures w < |s.workers|
    ensures Holding(Step(s, e), w) ==>
      || Step(s, e).workers[w].current.lease == |s.db.leases|
      || (Holding(s, w) && s.workers[w].current.lease == Step(s, e).workers[w].current.lease
          && s.workers[w].current.id == Step(s, e).workers[w].current.id)
  {
  }

  /** The holder finishes: a success completes the row, a failure puts it back in line. */
  lemma HolderLeavesReview(s: System, w: nat, id: nat) returns (es: seq<Event>)
    requires w < |s.workers| && HoldsRow(s, w, id) && s.db.queue[id].status == NeedsManualReview
    ensures id in Run(s, es).db.queue && Run(s, es).db.queue[id] != s.db.queue[id]
    ensures s.workers[w].current.stage == Working ==> Run(s, es).db.queue[id].status == Completed
  {
    hide Run;
    var c := s.workers[w].current;
    if c.stage == Working {
      es := [Finish(w, Success)];
      QueueBounds.RunOne(s, Finish(w, Success));
    } else {
      var t := if c.stage.recorded then s else Step(s, Record(w));
      assert HoldsRow(t, w, id) && t.workers[w].current.stage.recorded && t.db.queue == s.db.queue;
      var before := if c.stage.recorded then [] else [Record(w)];
      QueueBounds.RunNone(s);
      QueueBounds.RunOne(s, Record(w));
      es := before + [Settle(w, 0)];
      QueueBounds.RunOne(t, Settle(w, 0));
      QueueBounds.RunConcat(s, before, [Settle(w, 0)]);
    }
  }

  /** Manual review is left behind by some schedule exactly when a run still holds the row's lease. */
  lemma ReviewIsFinalExactly(s0: System, es: seq<Event>, id: nat)
    requires Initial(s0) && id in Run(s0, es).db.queue && Run(s0, es).db.queue[id].status == NeedsManualReview
    ensures (exists more :: id !in Run(Run(s0, es), more).db.queue ||
                            Run(Run(s0, es), more).db.queue[id] != Run(s0, es).db.queue[id])
       <==> StillHeld(Run(s0, es), id)
  {
    var s := Run(s0, es);
    RunKeeps(s0, es);
    if StillHeld(s, id) {
      var w :| 0 <= w < |s.workers| && HoldsRow(s, w, id);
      var more := HolderLeavesReview(s, w, id);
    } else {
      forall more ensures id in Run(s, more).db.queue && Run(s, more).db.queue[id] == s.db.queue[id] {
        UnheldReviewNeverChanges(s0.db, s, more, id);
      }
    }
  }

  lemma ReviewEffect(t: System, w: nat, item: Snapshot)
    requires w < |t.workers| && t.workers[w] == Running([item], Nothing) && !HasAttemptsLeft(item)
    ensures Step(t, Take(w)) == Put(t, MoveToManualReview(t.db, item.id), w, Running([], Nothing))
  {
    assert [item][1..] == [];
  }

  /** It does happen: a run's last attempt expires, another run sends the row to review, the first completes it. */
  lemma ReviewThenCompleted(s: System, id: nat) returns (first: seq<Event>, all: seq<Event>)
    requires QueueBounds.Lone(s, id) && |s.workers| >= 2
    requires s.db.queue[id].maxAttempts == Some(s.db.queue[id].attempts + 1) && s.db.queue[id].attempts >= 0
    ensures first <= all
    ensures id in Run(s, first).db.queue && Run(s, first).db.queue[id].status == NeedsManualReview
    ensures id in Run(s, all).db.queue && Run(s, all).db.queue[id].status == Completed
  {
    hide Run;
    var e0, e1, e2, e3, e4 :=
      Start(0, {}, {}, [id]), Take(0), Tick(LEASE_SECONDS + 1), Start(1, {}, {}, [id]), Take(1);
    var t1, t2 := Step(s, e0), Step(Step(s, e0), e1);
    var t3 := t2.(db := t2.db.(clock := t2.db.clock + LEASE_SECONDS + 1));
    assert Step(t2, e2) == t3;
    hide Step;
    QueueBounds.StartEffect(s, 0, id);
    QueueBounds.TakeEffect(t1, 0, SnapshotOf(s.db, id));
    var t4, t5 := Step(t3, e3), Step(Step(t3, e3), e4);
    QueueBounds.StartEffect(t3, 1, id);
    ReviewEffect(t4, 1, SnapshotOf(t3.db, id));
    assert HoldsRow(t5, 0, id);
    var last := HolderLeavesReview(t5, 0, id);
    QueueBounds.RunFour(s, e0, e1, e2, e3);
    QueueBounds.RunOne(t4, e4);
    QueueBounds.RunConcat(s, [e0, e1, e2, e3], [e4]);
    first := [e0, e1, e2, e3] + [e4];
    all := first + last;
    QueueBounds.RunConcat(s, first, last);
  }

  // ------------------------------------------------------------------ waiting

  /** A retry waits 30 seconds to half an hour, doubling with each attempt until it reaches the half hour. */
  lemma {:induction false} BackoffDoublesToItsCap(n: nat)
    ensures 30 <= Backoff(n) <= 1800
    ensures Backoff(n + 1) == (if 2 * Backoff(n) < 1800 then 2 * Backoff(n) else 1800)
    ensures Backoff(n) == 1800 <==> n >= 6
  {
    if n >= 6 {
      Power2Grows(6, n);
      Power2Grows(6, n + 1);
      assert Power2(6) == 64;
    } else {
      Power2Grows(0, n);
      Power2Grows(n, 5);
      assert Power2(5) == 32;
    }
  }

  lemma {:induction false} Power2Grows(a: nat, b: nat)
    requires a <= b
    ensures 1 <= Power2(a) <= Power2(b)
  {
    if a < b { Power2Grows(a, b - 1); } else if a > 0 { Power2Grows(a - 1, a - 1); }
  }
}
