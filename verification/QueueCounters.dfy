/** What the runs report together, against what the tables show: no deferral, retry or review goes uncounted. */
module QueueCounters {
  import opened Common
  import opened EvaluationQueue
  import opened QueueRunner
  import QueueBounds
  import QueueSafety

  const ZERO := Stats(0, 0, 0, 0)

  /** One counter, summed over the first `n` run slots. */
  function Reported(s: System, es: seq<Event>, n: nat, counter: Stats -> nat): nat {
    if n == 0 then 0 else Reported(s, es, n - 1, counter) + counter(Tally(s, es, n - 1, ZERO))
  }

  function FailureCounter(limited: bool): Stats -> nat {
    (st: Stats) => if limited then st.rateLimited else st.failed
  }

  function ReviewCounter(): Stats -> nat { (st: Stats) => st.manualReview }

  /** What one event adds to a counter. */
  function Added(s: System, e: Event, counter: Stats -> nat, st: Stats): int {
    if e.Tick? then 0 else counter(TallyStep(s, e, e.w, st)) - counter(st)
  }

  lemma {:induction false} ReportedSnoc(s: System, es: seq<Event>, e: Event, n: nat, counter: Stats -> nat)
    ensures !e.Tick? && e.w < n ==>
      Reported(s, es + [e], n, counter) == Reported(s, es, n, counter) +
        Added(Run(s, es), e, counter, Tally(s, es, e.w, ZERO))
    ensures e.Tick? || e.w >= n ==> Reported(s, es + [e], n, counter) == Reported(s, es, n, counter)
  {
    if n != 0 {
      ReportedSnoc(s, es, e, n - 1, counter);
      assert (es + [e])[..|es|] == es;
    }
  }

  lemma {:induction false} NothingReported(s: System, n: nat, counter: Stats -> nat)
    requires counter(ZERO) == 0
    ensures Reported(s, [], n, counter) == 0
  {
    if n != 0 { NothingReported(s, n - 1, counter); }
  }

  // ------------------------------------------------------------------ evaluations

  function ProcessedCounter(): Stats -> nat { (st: Stats) => st.processed }

  /** Every evaluation row written in a schedule is counted by exactly one run, once. */
  lemma {:induction false} EveryEvaluationIsCountedOnce(s: System, es: seq<Event>)
    ensures |Run(s, es).db.evaluations| == |s.db.evaluations| + Reported(s, es, |s.workers|, ProcessedCounter())
  {
    if |es| == 0 {
      NothingReported(s, |s.workers|, ProcessedCounter());
    } else {
      var rest, e := es[..|es| - 1], es[|es| - 1];
      EveryEvaluationIsCountedOnce(s, rest);
      QueueBounds.RunWorkers(s, rest);
      ReportedSnoc(s, rest, e, |s.workers|, ProcessedCounter());
      assert es == rest + [e];
    }
  }

  // ------------------------------------------------------------------ deferrals and retries

  function EndedBy(limited: bool): Lease -> bool {
    (l: Lease) => l.fate == if limited then RateLimited else Failed
  }

  /** The run is on the failure path of its item. */
  function Failing(limited: bool): Worker -> bool {
    (w: Worker) => w.Running? && w.current.Held? && w.current.stage.Failing? && w.current.stage.rateLimited == limited
  }

  /** Leases that ended so, and runs about to end one so. */
  function Failures(s: System, limited: bool): nat {
    Count(s.db.leases, EndedBy(limited)) + Count(s.workers, Failing(limited))
  }

  lemma StepFailures(s: System, e: Event, limited: bool, st: Stats)
    ensures Failures(Step(s, e), limited) <= Failures(s, limited) + Added(s, e, FailureCounter(limited), st)
  {
    if Enabled(s, e) && !e.Tick? {
      var t := Step(s, e);
      assert t.workers == s.workers[e.w := t.workers[e.w]];
      CountUpdate(s.workers, e.w, t.workers[e.w], Failing(limited));
      StepLeases(s, e, limited);
    }
  }

  lemma StepLeases(s: System, e: Event, limited: bool)
    requires Enabled(s, e)
    ensures Count(Step(s, e).db.leases, EndedBy(limited)) <= Count(s.db.leases, EndedBy(limited)) +
      (if e.Settle? && Failing(limited)(s.workers[e.w]) then 1 else 0)
  {
    var d, t := s.db, Step(s, e);
    if e.Take? && t.db.leases != d.leases {
      CountAppend(d.leases, t.db.leases[|d.leases|], EndedBy(limited));
    } else if (e.Settle? || e.Finish?) && t.db.leases != d.leases {
      var lease := s.workers[e.w].current.lease;
      CountUpdate(d.leases, lease, t.db.leases[lease], EndedBy(limited));
    }
  }

  /** Every rate-limited deferral, and every failed attempt sent to retry, was counted as such by some run, before it
      reached the table. */
  lemma {:induction false} FailuresAreReported(s: System, es: seq<Event>, limited: bool)
    requires Initial(s)
    ensures Failures(Run(s, es), limited) <= Reported(s, es, |s.workers|, FailureCounter(limited))
  {
    hide Step;
    if |es| == 0 {
      CountNone(s.workers, Failing(limited));
      NothingReported(s, |s.workers|, FailureCounter(limited));
    } else {
      var rest, e := es[..|es| - 1], es[|es| - 1];
      FailuresAreReported(s, rest, limited);
      QueueBounds.RunWorkers(s, rest);
      ReportedSnoc(s, rest, e, |s.workers|, FailureCounter(limited));
      assert es == rest + [e];
      StepFailures(Run(s, rest), e, limited, if e.Tick? then ZERO else Tally(s, rest, e.w, ZERO));
    }
  }

  // ------------------------------------------------------------------ manual review

  /** The event moves some row to manual review. */
  ghost predicate SendsToReview(s: System, e: Event) { exists id :: QueueSafety.EntersReview(s, e, id) }

  ghost function Reviews(s: System, es: seq<Event>): nat {
    if |es| == 0 then 0
    else Reviews(s, es[..|es| - 1]) + (if SendsToReview(Run(s, es[..|es| - 1]), es[|es| - 1]) then 1 else 0)
  }

  lemma StepReviews(s: System, e: Event, st: Stats)
    ensures Added(s, e, ReviewCounter(), st) == if SendsToReview(s, e) then 1 else 0
    ensures SendsToReview(s, e) ==> !e.Tick? && e.w < |s.workers|
  {
    if e.Take? && Enabled(s, e) {
      var item := s.workers[e.w].items[0];
      if !HasAttemptsLeft(item) && EntersReview(s.db, item.id) {
        assert QueueSafety.EntersReview(s, e, item.id);
      }
    }
  }

  /** The runs together count exactly the moves of a row to manual review. */
  lemma {:induction false} ReviewsAreReported(s: System, es: seq<Event>)
    ensures Reported(s, es, |s.workers|, ReviewCounter()) == Reviews(s, es)
  {
    hide Step;
    if |es| == 0 {
      NothingReported(s, |s.workers|, ReviewCounter());
    } else {
      var rest, e := es[..|es| - 1], es[|es| - 1];
      ReviewsAreReported(s, rest);
      QueueBounds.RunWorkers(s, rest);
      ReportedSnoc(s, rest, e, |s.workers|, ReviewCounter());
      assert es == rest + [e];
      var t := Run(s, rest);
      StepReviews(t, e, if e.Tick? then ZERO else Tally(s, rest, e.w, ZERO));
      if !e.Tick? && e.w >= |s.workers| { assert !Enabled(t, e); }
    }
  }
}
