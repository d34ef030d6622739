/**
 What becomes of the jobs that wait for routing when the reconciliation is applied again and again and nothing else
 happens: which keep being counted, and which get their task in the end.
 */
module ReconcileRuns {
  import opened Common
  import opened Reconcile

  /** The tasks after `n` further applied runs in which nothing else happens. */
  function Runs(jobs: seq<Job>, tasks: Tasks, n: nat): Tasks {
    if n == 0 then tasks
    else
      var before := Runs(jobs, tasks, n - 1);
      EnqueueAll(before, Awaiting(jobs, before), jobs)
  }

  /** How many of the jobs wait without hope. */
  function StuckWaiting(jobs: seq<Job>, tasks: Tasks): nat {
    if |jobs| == 0 then 0
    else
      var n := |jobs| - 1;
      StuckWaiting(jobs[..n], tasks) + (if StuckAt(jobs[n], n, tasks) then 1 else 0)
  }

  predicate StuckAt(j: Job, id: nat, tasks: Tasks) { AwaitsRouting(j, id, tasks) && Stuck(j, id, tasks) }

  lemma EnqueueKeepsStuck(tasks: Tasks, k: nat, j: Job, id: nat, o: Job)
    requires Stuck(o, id, tasks)
    ensures Stuck(o, id, Enqueue(tasks, k, j))
  {
  }

  lemma {:induction false} EnqueueAllKeepsStuck(tasks: Tasks, ids: seq<nat>, jobs: seq<Job>, id: nat, o: Job)
    requires Within(ids, |jobs|) && Stuck(o, id, tasks)
    ensures Stuck(o, id, EnqueueAll(tasks, ids, jobs))
  {
    if |ids| != 0 {
      hide Enqueue, Stuck;
      var n := |ids| - 1;
      EnqueueAllKeepsStuck(tasks, ids[..n], jobs, id, o);
      EnqueueKeepsStuck(EnqueueAll(tasks, ids[..n], jobs), ids[n], jobs[ids[n]], id, o);
    }
  }

  /** A run leaves a stuck waiting job stuck and waiting. */
  lemma StuckStays(jobs: seq<Job>, tasks: Tasks, id: nat)
    requires KeyedByJob(tasks) && id < |jobs| && StuckAt(jobs[id], id, tasks)
    ensures StuckAt(jobs[id], id, EnqueueAll(tasks, Awaiting(jobs, tasks), jobs))
  {
    hide Stuck, HasActiveTask, KeyedByJob, Awaiting, EnqueueAll;
    var ids := Awaiting(jobs, tasks);
    EnqueueAllKeepsStuck(tasks, ids, jobs, id, jobs[id]);
    if id in ids { EnqueueAllActivates(tasks, ids, jobs, id); } else { EnqueueAllLeavesOthers(tasks, ids, jobs, id); }
  }

  lemma {:induction false} StuckStayInAllRuns(jobs: seq<Job>, tasks: Tasks, n: nat, id: nat)
    requires KeyedByJob(tasks) && id < |jobs| && StuckAt(jobs[id], id, tasks)
    ensures KeyedByJob(Runs(jobs, tasks, n)) && StuckAt(jobs[id], id, Runs(jobs, tasks, n))
  {
    if n != 0 {
      hide StuckAt, KeyedByJob, Awaiting, EnqueueAll;
      StuckStayInAllRuns(jobs, tasks, n - 1, id);
      var before := Runs(jobs, tasks, n - 1);
      StuckStays(jobs, before, id);
      EnqueueAllKeyed(before, Awaiting(jobs, before), jobs);
    }
  }

  /** Fewer rows before a row are returned after jobs stopped waiting, so a row that still waits keeps its place. */
  lemma {:induction false} PlacesOnlyImprove(jobs: seq<Job>, before: Tasks, after: Tasks, id: nat)
    requires forall i: nat :: i < |jobs| ==> AwaitsRouting(jobs[i], i, after) ==> AwaitsRouting(jobs[i], i, before)
    ensures |Awaiting(jobs, after)| <= |Awaiting(jobs, before)|
    ensures id < |jobs| && id in Awaiting(jobs, before) && AwaitsRouting(jobs[id], id, after) ==>
      id in Awaiting(jobs, after)
  {
    if |jobs| != 0 {
      hide AwaitsRouting;
      var n := |jobs| - 1;
      forall i: nat | i < n ensures jobs[..n][i] == jobs[i] {
      }
      PlacesOnlyImprove(jobs[..n], before, after, id);
    }
  }

  /** A run makes no job wait that did not. */
  lemma NobodyStartsWaiting(jobs: seq<Job>, tasks: Tasks, id: nat)
    requires KeyedByJob(tasks) && id < |jobs|
    requires AwaitsRouting(jobs[id], id, EnqueueAll(tasks, Awaiting(jobs, tasks), jobs))
    ensures AwaitsRouting(jobs[id], id, tasks)
  {
    hide Stuck, HasActiveTask, KeyedByJob, Awaiting, EnqueueAll;
    var ids := Awaiting(jobs, tasks);
    if id !in ids { EnqueueAllLeavesOthers(tasks, ids, jobs, id); }
  }

  lemma PlaceIsKept(jobs: seq<Job>, tasks: Tasks, id: nat)
    requires KeyedByJob(tasks) && id in Awaiting(jobs, tasks) && id < |jobs| && StuckAt(jobs[id], id, tasks)
    ensures id in Awaiting(jobs, EnqueueAll(tasks, Awaiting(jobs, tasks), jobs))
  {
    hide Awaiting, EnqueueAll, KeyedByJob, Stuck, HasActiveTask;
    StuckStays(jobs, tasks, id);
    var after := EnqueueAll(tasks, Awaiting(jobs, tasks), jobs);
    assert AwaitsRouting(jobs[id], id, after);
    hide AwaitsRouting;
    forall i: nat | i < |jobs| && AwaitsRouting(jobs[i], i, after) ensures AwaitsRouting(jobs[i], i, tasks) {
      NobodyStartsWaiting(jobs, tasks, i);
    }
    PlacesOnlyImprove(jobs, tasks, after, id);
  }

  /** A stuck job that is counted is counted again by every later run: it keeps its place among the LIMIT rows. */
  lemma {:induction false} StuckKeepsItsPlace(jobs: seq<Job>, tasks: Tasks, n: nat, id: nat)
    requires KeyedByJob(tasks) && id in Awaiting(jobs, tasks) && id < |jobs| && StuckAt(jobs[id], id, tasks)
    ensures id in Awaiting(jobs, Runs(jobs, tasks, n))
  {
    hide Awaiting, EnqueueAll, KeyedByJob, StuckAt;
    if n != 0 {
      StuckKeepsItsPlace(jobs, tasks, n - 1, id);
      StuckStayInAllRuns(jobs, tasks, n - 1, id);
      PlaceIsKept(jobs, Runs(jobs, tasks, n - 1), id);
    }
  }

  lemma {:induction false} StuckFillTheLimit(jobs: seq<Job>, tasks: Tasks)
    ensures |Awaiting(jobs, tasks)| >= if StuckWaiting(jobs, tasks) < LIMIT then StuckWaiting(jobs, tasks) else LIMIT
  {
    if |jobs| != 0 { StuckFillTheLimit(jobs[..|jobs| - 1], tasks); }
  }

  /** Once the rows before it fill the limit, a row is not returned. */
  lemma {:induction false} BehindTheLimit(jobs: seq<Job>, tasks: Tasks, k: nat)
    requires k <= |jobs| && |Awaiting(jobs[..k], tasks)| == LIMIT
    ensures Awaiting(jobs, tasks) == Awaiting(jobs[..k], tasks)
  {
    if k == |jobs| {
      assert jobs[..k] == jobs;
    } else {
      var n := |jobs| - 1;
      assert jobs[..n][..k] == jobs[..k];
      BehindTheLimit(jobs[..n], tasks, k);
    }
  }

  lemma {:induction false} StuckCountStays(jobs: seq<Job>, tasks: Tasks, n: nat, k: nat)
    requires KeyedByJob(tasks) && k <= |jobs|
    ensures StuckWaiting(jobs[..k], Runs(jobs, tasks, n)) >= StuckWaiting(jobs[..k], tasks)
  {
    if k != 0 {
      hide StuckAt, KeyedByJob, Runs;
      assert jobs[..k][..k - 1] == jobs[..k - 1];
      StuckCountStays(jobs, tasks, n, k - 1);
      if StuckAt(jobs[k - 1], k - 1, tasks) { StuckStayInAllRuns(jobs, tasks, n, k - 1); }
    }
  }

  lemma NotReturned(jobs: seq<Job>, tasks: Tasks, id: nat)
    requires id < |jobs| && StuckWaiting(jobs[..id], tasks) >= LIMIT
    ensures id !in Awaiting(jobs, tasks)
  {
    hide AwaitsRouting, StuckWaiting;
    StuckFillTheLimit(jobs[..id], tasks);
    BehindTheLimit(jobs, tasks, id);
    var ids := Awaiting(jobs[..id], tasks);
    assert forall i :: 0 <= i < |ids| ==> ids[i] < id;
  }

  lemma {:induction false} RunsAreKeyed(jobs: seq<Job>, tasks: Tasks, n: nat)
    requires KeyedByJob(tasks)
    ensures KeyedByJob(Runs(jobs, tasks, n))
  {
    hide KeyedByJob, Awaiting, EnqueueAll;
    if n != 0 {
      RunsAreKeyed(jobs, tasks, n - 1);
      EnqueueAllKeyed(Runs(jobs, tasks, n - 1), Awaiting(jobs, Runs(jobs, tasks, n - 1)), jobs);
    }
  }

  /** LIMIT stuck jobs in front starve every job behind them: no later run ever queues it a task. */
  lemma {:induction false} StuckJobsStarveTheRest(jobs: seq<Job>, tasks: Tasks, n: nat, id: nat)
    requires KeyedByJob(tasks) && id < |jobs| && StuckWaiting(jobs[..id], tasks) >= LIMIT
    ensures id !in Awaiting(jobs, Runs(jobs, tasks, n))
    ensures HasActiveTask(Runs(jobs, tasks, n), id) <==> HasActiveTask(tasks, id)
  {
    hide KeyedByJob, HasActiveTask, StuckWaiting, Awaiting, EnqueueAll;
    StuckCountStays(jobs, tasks, n, id);
    NotReturned(jobs, Runs(jobs, tasks, n), id);
    if n != 0 {
      var before := Runs(jobs, tasks, n - 1);
      StuckJobsStarveTheRest(jobs, tasks, n - 1, id);
      RunsAreKeyed(jobs, tasks, n - 1);
      EnqueueAllLeavesOthers(before, Awaiting(jobs, before), jobs, id);
    }
  }

  // ------------------------------------------------------------------ who is queued in the end

  /** The job waits, and a run that returns it queues its task. */
  predicate HopefulAt(j: Job, id: nat, tasks: Tasks) { AwaitsRouting(j, id, tasks) && !Stuck(j, id, tasks) }

  function HopefulWaiting(jobs: seq<Job>, tasks: Tasks): nat {
    if |jobs| == 0 then 0
    else
      var n := |jobs| - 1;
      HopefulWaiting(jobs[..n], tasks) + (if HopefulAt(jobs[n], n, tasks) then 1 else 0)
  }

  function OneRun(jobs: seq<Job>, tasks: Tasks): Tasks { EnqueueAll(tasks, Awaiting(jobs, tasks), jobs) }

  /** A run makes no job stuck or hopeful that was not, frees no stuck one, and takes the hopeful ones it returns. */
  lemma RunEffect(jobs: seq<Job>, tasks: Tasks, id: nat)
    requires KeyedByJob(tasks) && id < |jobs|
    ensures StuckAt(jobs[id], id, OneRun(jobs, tasks)) <==> StuckAt(jobs[id], id, tasks)
    ensures HopefulAt(jobs[id], id, OneRun(jobs, tasks)) <==>
      HopefulAt(jobs[id], id, tasks) && id !in Awaiting(jobs, tasks)
    ensures HopefulAt(jobs[id], id, tasks) && id in Awaiting(jobs, tasks) ==> HasActiveTask(OneRun(jobs, tasks), id)
  {
    if StuckAt(jobs[id], id, tasks) { StuckStays(jobs, tasks, id); }
    hide Stuck, HasActiveTask, KeyedByJob, Awaiting, EnqueueAll;
    var ids := Awaiting(jobs, tasks);
    if id in ids { EnqueueAllActivates(tasks, ids, jobs, id); } else { EnqueueAllLeavesOthers(tasks, ids, jobs, id); }
  }

  lemma {:induction false} CountsFollow(jobs: seq<Job>, before: Tasks, after: Tasks, h: nat)
    requires forall i: nat :: i < |jobs| ==> (StuckAt(jobs[i], i, after) <==> StuckAt(jobs[i], i, before))
    requires forall i: nat :: i < |jobs| ==> HopefulAt(jobs[i], i, after) ==> HopefulAt(jobs[i], i, before)
    ensures StuckWaiting(jobs, after) == StuckWaiting(jobs, before)
    ensures HopefulWaiting(jobs, after) <= HopefulWaiting(jobs, before)
    ensures h < |jobs| && HopefulAt(jobs[h], h, before) && !HopefulAt(jobs[h], h, after) ==>
      HopefulWaiting(jobs, after) < HopefulWaiting(jobs, before)
  {
    hide StuckAt, HopefulAt;
    if |jobs| != 0 {
      var n := |jobs| - 1;
      forall i: nat | i < n ensures jobs[..n][i] == jobs[i] {
      }
      CountsFollow(jobs[..n], before, after, h);
    }
  }

  lemma {:induction false} SomebodyIsHopeful(jobs: seq<Job>, tasks: Tasks) returns (h: nat)
    requires |Awaiting(jobs, tasks)| > StuckWaiting(jobs, tasks)
    ensures h < |jobs| && h in Awaiting(jobs, tasks) && HopefulAt(jobs[h], h, tasks)
  {
    hide AwaitsRouting, Stuck;
    var n := |jobs| - 1;
    if n in Awaiting(jobs, tasks) && HopefulAt(jobs[n], n, tasks) {
      h := n;
    } else {
      h := SomebodyIsHopeful(jobs[..n], tasks);
    }
  }

  lemma {:induction false} FirstRowsFirst(jobs: seq<Job>, tasks: Tasks, k: nat)
    requires k <= |jobs|
    ensures forall i :: i in Awaiting(jobs[..k], tasks) ==> i in Awaiting(jobs, tasks)
  {
    if k == |jobs| {
      assert jobs[..k] == jobs;
    } else {
      assert jobs[..|jobs| - 1][..k] == jobs[..k];
      FirstRowsFirst(jobs[..|jobs| - 1], tasks, k);
    }
  }

  /** A waiting row is passed over only when the rows before it fill the limit. */
  lemma PassedOverMeansFull(jobs: seq<Job>, tasks: Tasks, id: nat)
    requires id < |jobs| && AwaitsRouting(jobs[id], id, tasks) && id !in Awaiting(jobs, tasks)
    ensures |Awaiting(jobs[..id], tasks)| == LIMIT
  {
    hide AwaitsRouting;
    FirstRowsFirst(jobs, tasks, id + 1);
    assert jobs[..id + 1][..id] == jobs[..id];
  }

  lemma {:induction false} RunsShift(jobs: seq<Job>, tasks: Tasks, n: nat)
    ensures Runs(jobs, OneRun(jobs, tasks), n) == Runs(jobs, tasks, n + 1)
  {
    hide Awaiting, EnqueueAll;
    if n != 0 { RunsShift(jobs, tasks, n - 1); } else { assert Runs(jobs, tasks, 0) == tasks; }
  }

  /** With room left by the stuck jobs before it, a hopeful job gets its turn: every run that passes it over takes a
      hopeful one before it. */
  lemma {:induction false} HopefulIsQueued(jobs: seq<Job>, tasks: Tasks, id: nat) returns (n: nat)
    requires KeyedByJob(tasks) && id < |jobs| && HopefulAt(jobs[id], id, tasks)
    requires StuckWaiting(jobs[..id], tasks) < LIMIT
    ensures HasActiveTask(Runs(jobs, tasks, n), id)
    decreases HopefulWaiting(jobs[..id], tasks)
  {
    hide Awaiting, EnqueueAll, KeyedByJob, HasActiveTask, Stuck, AwaitsRouting, StuckWaiting, HopefulWaiting;
    var after := OneRun(jobs, tasks);
    RunEffect(jobs, tasks, id);
    if id in Awaiting(jobs, tasks) {
      n := 1;
      RunsShift(jobs, tasks, 0);
      assert Runs(jobs, after, 0) == after;
    } else {
      PassedOverMeansFull(jobs, tasks, id);
      var h := SomebodyIsHopeful(jobs[..id], tasks);
      FirstRowsFirst(jobs, tasks, id);
      PrefixEffect(jobs, tasks, id, h);
      EnqueueAllKeyed(tasks, Awaiting(jobs, tasks), jobs);
      var m := HopefulIsQueued(jobs, after, id);
      RunsShift(jobs, tasks, m);
      n := m + 1;
    }
  }

  lemma PrefixEffect(jobs: seq<Job>, tasks: Tasks, id: nat, h: nat)
    requires KeyedByJob(tasks) && h < id < |jobs| && h in Awaiting(jobs, tasks) && HopefulAt(jobs[h], h, tasks)
    ensures StuckWaiting(jobs[..id], OneRun(jobs, tasks)) == StuckWaiting(jobs[..id], tasks)
    ensures HopefulWaiting(jobs[..id], OneRun(jobs, tasks)) < HopefulWaiting(jobs[..id], tasks)
  {
    hide Awaiting, EnqueueAll, KeyedByJob, HasActiveTask, Stuck, AwaitsRouting, StuckAt, HopefulAt, OneRun;
    var after := OneRun(jobs, tasks);
    forall i: nat | i < id
      ensures jobs[..id][i] == jobs[i]
      ensures StuckAt(jobs[i], i, after) <==> StuckAt(jobs[i], i, tasks)
      ensures HopefulAt(jobs[i], i, after) <==> HopefulAt(jobs[i], i, tasks) && i !in Awaiting(jobs, tasks)
    {
      RunEffect(jobs, tasks, i);
    }
    CountsFollow(jobs[..id], tasks, after, h);
  }

  /** A waiting job for which there is hope is queued by some later run if and only if fewer than LIMIT stuck jobs wait
      before it. */
  lemma QueuedInTheEndExactly(jobs: seq<Job>, tasks: Tasks, id: nat)
    requires KeyedByJob(tasks) && id < |jobs| && AwaitsRouting(jobs[id], id, tasks) && !Stuck(jobs[id], id, tasks)
    ensures (exists n :: HasActiveTask(Runs(jobs, tasks, n), id)) <==> StuckWaiting(jobs[..id], tasks) < LIMIT
  {
    assert !HasActiveTask(tasks, id) && HopefulAt(jobs[id], id, tasks);
    hide HasActiveTask, Runs, StuckWaiting, KeyedByJob;
    if StuckWaiting(jobs[..id], tasks) < LIMIT {
      var n := HopefulIsQueued(jobs, tasks, id);
    } else {
      forall n: nat ensures !HasActiveTask(Runs(jobs, tasks, n), id) { StuckJobsStarveTheRest(jobs, tasks, n, id); }
    }
  }
}
