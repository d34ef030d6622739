/**
 Reconciling stranded job states. Three rules move jobs, in a fixed order, each by one query and one update; a
 fifth only counts, and the first queues routing tasks. The table holds the jobs of one workspace.
 */
module Reconcile {
  import opened Common

  datatype Status = Prequalified | Unmatched | RoutingDeferred | LaneRouted | Matched | OtherStatus(name: string)

  datatype Job = Job(
    fixture: bool,
    state: Option<Status>,
    status: Option<Status>,
    disposition: Option<string>,
    lane: Option<string>,
    matchRunCompleted: bool,
    profileMatch: Option<string>,
    rejection: Option<string>,
    recommendation: Option<string>,
    gate: Option<string>,
    version: Option<nat>,
    archived: bool)

  /** The newer column wins when it is set. */
  function Effective(j: Job): Option<Status> { if j.state.Some? then j.state else j.status }

  datatype Rule = ToLaneRouted | ToUnmatched | ToMatched

  predicate Matches(rule: Rule, j: Job) {
    && !j.fixture
    && match rule
      case ToLaneRouted =>
        && Effective(j) in {Some(Prequalified), Some(Unmatched), Some(RoutingDeferred)}
        && j.disposition == Some("ROUTED") && j.lane.Some? && j.lane.value != "UNCLASSIFIED"
      case ToUnmatched => Effective(j) == Some(Prequalified) && j.disposition == Some("POLICY_NO_MATCH")
      case ToMatched =>
        Effective(j) == Some(LaneRouted) && j.matchRunCompleted && j.profileMatch == Some("POSITIVE_MATCH")
  }

  function Move(j: Job, s: Status): Job { j.(state := Some(s), status := Some(s)) }

  function Fire(rule: Rule, j: Job): Job {
    match rule
    case ToLaneRouted => Move(j, LaneRouted)
    case ToUnmatched =>
      Move(j, Unmatched).(rejection := if j.rejection.Some? then j.rejection else Some("NO_ACTIVE_LANE_MATCH"))
    case ToMatched => Move(j, Matched)
  }

  function Once(rule: Rule, j: Job): Job { if Matches(rule, j) then Fire(rule, j) else j }

  /** What one applied pass does to a job: the rules in the script's order. */
  function Pass(j: Job): Job { Once(ToMatched, Once(ToUnmatched, Once(ToLaneRouted, j))) }

  // ------------------------------------------------------------------ the rules as a rewriting system

  ghost predicate Normal(j: Job) { forall rule :: !Matches(rule, j) }

  /** Each rule of the list matches the job as the ones before it left it. */
  ghost predicate Legal(j: Job, firing: seq<Rule>)
    decreases |firing|
  {
    |firing| == 0 || (Matches(firing[0], j) && Legal(Fire(firing[0], j), firing[1..]))
  }

  ghost function After(j: Job, firing: seq<Rule>): Job
    decreases |firing|
  {
    if |firing| == 0 then j else After(Fire(firing[0], j), firing[1..])
  }

  /** No rule undoes or preempts another: whichever fires first, the pass ends in the same job. */
  lemma FiringKeepsPass(rule: Rule, j: Job)
    requires Matches(rule, j)
    ensures Pass(Fire(rule, j)) == Pass(j)
  {
  }

  /** How many rules the pass fires at a job. */
  function Fired(j: Job): nat {
    var second := Once(ToLaneRouted, j);
    var third := Once(ToUnmatched, second);
    (if Matches(ToLaneRouted, j) then 1 else 0) + (if Matches(ToUnmatched, second) then 1 else 0)
      + (if Matches(ToMatched, third) then 1 else 0)
  }

  lemma FiringCountsDown(rule: Rule, j: Job)
    requires Matches(rule, j)
    ensures Fired(Fire(rule, j)) + 1 == Fired(j) <= 2
  {
  }

  lemma {:induction false} FiringsAgree(j: Job, firing: seq<Rule>)
    requires Legal(j, firing)
    ensures Pass(After(j, firing)) == Pass(j)
    ensures |firing| + Fired(After(j, firing)) == Fired(j)
    decreases |firing|
  {
    if |firing| != 0 {
      hide Pass, Fire, Matches, Fired;
      FiringKeepsPass(firing[0], j);
      FiringCountsDown(firing[0], j);
      FiringsAgree(Fire(firing[0], j), firing[1..]);
    }
  }

  lemma PassIsNormal(j: Job)
    ensures Normal(Pass(j))
    ensures Normal(j) <==> Pass(j) == j
    ensures Normal(j) <==> Fired(j) == 0
    ensures Fired(j) <= 2
  {
  }

  /** A pass touches only the two state columns, which agree on every job it moves, and the rejection reason, which
      it fills in only where there was none and the job ends unmatched. */
  lemma PassTouches(j: Job)
    ensures var p := Pass(j);
      && p == j.(state := p.state, status := p.status, rejection := p.rejection)
      && (p != j ==> p.state.Some? && p.state == p.status && p.state != Effective(j))
      && (p.rejection != j.rejection ==>
            j.rejection.None? && p.rejection == Some("NO_ACTIVE_LANE_MATCH") && p.state == Some(Unmatched))
  {
  }

  /** Where a pass leaves each job, by its columns alone: a routed job goes to its lane, one that the policy matches
      nowhere to unmatched, and one in its lane with a positive match, or only now brought there, to matched. */
  lemma PassByColumns(j: Job)
    ensures var now := if j.state.Some? then j.state else j.status;
      var routed := j.disposition == Some("ROUTED") && j.lane.Some? && j.lane != Some("UNCLASSIFIED") &&
        now in {Some(Prequalified), Some(Unmatched), Some(RoutingDeferred)};
      var positive := j.matchRunCompleted && j.profileMatch == Some("POSITIVE_MATCH");
      Pass(j) ==
        if j.fixture then j
        else if positive && (routed || now == Some(LaneRouted)) then j.(state := Some(Matched), status := Some(Matched))
        else if routed then j.(state := Some(LaneRouted), status := Some(LaneRouted))
        else if now == Some(Prequalified) && j.disposition == Some("POLICY_NO_MATCH") then
          j.(state := Some(Unmatched), status := Some(Unmatched),
             rejection := Some(if j.rejection.Some? then j.rejection.value else "NO_ACTIVE_LANE_MATCH"))
        else j
    ensures Completed()(j) <==>
      && !j.fixture && j.recommendation.Some?
      && (if j.state.Some? then j.state else j.status) == Some(Matched)
  {
  }

  /** From every job and in whatever order rules are fired, firing ends after the same number of steps, at most two,
      and always with the job the pass computes. */
  lemma UniqueNormalForm(j: Job, firing: seq<Rule>)
    requires Legal(j, firing)
    ensures |firing| <= Fired(j) <= 2
    ensures Normal(After(j, firing)) <==> |firing| == Fired(j)
    ensures Normal(After(j, firing)) <==> After(j, firing) == Pass(j)
  {
    hide Pass, Fired, Normal, Legal, After;
    FiringsAgree(j, firing);
    PassIsNormal(After(j, firing));
    PassIsNormal(j);
  }

  // ------------------------------------------------------------------ counters

  function Hits(rule: Rule): Job -> bool { j => Matches(rule, j) }

  /** Jobs that rules 2 and 4 both move within one pass. */
  function MovedTwice(): Job -> bool { j => Matches(ToLaneRouted, j) && Matches(ToMatched, Fire(ToLaneRouted, j)) }

  function Each(rule: Rule, jobs: seq<Job>): seq<Job> { seq(|jobs|, i requires 0 <= i < |jobs| => Once(rule, jobs[i])) }

  function AllPassed(jobs: seq<Job>): seq<Job> { seq(|jobs|, i requires 0 <= i < |jobs| => Pass(jobs[i])) }

  function DryTotal(jobs: seq<Job>): nat {
    Count(jobs, Hits(ToLaneRouted)) + Count(jobs, Hits(ToUnmatched)) + Count(jobs, Hits(ToMatched))
  }

  function AppliedTotal(jobs: seq<Job>): nat {
    var second := Each(ToLaneRouted, jobs);
    var third := Each(ToUnmatched, second);
    Count(jobs, Hits(ToLaneRouted)) + Count(second, Hits(ToUnmatched)) + Count(third, Hits(ToMatched))
  }

  lemma {:induction false} CountsAgree(jobs: seq<Job>)
    ensures Count(Each(ToLaneRouted, jobs), Hits(ToUnmatched)) == Count(jobs, Hits(ToUnmatched))
    ensures Count(Each(ToUnmatched, Each(ToLaneRouted, jobs)), Hits(ToMatched)) ==
      Count(jobs, Hits(ToMatched)) + Count(jobs, MovedTwice())
  {
    if |jobs| != 0 {
      var n := |jobs| - 1;
      CountsAgree(jobs[..n]);
      assert Each(ToLaneRouted, jobs)[..n] == Each(ToLaneRouted, jobs[..n]);
      assert Each(ToUnmatched, Each(ToLaneRouted, jobs))[..n] == Each(ToUnmatched, Each(ToLaneRouted, jobs[..n]));
    }
  }

  /** An applied run reports more updates than a dry run of the same table, by the jobs two rules move. */
  lemma AppliedExceedsDry(jobs: seq<Job>)
    ensures AppliedTotal(jobs) == DryTotal(jobs) + Count(jobs, MovedTwice())
  {
    CountsAgree(jobs);
  }

  lemma {:induction false} NothingCounted(jobs: seq<Job>)
    requires forall j :: j in jobs ==> Normal(j)
    ensures DryTotal(jobs) == 0 && Count(jobs, MovedTwice()) == 0
  {
    if |jobs| != 0 {
      assert jobs[|jobs| - 1] in jobs;
      NothingCounted(jobs[..|jobs| - 1]);
    }
  }

  /** The pass over the table is the pass over each job, and a second applied run updates nothing. */
  lemma SecondRunUpdatesNothing(jobs: seq<Job>)
    ensures Each(ToMatched, Each(ToUnmatched, Each(ToLaneRouted, jobs))) == AllPassed(jobs)
    ensures AppliedTotal(AllPassed(jobs)) == 0 && AllPassed(AllPassed(jobs)) == AllPassed(jobs)
  {
    forall j | j in AllPassed(jobs) ensures Normal(j) {
      var i :| 0 <= i < |jobs| && j == Pass(jobs[i]);
      PassIsNormal(jobs[i]);
    }
    NothingCounted(AllPassed(jobs));
    AppliedExceedsDry(AllPassed(jobs));
    forall i | 0 <= i < |jobs| ensures Pass(Pass(jobs[i])) == Pass(jobs[i]) {
      PassIsNormal(jobs[i]);
      PassIsNormal(Pass(jobs[i]));
    }
  }

  // ------------------------------------------------------------------ queueing routing tasks

  datatype TaskStatus = Pending | Running | BlockedDependency | Settled

  /** Tasks queued here are keyed by job and version; others have other keys. */
  datatype TaskKey = Reconciled(job: nat, version: nat) | OtherKey(id: nat)

  datatype Task = Task(job: nat, status: TaskStatus)

  type Tasks = map<TaskKey, Task>

  predicate HasActiveTask(tasks: Tasks, job: nat) {
    exists k :: k in tasks && tasks[k].job == job && tasks[k].status in {Pending, Running}
  }

  predicate AwaitsRouting(j: Job, id: nat, tasks: Tasks) {
    && !j.fixture && j.gate == Some("PASS") && Effective(j) == Some(Prequalified)
    && j.disposition.None? && j.lane.None? && !HasActiveTask(tasks, id)
  }

  /** Inserting does nothing on a known key, except that a blocked task becomes pending again. */
  function Enqueue(tasks: Tasks, id: nat, j: Job): Tasks {
    if j.version.None? || j.archived then tasks
    else
      var key := Reconciled(id, j.version.value);
      if key !in tasks then tasks[key := Task(id, Pending)]
      else if tasks[key].status.BlockedDependency? then tasks[key := tasks[key].(status := Pending)]
      else tasks
  }

  const LIMIT := 200

  /** The rows the query returns, at most LIMIT. */
  function Awaiting(jobs: seq<Job>, tasks: Tasks): (ids: seq<nat>)
    ensures |ids| <= LIMIT && Distinct(ids)
    ensures forall i :: 0 <= i < |ids| ==> ids[i] < |jobs| && AwaitsRouting(jobs[ids[i]], ids[i], tasks)
  {
    if |jobs| == 0 then []
    else
      var n := |jobs| - 1;
      var rest := Awaiting(jobs[..n], tasks);
      assert forall i :: 0 <= i < |rest| ==> jobs[..n][rest[i]] == jobs[rest[i]];
      if |rest| < LIMIT && AwaitsRouting(jobs[n], n, tasks) then rest + [n] else rest
  }

  /** The job passed the gate, waits before routing without lane or disposition, and no task of it is under way. */
  ghost predicate Waits(j: Job, id: nat, tasks: Tasks) {
    && !j.fixture && j.gate == Some("PASS") && (if j.state.Some? then j.state else j.status) == Some(Prequalified)
    && j.disposition == None && j.lane == None
    && forall k :: k in tasks && tasks[k].job == id ==>
         tasks[k].status == BlockedDependency || tasks[k].status == Settled
  }

  /** The query returns waiting jobs only, first come first, and all of them unless there are more than 200. */
  lemma {:induction false} AwaitingAreFirst(jobs: seq<Job>, tasks: Tasks, id: nat)
    requires id < |jobs|
    ensures var ids := Awaiting(jobs, tasks);
      && |ids| <= 200
      && (id in ids ==> Waits(jobs[id], id, tasks))
      && (Waits(jobs[id], id, tasks) && id !in ids ==> |ids| == 200 && forall i :: i in ids ==> i < id)
  {
    var n := |jobs| - 1;
    if id < n {
      AwaitingAreFirst(jobs[..n], tasks, id);
    } else {
      AwaitsExactly(jobs[n], n, tasks);
      assert forall i :: i in Awaiting(jobs[..n], tasks) ==> i < n;
    }
  }

  lemma AwaitsExactly(j: Job, id: nat, tasks: Tasks)
    ensures AwaitsRouting(j, id, tasks) <==> Waits(j, id, tasks)
  {
  }

  ghost predicate Within(ids: seq<nat>, n: nat) { forall i :: 0 <= i < |ids| ==> ids[i] < n }

  function EnqueueAll(tasks: Tasks, ids: seq<nat>, jobs: seq<Job>): Tasks
    requires Within(ids, |jobs|)
  {
    if |ids| == 0 then tasks
    else
      var n := |ids| - 1;
      Enqueue(EnqueueAll(tasks, ids[..n], jobs), ids[n], jobs[ids[n]])
  }

  /** Every task keyed for a job is that job's. */
  ghost predicate KeyedByJob(tasks: Tasks) {
    forall k :: k in tasks && k.Reconciled? ==> tasks[k].job == k.job
  }

  /** Nothing will come of counting the job: it has no version, is archived, or its task was queued and settled. */
  predicate Stuck(j: Job, id: nat, tasks: Tasks) {
    || j.version.None? || j.archived
    || (Reconciled(id, j.version.value) in tasks && tasks[Reconciled(id, j.version.value)].status.Settled?)
  }

  lemma EnqueueActivates(tasks: Tasks, id: nat, j: Job)
    requires KeyedByJob(tasks) && !HasActiveTask(tasks, id)
    ensures HasActiveTask(Enqueue(tasks, id, j), id) <==> !Stuck(j, id, tasks)
    ensures KeyedByJob(Enqueue(tasks, id, j))
  {
    var after := Enqueue(tasks, id, j);
    if !Stuck(j, id, tasks) {
      var key := Reconciled(id, j.version.value);
      if key in tasks { assert tasks[key].job == id; }
      assert key in after && after[key].job == id && after[key].status == Pending;
    } else {
      assert after == tasks;
    }
  }

  lemma EnqueueLeavesOthers(tasks: Tasks, id: nat, j: Job, other: nat, o: Job)
    requires KeyedByJob(tasks) && id != other
    ensures var after := Enqueue(tasks, id, j);
      && (HasActiveTask(after, other) <==> HasActiveTask(tasks, other))
      && (Stuck(o, other, after) <==> Stuck(o, other, tasks))
      && KeyedByJob(after)
  {
    var after := Enqueue(tasks, id, j);
    if HasActiveTask(after, other) {
      var k :| k in after && after[k].job == other && after[k].status in {Pending, Running};
      assert k in tasks && tasks[k] == after[k];
    }
    if HasActiveTask(tasks, other) {
      var k :| k in tasks && tasks[k].job == other && tasks[k].status in {Pending, Running};
      assert k in after && tasks[k] == after[k];
    }
  }

  /** Queueing for some jobs leaves a job outside the list alone. */
  lemma {:induction false} EnqueueAllLeavesOthers(tasks: Tasks, ids: seq<nat>, jobs: seq<Job>, id: nat)
    requires KeyedByJob(tasks) && Within(ids, |jobs|) && id < |jobs| && id !in ids
    ensures var after := EnqueueAll(tasks, ids, jobs);
      && KeyedByJob(after)
      && (Stuck(jobs[id], id, after) <==> Stuck(jobs[id], id, tasks))
      && (HasActiveTask(after, id) <==> HasActiveTask(tasks, id))
  {
    if |ids| != 0 {
      hide Enqueue, Stuck, HasActiveTask, KeyedByJob;
      var n := |ids| - 1;
      EnqueueAllLeavesOthers(tasks, ids[..n], jobs, id);
      EnqueueLeavesOthers(EnqueueAll(tasks, ids[..n], jobs), ids[n], jobs[ids[n]], id, jobs[id]);
    }
  }

  /** A listed job without an active task ends with one exactly when it is not stuck. */
  lemma {:induction false} EnqueueAllActivates(tasks: Tasks, ids: seq<nat>, jobs: seq<Job>, id: nat)
    requires KeyedByJob(tasks) && Distinct(ids) && Within(ids, |jobs|) && id in ids
    requires id < |jobs| && !HasActiveTask(tasks, id)
    ensures HasActiveTask(EnqueueAll(tasks, ids, jobs), id) <==> !Stuck(jobs[id], id, tasks)
  {
    hide Enqueue, Stuck, HasActiveTask, KeyedByJob;
    var n := |ids| - 1;
    assert ids == ids[..n] + [ids[n]];
    var before := EnqueueAll(tasks, ids[..n], jobs);
    if id == ids[n] {
      EnqueueAllLeavesOthers(tasks, ids[..n], jobs, id);
      EnqueueActivates(before, id, jobs[id]);
    } else {
      EnqueueAllActivates(tasks, ids[..n], jobs, id);
      EnqueueAllKeyed(tasks, ids[..n], jobs);
      EnqueueLeavesOthers(before, ids[n], jobs[ids[n]], id, jobs[id]);
    }
  }

  lemma {:induction false} EnqueueAllKeyed(tasks: Tasks, ids: seq<nat>, jobs: seq<Job>)
    requires KeyedByJob(tasks) && Within(ids, |jobs|)
    ensures KeyedByJob(EnqueueAll(tasks, ids, jobs))
  {
    if |ids| != 0 { EnqueueAllKeyed(tasks, ids[..|ids| - 1], jobs); }
  }

  /** A counted job is waiting again after the run exactly when nothing could come of counting it. */
  lemma CountedAgainExactly(jobs: seq<Job>, tasks: Tasks, id: nat)
    requires KeyedByJob(tasks) && id in Awaiting(jobs, tasks)
    ensures AwaitsRouting(jobs[id], id, EnqueueAll(tasks, Awaiting(jobs, tasks), jobs)) <==> Stuck(jobs[id], id, tasks)
  {
    hide Stuck, HasActiveTask, Awaiting, EnqueueAll, KeyedByJob;
    EnqueueAllActivates(tasks, Awaiting(jobs, tasks), jobs, id);
  }

  // ------------------------------------------------------------------ the script

  datatype Report = Report(
    laneRouted: nat, unmatched: nat, matched: nat, alreadyCompleted: nat, enqueued: nat, total: nat)

  function Completed(): Job -> bool {
    (j: Job) => !j.fixture && Effective(j) == Some(Matched) && j.recommendation.Some?
  }

  class JobTable {
    const jobs: array<Job>
    var tasks: Tasks

    constructor (initial: seq<Job>, queued: Tasks)
      ensures fresh(jobs) && jobs[..] == initial && tasks == queued
    {
      jobs := new Job[|initial|](i requires 0 <= i < |initial| => initial[i]);
      tasks := queued;
    }

    /** One rule: counts the rows its query returns and, when applying, updates them. */
    method RunRule(rule: Rule, apply: bool) returns (count: nat)
      modifies jobs
      ensures count == Count(old(jobs[..]), Hits(rule))
      ensures jobs[..] == if apply then Each(rule, old(jobs[..])) else old(jobs[..])
    {
      hide Matches, Fire;
      count := 0;
      ghost var was := jobs[..];
      for i := 0 to jobs.Length
        invariant count == Count(was[..i], Hits(rule))
        invariant forall k :: 0 <= k < i ==> jobs[k] == if apply then Once(rule, was[k]) else was[k]
        invariant forall k :: i <= k < jobs.Length ==> jobs[k] == was[k]
      {
        assert was[..i + 1] == was[..i] + [was[i]];
        CountAppend(was[..i], was[i], Hits(rule));
        if Matches(rule, jobs[i]) {
          count := count + 1;
          if apply { jobs[i] := Fire(rule, jobs[i]); }
        }
      }
      assert was[..jobs.Length] == was;
    }

    method CountCompleted() returns (count: nat)
      ensures count == Count(jobs[..], Completed())
    {
      count := 0;
      for i := 0 to jobs.Length
        invariant count == Count(jobs[..i], Completed())
      {
        assert jobs[..i + 1] == jobs[..i] + [jobs[i]];
        CountAppend(jobs[..i], jobs[i], Completed());
        if !jobs[i].fixture && Effective(jobs[i]) == Some(Matched) && jobs[i].recommendation.Some? {
          count := count + 1;
        }
      }
      assert jobs[..jobs.Length] == jobs[..];
    }

    method RouteLanes(apply: bool) returns (count: nat)
      modifies this`tasks
      ensures count == |Awaiting(jobs[..], old(tasks))|
      ensures tasks == if apply then EnqueueAll(old(tasks), Awaiting(jobs[..], old(tasks)), jobs[..]) else old(tasks)
    {
      var ids := Awaiting(jobs[..], tasks);
      count := |ids|;
      if apply {
        ghost var was := tasks;
        for i := 0 to |ids|
          invariant tasks == EnqueueAll(was, ids[..i], jobs[..])
        {
          assert ids[..i + 1][..i] == ids[..i];
          if jobs[ids[i]].version.Some? { tasks := Enqueue(tasks, ids[i], jobs[ids[i]]); }
        }
        assert ids[..|ids|] == ids;
      }
    }

    /** A run: rules 2, 3 and 4, the count of completed jobs, then the routing tasks. */
    method Reconcile(apply: bool) returns (r: Report)
      modifies jobs, this`tasks
      ensures jobs[..] == if apply then AllPassed(old(jobs[..])) else old(jobs[..])
      ensures r.total == if apply then AppliedTotal(old(jobs[..])) else DryTotal(old(jobs[..]))
      ensures r.alreadyCompleted == Count(jobs[..], Completed())
      ensures r.enqueued == |Awaiting(jobs[..], old(tasks))|
      ensures tasks == if apply then EnqueueAll(old(tasks), Awaiting(jobs[..], old(tasks)), jobs[..]) else old(tasks)
    {
      hide Each, Pass, Count, Awaiting, EnqueueAll;
      SecondRunUpdatesNothing(jobs[..]);
      var laneRouted := RunRule(ToLaneRouted, apply);
      var unmatched := RunRule(ToUnmatched, apply);
      var matched := RunRule(ToMatched, apply);
      var completed := CountCompleted();
      var enqueued := RouteLanes(apply);
      r := Report(laneRouted, unmatched, matched, completed, enqueued, laneRouted + unmatched + matched);
    }
  }
}
