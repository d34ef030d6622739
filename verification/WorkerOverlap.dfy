/**
 When two workers can process mandatory task types at once. The lock excludes them as long as sessions live; this
 module says exactly which event breaks the exclusion and exactly from which states it can still be broken.
 */
module WorkerOverlap {
  import opened Common
  import opened WorkerLock

  /** The worker's try takes the free first lock. */
  predicate Enters(s: System, e: Event) {
    && e.Tries? && e.w < |s.workers| && s.workers[e.w].phase.Ready? && s.workers[e.w].connected
    && s.workers[e.w].phase.plan.lock == LOCK_ID && LOCK_ID !in s.holders
  }

  /** It does so while a worker that lost its session is still at work inside. */
  ghost predicate Joins(s: System, e: Event) {
    Enters(s, e) && exists v :: 0 <= v < |s.workers| && RunsMandatory(s.workers[v]) && !s.workers[v].connected
  }

  /** Under the first lock, inside means able to process a mandatory type. */
  lemma InsideMeans(s: System, v: nat)
    requires Inv(s) && v < |s.workers|
    ensures RunsMandatory(s.workers[v]) <==> s.workers[v].phase.Inside? && s.workers[v].phase.plan.lock == LOCK_ID
    ensures RunsMandatory(s.workers[v]) && s.workers[v].connected ==> LOCK_ID in s.holders && s.holders[LOCK_ID] == v
  {
    InvMeans(s, v);
    if s.workers[v].phase.Inside? { MandatoryMeansFirstLock(s.workers[v]); }
    hide Chosen;
    assert s.workers[v].phase.Inside? && s.workers[v].connected ==> Holds(s.workers[v]);
  }

  lemma RunningAfter(s: System, e: Event, v: nat)
    requires Inv(s) && v < |s.workers|
    ensures v < |Step(s, e).workers|
    ensures !Enters(s, e) ==> RunsMandatory(Step(s, e).workers[v]) ==> RunsMandatory(s.workers[v])
    ensures Enters(s, e) ==> (RunsMandatory(Step(s, e).workers[v]) <==> RunsMandatory(s.workers[v]) || v == e.w)
  {
    StepKeeps(s, e);
    InsideMeans(s, v);
    assert v < |Step(s, e).workers| by { hide Inv, Choose; }
    InsideMeans(Step(s, e), v);
    hide Inv, RunsMandatory, Choose;
  }

  /** One event breaks the exclusion if and only if it lets a worker join one that was cut off. */
  lemma ExclusionIsKeptExactly(s: System, e: Event)
    requires Inv(s) && Exclusive(s)
    ensures Exclusive(Step(s, e)) <==> !Joins(s, e)
  {
    hide RunsMandatory, Inv, Step;
    var t := Step(s, e);
    assert |t.workers| == |s.workers| by { SameWorkers(s, e); }
    forall v: nat | v < |s.workers|
      ensures !Enters(s, e) ==> RunsMandatory(t.workers[v]) ==> RunsMandatory(s.workers[v])
      ensures Enters(s, e) ==> (RunsMandatory(t.workers[v]) <==> RunsMandatory(s.workers[v]) || v == e.w)
      ensures Enters(s, e) && RunsMandatory(s.workers[v]) ==> !s.workers[v].connected && v != e.w
    {
      RunningAfter(s, e, v);
      InsideMeans(s, v);
    }
    if Joins(s, e) {
      var v: nat :| v < |s.workers| && RunsMandatory(s.workers[v]) && !s.workers[v].connected;
      assert RunsMandatory(t.workers[v]) && RunsMandatory(t.workers[e.w]);
    }
  }

  lemma SameWorkers(s: System, e: Event)
    ensures |Step(s, e).workers| == |s.workers|
  {
    hide Choose;
  }

  /** Exclusive at the end of the run and after every shorter prefix of it. */
  ghost predicate ExclusiveThroughout(n: nat, events: seq<Event>) {
    && Exclusive(Run(Start(n), events))
    && (|events| == 0 || ExclusiveThroughout(n, events[..|events| - 1]))
  }

  ghost predicate NobodyJoins(n: nat, events: seq<Event>) {
    || |events| == 0
    || (NobodyJoins(n, events[..|events| - 1]) && !Joins(Run(Start(n), events[..|events| - 1]), events[|events| - 1]))
  }

  /** Over a whole run: mandatory work is exclusive throughout if and only if no event of the run joins a worker that
      was cut off. */
  lemma {:induction false} ExclusiveThroughoutExactly(n: nat, events: seq<Event>)
    ensures ExclusiveThroughout(n, events) <==> NobodyJoins(n, events)
  {
    hide Exclusive, Joins, Inv, Step;
    if |events| == 0 {
      NobodyInside(n);
      assert events == [];
    } else {
      var rest, e := events[..|events| - 1], events[|events| - 1];
      ExclusiveThroughoutExactly(n, rest);
      RunKeeps(n, rest);
      if ExclusiveThroughout(n, rest) { ExclusionIsKeptExactly(Run(Start(n), rest), e); }
    }
  }

  lemma NobodyInside(n: nat)
    ensures Exclusive(Run(Start(n), []))
  {
  }

  // ------------------------------------------------------------------ what may still happen

  /** The worker is at mandatory work inside, or can still get there. */
  predicate CanRun(w: Worker) {
    || w.phase.Starting?
    || (w.phase.Ready? && w.connected && w.phase.plan.lock == LOCK_ID)
    || RunsMandatory(w)
  }

  ghost predicate TwoCanRun(s: System) {
    exists i, j :: 0 <= i < j < |s.workers| && CanRun(s.workers[i]) && CanRun(s.workers[j])
  }

  lemma RunSnoc(s: System, events: seq<Event>, e: Event)
    ensures Run(s, events + [e]) == Step(Run(s, events), e)
  {
    assert (events + [e])[..|events|] == events;
  }

  lemma {:induction false} RunConcat(s: System, a: seq<Event>, b: seq<Event>)
    ensures Run(s, a + b) == Run(Run(s, a), b)
  {
    if |b| == 0 {
      assert a + b == a;
    } else {
      assert (a + b)[..|a + b| - 1] == a + b[..|b| - 1];
      RunConcat(s, a, b[..|b| - 1]);
    }
  }

  lemma {:induction false} RunFromKeeps(s: System, more: seq<Event>)
    requires Inv(s)
    ensures Inv(Run(s, more)) && |Run(s, more).workers| == |s.workers|
  {
    if |more| != 0 {
      hide Inv, Step;
      RunFromKeeps(s, more[..|more| - 1]);
      StepKeeps(Run(s, more[..|more| - 1]), more[|more| - 1]);
      SameWorkers(Run(s, more[..|more| - 1]), more[|more| - 1]);
    }
  }

  /** No event makes a worker able that was not. */
  lemma CanRunBefore(s: System, e: Event, v: nat)
    requires Inv(s) && v < |s.workers| && v < |Step(s, e).workers| && CanRun(Step(s, e).workers[v])
    ensures CanRun(s.workers[v])
  {
    if RunsMandatory(Step(s, e).workers[v]) {
      RunningAfter(s, e, v);
    }
    hide Inv, RunsMandatory, Choose;
  }

  lemma {:induction false} CouldRunAtFirst(s: System, more: seq<Event>, v: nat)
    requires Inv(s) && v < |s.workers| && v < |Run(s, more).workers| && CanRun(Run(s, more).workers[v])
    ensures CanRun(s.workers[v])
  {
    if |more| != 0 {
      hide Inv, Step, CanRun;
      var before := Run(s, more[..|more| - 1]);
      RunFromKeeps(s, more[..|more| - 1]);
      CanRunBefore(before, more[|more| - 1], v);
      CouldRunAtFirst(s, more[..|more| - 1], v);
    }
  }

  /** Every other worker can do what it could, and is still inside if it was. */
  ghost predicate Spares(s: System, t: System, i: nat) {
    && |t.workers| == |s.workers|
    && forall v: nat :: v < |s.workers| && v != i ==>
         && (CanRun(s.workers[v]) ==> CanRun(t.workers[v]))
         && (RunsMandatory(s.workers[v]) ==> RunsMandatory(t.workers[v]))
  }

  const DEFAULT := Config(None, false, false, false)

  lemma DefaultPlan()
    ensures Choose(DEFAULT).Some? && Choose(DEFAULT).value.lock == LOCK_ID
  {
    assert ALL[0] == FetchJobContent && FetchJobContent in ALL;
    assert FetchJobContent in Without(ALL, ExtractQuotedRequirements);
    ChoiceIsSound(DEFAULT);
  }

  lemma HolderHolds(s: System)
    requires Inv(s) && LOCK_ID in s.holders
    ensures s.holders[LOCK_ID] < |s.workers| && Holds(s.workers[s.holders[LOCK_ID]])
  {
    hide Chosen;
  }

  /** Cutting off whoever holds the first lock frees it, and changes nobody's phase. */
  lemma CuttingOffFrees(s: System, i: nat)
    requires Inv(s) && LOCK_ID in s.holders && i < |s.workers| && s.workers[i].phase.Ready?
    ensures var t := Step(s, LosesSession(s.holders[LOCK_ID]));
      LOCK_ID !in t.holders && Spares(s, t, i) && t.workers[i] == s.workers[i]
  {
    hide Inv, Choose;
    HolderHolds(s);
    CutOffEffect(s, s.holders[LOCK_ID]);
    CutOffKeepsWorking(s.workers[s.holders[LOCK_ID]]);
    hide Step, RunsMandatory, CanRun;
  }

  lemma CutOffEffect(s: System, h: nat)
    requires h < |s.workers|
    ensures var t := Step(s, LosesSession(h));
      && t.workers == s.workers[h := s.workers[h].(connected := false)]
      && t.holders == Released(s.holders, h)
  {
    hide Choose;
  }

  lemma FreeTheLock(s: System, i: nat) returns (more: seq<Event>)
    requires Inv(s) && i < |s.workers| && s.workers[i].phase.Ready?
    ensures var t := Run(s, more);
      && LOCK_ID !in t.holders && Spares(s, t, i) && t.workers[i] == s.workers[i]
  {
    hide Inv, Step, CanRun, RunsMandatory;
    if LOCK_ID in s.holders {
      CuttingOffFrees(s, i);
      more := [LosesSession(s.holders[LOCK_ID])];
      assert more[..0] == [];
    } else {
      more := [];
    }
  }

  lemma CutOffKeepsWorking(w: Worker)
    requires Holds(w)
    ensures RunsMandatory(w.(connected := false)) <==> RunsMandatory(w)
    ensures CanRun(w.(connected := false)) <==> CanRun(w)
  {
  }

  lemma ReadyGoesIn(s: System, i: nat) returns (more: seq<Event>)
    requires Inv(s) && i < |s.workers| && s.workers[i].phase.Ready? && CanRun(s.workers[i])
    ensures var t := Run(s, more); Spares(s, t, i) && RunsMandatory(t.workers[i])
  {
    var free := FreeTheLock(s, i);
    var t := Run(s, free);
    more := free + [Tries(i)];
    RunSnoc(s, free, Tries(i));
    RunFromKeeps(s, free);
    RunningAfter(t, Tries(i), i);
    assert Enters(t, Tries(i));
    hide RunsMandatory, Inv;
  }

  /** A worker that can run can be brought in, whoever is inside already. */
  lemma BringIn(s: System, i: nat) returns (more: seq<Event>)
    requires Inv(s) && i < |s.workers| && CanRun(s.workers[i])
    ensures var t := Run(s, more); Spares(s, t, i) && RunsMandatory(t.workers[i])
  {
    if RunsMandatory(s.workers[i]) {
      more := [];
    } else if s.workers[i].phase.Ready? {
      more := ReadyGoesIn(s, i);
    } else {
      DefaultPlan();
      var t := Step(s, Starts(i, DEFAULT));
      StepKeeps(s, Starts(i, DEFAULT));
      assert t.workers == s.workers[i := Worker(Ready(Choose(DEFAULT).value), true)];
      hide Choose, Inv, RunsMandatory, Step;
      var rest := ReadyGoesIn(t, i);
      more := [Starts(i, DEFAULT)] + rest;
      RunSnoc(s, [], Starts(i, DEFAULT));
      assert [] + [Starts(i, DEFAULT)] == [Starts(i, DEFAULT)];
      RunConcat(s, [Starts(i, DEFAULT)], rest);
    }
  }

  /** Some continuation of a run lets two workers process mandatory types at once if and only if two workers are
      inside or can still get there; no lock prevents it for good. */
  lemma OverlapIsPossibleExactly(n: nat, events: seq<Event>)
    ensures (exists more :: !Exclusive(Run(Run(Start(n), events), more))) <==> TwoCanRun(Run(Start(n), events))
  {
    var s := Run(Start(n), events);
    RunKeeps(n, events);
    hide Run, Inv, RunsMandatory;
    if more :| !Exclusive(Run(s, more)) {
      var t := Run(s, more);
      RunFromKeeps(s, more);
      var i, j :| 0 <= i < j < |t.workers| && RunsMandatory(t.workers[i]) && RunsMandatory(t.workers[j]);
      CouldRunAtFirst(s, more, i);
      CouldRunAtFirst(s, more, j);
    }
    if TwoCanRun(s) {
      var i: nat, j: nat :| i < j < |s.workers| && CanRun(s.workers[i]) && CanRun(s.workers[j]);
      var first := BringIn(s, i);
      RunFromKeeps(s, first);
      var second := BringIn(Run(s, first), j);
      RunConcat(s, first, second);
      assert !Exclusive(Run(s, first + second));
    }
  }

  /** The shortest case: two workers start, the first goes in and loses its session, the second goes in beside it. */
  lemma TwoWorkersOverlap()
    ensures !Exclusive(Run(Start(2), [Starts(0, DEFAULT), Starts(1, DEFAULT), Tries(0), LosesSession(0), Tries(1)]))
  {
    DefaultPlan();
    hide Choose, RunsMandatory, Step;
    var plan := Choose(DEFAULT).value;
    var e := [Starts(0, DEFAULT), Starts(1, DEFAULT), Tries(0), LosesSession(0), Tries(1)];
    var ready, inside := Worker(Ready(plan), true), Worker(Inside(plan), true);
    assert Run(Start(2), []) == Start(2);
    RunSnoc(Start(2), [], e[0]);
    RunSnoc(Start(2), [e[0]], e[1]);
    RunSnoc(Start(2), [e[0], e[1]], e[2]);
    RunSnoc(Start(2), [e[0], e[1], e[2]], e[3]);
    RunSnoc(Start(2), [e[0], e[1], e[2], e[3]], e[4]);
    assert [] + [e[0]] == [e[0]] && [e[0]] + [e[1]] == [e[0], e[1]] && [e[0], e[1]] + [e[2]] == [e[0], e[1], e[2]];
    assert [e[0], e[1], e[2]] + [e[3]] == [e[0], e[1], e[2], e[3]] && [e[0], e[1], e[2], e[3]] + [e[4]] == e;
    hide Run;
    FiveSteps(plan);
    RunKeeps(2, e);
    InsideMeans(Run(Start(2), e), 0);
    InsideMeans(Run(Start(2), e), 1);
  }

  lemma FiveSteps(plan: Plan)
    requires Choose(DEFAULT) == Some(plan) && plan.lock == LOCK_ID
    ensures var ready := Step(Step(Start(2), Starts(0, DEFAULT)), Starts(1, DEFAULT));
      Step(Step(Step(ready, Tries(0)), LosesSession(0)), Tries(1)).workers ==
        [Worker(Inside(plan), false), Worker(Inside(plan), true)]
  {
    hide Choose;
    var s1 := Step(Start(2), Starts(0, DEFAULT));
    assert s1.workers == [Worker(Ready(plan), true), Worker(Starting, false)];
    var s2 := Step(s1, Starts(1, DEFAULT));
    assert s2.workers == [Worker(Ready(plan), true), Worker(Ready(plan), true)];
    var s3 := Step(s2, Tries(0));
    assert s3.workers == [Worker(Inside(plan), true), Worker(Ready(plan), true)] && s3.holders == map[LOCK_ID := 0];
    var s4 := Step(s3, LosesSession(0));
    assert s4.workers == [Worker(Inside(plan), false), Worker(Ready(plan), true)] && s4.holders == map[];
  }
}
