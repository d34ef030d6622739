/**
 The task worker's singleton lock. A worker chooses its task types, picks one of two advisory locks from them,
 may drop the optional type after a preflight, tries the lock once, works while it holds it and releases it on the
 way out. The database drops a session's locks when the session ends, for whatever reason.
 */
module WorkerLock {
  import opened Common

  datatype TaskType =
    | FetchJobContent | NormalizeObservation | ExtractDeterministicRequirements | ApplyHardGates
    | ExtractQuotedRequirements | PublishEmbedding | RouteLane | MatchProfileEvidence | DecideRecommendation
    | EnqueueExplanation

  const ALL: seq<TaskType> := [
    FetchJobContent, NormalizeObservation, ExtractDeterministicRequirements, ApplyHardGates,
    ExtractQuotedRequirements, PublishEmbedding, RouteLane, MatchProfileEvidence, DecideRecommendation,
    EnqueueExplanation]

  const LOCK_ID := 1001
  const QUOTED_LOCK_ID := 1002

  // ------------------------------------------------------------------ choosing types and lock

  /** The environment: the listed type names (None if unset or blank; an unknown name is None), whether quoted
      requirements are opted in, whether the preflight runs and whether it finds an extraction route. */
  datatype Config = Config(listed: Option<seq<Option<TaskType>>>, optIn: bool, preflight: bool, extraction: bool)

  /** First occurrences, in order. */
  function Unique<T(==, !new)>(s: seq<T>): (u: seq<T>)
    ensures Distinct(u)
    ensures forall x :: x in u <==> x in s
  {
    if |s| == 0 then []
    else
      var n := |s| - 1;
      var rest := Unique(s[..n]);
      assert forall x :: x in s <==> x in s[..n] || x == s[n];
      if s[n] in rest then rest else rest + [s[n]]
  }

  function Values<T>(s: seq<Option<T>>): (v: seq<T>)
    requires forall i :: 0 <= i < |s| ==> s[i].Some?
    ensures |v| == |s| && forall i :: 0 <= i < |s| ==> v[i] == s[i].value
  {
    seq(|s|, i requires 0 <= i < |s| => s[i].value)
  }

  /** None stands for the errors: an unsupported name, or a list that names nothing. */
  function Requested(c: Config): Option<seq<TaskType>> {
    if c.listed.None? then Some(ALL)
    else
      var names := Unique(c.listed.value);
      if None in names || |names| == 0 then None else Some(Values(names))
  }

  function Without(s: seq<TaskType>, t: TaskType): (r: seq<TaskType>)
    ensures forall x :: x in r <==> x in s && x != t
  {
    if |s| == 0 then []
    else
      var n := |s| - 1;
      assert forall x :: x in s <==> x in s[..n] || x == s[n];
      Without(s[..n], t) + (if s[n] == t then [] else [s[n]])
  }

  function TaskTypes(c: Config): Option<seq<TaskType>> {
    var requested := Requested(c);
    if requested.None? then None
    else
      var explicit := ExtractQuotedRequirements in requested.value && c.listed.Some?;
      if explicit || c.optIn then requested else Some(Without(requested.value, ExtractQuotedRequirements))
  }

  function LockFor(types: seq<TaskType>): nat {
    if types == [ExtractQuotedRequirements] then QUOTED_LOCK_ID else LOCK_ID
  }

  /** A worker's choice; None when it stops before connecting. */
  datatype Plan = Plan(types: seq<TaskType>, active: seq<TaskType>, lock: nat)

  function Choose(c: Config): Option<Plan> {
    var types := TaskTypes(c);
    if types.None? then None
    else if c.preflight && ExtractQuotedRequirements in types.value && !c.extraction then
      if types.value == [ExtractQuotedRequirements] then None
      else Some(Plan(types.value, Without(types.value, ExtractQuotedRequirements), LockFor(types.value)))
    else Some(Plan(types.value, types.value, LockFor(types.value)))
  }

  predicate Mandatory(t: TaskType) { t != ExtractQuotedRequirements }

  lemma ListedNotEmpty(c: Config)
    requires TaskTypes(c).Some?
    ensures TaskTypes(c).value != []
    ensures c.listed.Some? ==> forall t :: t in TaskTypes(c).value <==> Some(t) in c.listed.value
    ensures Distinct(TaskTypes(c).value)
  {
    if c.listed.None? {
      assert ALL[0] in ALL && ALL[0] != ExtractQuotedRequirements;
      assert TaskTypes(c).value == ALL || FetchJobContent in TaskTypes(c).value;
      WithoutKeepsDistinct(ALL, ExtractQuotedRequirements);
    } else {
      var names := Unique(c.listed.value);
      var values := Values(names);
      forall i, j | 0 <= i < j < |values| ensures values[i] != values[j] { assert names[i] != names[j]; }
      forall t ensures t in values <==> Some(t) in c.listed.value {
        if t in values {
          var i :| 0 <= i < |values| && values[i] == t;
          assert names[i] == Some(t) && names[i] in names;
        }
        if Some(t) in names {
          var i :| 0 <= i < |names| && names[i] == Some(t);
          assert values[i] == t;
        }
      }
      if ExtractQuotedRequirements !in values { WithoutNothing(values, ExtractQuotedRequirements); }
    }
  }

  lemma {:induction false} WithoutConcat(a: seq<TaskType>, b: seq<TaskType>, t: TaskType)
    ensures Without(a + b, t) == Without(a, t) + Without(b, t)
  {
    if |b| == 0 {
      assert a + b == a;
    } else {
      assert (a + b)[..|a + b| - 1] == a + b[..|b| - 1];
      WithoutConcat(a, b[..|b| - 1], t);
    }
  }

  lemma MandatoryTypes()
    ensures Without(ALL, ExtractQuotedRequirements) ==
      [ FetchJobContent, NormalizeObservation, ExtractDeterministicRequirements, ApplyHardGates, PublishEmbedding,
        RouteLane, MatchProfileEvidence, DecideRecommendation, EnqueueExplanation ]
  {
    hide Without;
    var a := [FetchJobContent, NormalizeObservation, ExtractDeterministicRequirements, ApplyHardGates];
    var b := [PublishEmbedding, RouteLane, MatchProfileEvidence, DecideRecommendation, EnqueueExplanation];
    assert ALL == a + [ExtractQuotedRequirements] + b;
    WithoutNothing(a, ExtractQuotedRequirements);
    WithoutNothing(b, ExtractQuotedRequirements);
    WithoutItself(ExtractQuotedRequirements);
    WithoutConcat(a + [ExtractQuotedRequirements], b, ExtractQuotedRequirements);
    WithoutConcat(a, [ExtractQuotedRequirements], ExtractQuotedRequirements);
  }

  lemma WithoutItself(t: TaskType)
    ensures Without([t], t) == []
  {
    assert [t][..0] == [];
  }

  /** Unless a list is given, the nine mandatory types, and with the opt-in all ten, in the order of the stages. A list
      is refused exactly when it names nothing or something unknown. */
  lemma TypesWithoutList(c: Config)
    ensures c.listed.None? ==> TaskTypes(c) == Some(
      if c.optIn then
        [ FetchJobContent, NormalizeObservation, ExtractDeterministicRequirements, ApplyHardGates,
          ExtractQuotedRequirements, PublishEmbedding, RouteLane, MatchProfileEvidence, DecideRecommendation,
          EnqueueExplanation ]
      else
        [ FetchJobContent, NormalizeObservation, ExtractDeterministicRequirements, ApplyHardGates, PublishEmbedding,
          RouteLane, MatchProfileEvidence, DecideRecommendation, EnqueueExplanation ])
    ensures c.listed.Some? ==> (TaskTypes(c).None? <==> c.listed.value == [] || None in c.listed.value)
  {
    if c.listed.None? {
      MandatoryTypes();
      hide Without;
    } else {
      var names := Unique(c.listed.value);
      if c.listed.value != [] { assert c.listed.value[0] in names; }
      if names != [] { assert names[0] in c.listed.value; }
    }
  }

  /** The preflight stops a worker that has only the optional type and no route for it, and takes that type, and no
      other, from one that has more. */
  lemma PreflightExactly(c: Config)
    requires TaskTypes(c).Some?
    ensures var types, blocked := TaskTypes(c).value, c.preflight && !c.extraction;
      && (Choose(c).None? <==> blocked && types == [ExtractQuotedRequirements])
      && (Choose(c).Some? ==>
            && Choose(c).value.types == types
            && (blocked ==>
                  forall t :: t in Choose(c).value.active <==> t in types && t != ExtractQuotedRequirements)
            && (!blocked ==> Choose(c).value.active == types))
  {
    var types := TaskTypes(c).value;
    if ExtractQuotedRequirements !in types { WithoutNothing(types, ExtractQuotedRequirements); }
    hide TaskTypes;
  }

  lemma {:induction false} WithoutKeepsDistinct(s: seq<TaskType>, t: TaskType)
    requires Distinct(s)
    ensures Distinct(Without(s, t))
  {
    if |s| != 0 {
      var n := |s| - 1;
      WithoutKeepsDistinct(s[..n], t);
      forall i | 0 <= i < |Without(s[..n], t)| ensures Without(s[..n], t)[i] != s[n] {
        assert Without(s[..n], t)[i] in Without(s[..n], t);
      }
    }
  }

  lemma {:induction false} WithoutNothing(s: seq<TaskType>, t: TaskType)
    requires t !in s
    ensures Without(s, t) == s
  {
    if |s| != 0 { WithoutNothing(s[..|s| - 1], t); }
  }

  /** After the lock is chosen the types only shrink, by at most the optional one, and never to nothing; the second
      lock is taken exactly by a worker with no mandatory type, before and after the preflight. */
  lemma ChoiceIsSound(c: Config)
    requires Choose(c).Some?
    ensures var p := Choose(c).value;
      && p.active != []
      && (forall t :: t in p.active ==> t in p.types)
      && (forall t :: t in p.types && t !in p.active ==> !Mandatory(t))
      && (p.lock == QUOTED_LOCK_ID <==> forall t :: t in p.active ==> !Mandatory(t))
      && (p.lock == LOCK_ID <==> exists t :: t in p.types && Mandatory(t))
  {
    var p := Choose(c).value;
    ListedNotEmpty(c);
    OnlyOptional(p.types);
    var t := p.types[0];
    if p.types != [ExtractQuotedRequirements] {
      var m :| m in p.types && Mandatory(m);
      assert m in p.active;
    }
  }

  lemma OnlyOptional(types: seq<TaskType>)
    requires types != [] && Distinct(types)
    ensures types == [ExtractQuotedRequirements] <==> forall t :: t in types ==> !Mandatory(t)
  {
    assert |types| > 1 ==> types[0] != types[1];
    if forall t :: t in types ==> !Mandatory(t) {
      forall i | 0 <= i < |types| ensures types[i] == ExtractQuotedRequirements { assert types[i] in types; }
    }
  }

  // ------------------------------------------------------------------ many workers

  /** Where a worker process is: before its try, inside the locked section, or leaving with or without the lock. */
  datatype Phase = Starting | Ready(plan: Plan) | Inside(plan: Plan) | Leaving(plan: Plan, acquired: bool) | Gone

  datatype Worker = Worker(phase: Phase, connected: bool)

  /** The processes and, per lock, the worker whose session holds it. */
  datatype System = System(workers: seq<Worker>, holders: map<nat, nat>)

  datatype Event =
    | Starts(w: nat, config: Config)
    | Tries(w: nat)
    | Ends(w: nat)
    | Closes(w: nat)
    | Dies(w: nat)
    | LosesSession(w: nat)

  function Start(n: nat): System { System(seq(n, _ => Worker(Starting, false)), map[]) }

  /** The database drops whatever the session still holds. */
  function Released(holders: map<nat, nat>, w: nat): map<nat, nat> {
    map l | l in holders && holders[l] != w :: holders[l]
  }

  function SetPhase(s: System, w: nat, phase: Phase): System
    requires w < |s.workers|
  {
    s.(workers := s.workers[w := s.workers[w].(phase := phase)])
  }

  function TryLock(s: System, w: nat): System
    requires w < |s.workers| && s.workers[w].phase.Ready?
  {
    var plan := s.workers[w].phase.plan;
    if !s.workers[w].connected || plan.lock in s.holders then SetPhase(s, w, Leaving(plan, false))
    else SetPhase(s, w, Inside(plan)).(holders := s.holders[plan.lock := w])
  }

  /** The end of the finally block: unlock if it was acquired, then end the session. */
  function Close(s: System, w: nat): System
    requires w < |s.workers| && s.workers[w].phase.Leaving?
  {
    var phase, session := s.workers[w].phase, s.workers[w].connected;
    var unlocked := if phase.acquired && session && phase.plan.lock in s.holders && s.holders[phase.plan.lock] == w
                    then map l | l in s.holders && l != phase.plan.lock :: s.holders[l] else s.holders;
    System(s.workers[w := Worker(Gone, false)], Released(unlocked, w))
  }

  function Step(s: System, e: Event): System {
    if e.w >= |s.workers| then s
    else
      var me := s.workers[e.w];
      match e
      case Starts(w, c) =>
        if !me.phase.Starting? then s
        else if Choose(c).None? then SetPhase(s, w, Gone)
        else s.(workers := s.workers[w := Worker(Ready(Choose(c).value), true)])
      case Tries(w) => if me.phase.Ready? then TryLock(s, w) else s
      case Ends(w) => if me.phase.Inside? then SetPhase(s, w, Leaving(me.phase.plan, true)) else s
      case Closes(w) => if me.phase.Leaving? then Close(s, w) else s
      case Dies(w) => System(s.workers[w := Worker(Gone, false)], Released(s.holders, w))
      case LosesSession(w) => System(s.workers[w := me.(connected := false)], Released(s.holders, w))
  }

  function Run(s: System, events: seq<Event>): System {
    if |events| == 0 then s else Step(Run(s, events[..|events| - 1]), events[|events| - 1])
  }

  predicate Holds(w: Worker) { w.connected && (w.phase.Inside? || (w.phase.Leaving? && w.phase.acquired)) }

  /** A lock's holder is a connected worker in its locked section; a connected worker in the section holds its lock;
      and every plan was chosen from some configuration. */
  ghost predicate Inv(s: System) {
    && (forall l :: l in s.holders ==>
      s.holders[l] < |s.workers| && Holds(s.workers[s.holders[l]]) && s.workers[s.holders[l]].phase.plan.lock == l)
    && (forall w :: 0 <= w < |s.workers| && Holds(s.workers[w]) ==>
      s.workers[w].phase.plan.lock in s.holders && s.holders[s.workers[w].phase.plan.lock] == w)
    && (forall w :: 0 <= w < |s.workers| ==> Chosen(s.workers[w].phase))
  }

  ghost predicate Chosen(p: Phase) { p.Starting? || p.Gone? || exists c :: Choose(c) == Some(p.plan) }

  lemma ReleaseKeeps(s: System, w: nat, after: Worker)
    requires Inv(s) && w < |s.workers| && Chosen(after.phase) && !Holds(after)
    ensures Inv(System(s.workers[w := after], Released(s.holders, w)))
  {
    hide Chosen;
    var t := System(s.workers[w := after], Released(s.holders, w));
    forall l | l in t.holders
      ensures t.holders[l] < |t.workers| && Holds(t.workers[t.holders[l]]) &&
        t.workers[t.holders[l]].phase.plan.lock == l
    {
      assert l in s.holders && s.holders[l] != w;
    }
  }

  lemma TryKeeps(s: System, w: nat)
    requires Inv(s) && w < |s.workers| && s.workers[w].phase.Ready?
    ensures Inv(TryLock(s, w))
  {
    var t := TryLock(s, w);
    forall v | 0 <= v < |t.workers| ensures Chosen(t.workers[v].phase) {
      assert Chosen(s.workers[v].phase) && Chosen(s.workers[w].phase);
    }
  }

  lemma PhaseKeeps(s: System, w: nat, after: Worker)
    requires Inv(s) && w < |s.workers| && Chosen(after.phase)
    requires Holds(after) <==> Holds(s.workers[w])
    requires Holds(after) ==> after.phase.plan.lock == s.workers[w].phase.plan.lock
    ensures Inv(s.(workers := s.workers[w := after]))
  {
    hide Chosen;
  }

  /** Unlocking takes nothing away that ending the session would not. */
  lemma CloseReleases(s: System, w: nat)
    requires Inv(s) && w < |s.workers| && s.workers[w].phase.Leaving?
    ensures Close(s, w) == System(s.workers[w := Worker(Gone, false)], Released(s.holders, w))
  {
    hide Chosen;
    assert Close(s, w).holders == Released(s.holders, w);
  }

  lemma StepKeeps(s: System, e: Event)
    requires Inv(s)
    ensures Inv(Step(s, e))
  {
    if e.w < |s.workers| {
      hide Inv, Holds, TryLock, Close, Released;
      var me := s.workers[e.w];
      assert Chosen(me.phase) by { InvMeans(s, e.w); }
      match e
      case Starts(w, c) =>
        if me.phase.Starting? { StartKeeps(s, w, c); }
      case Tries(w) => if me.phase.Ready? { TryKeeps(s, w); }
      case Ends(w) => if me.phase.Inside? { EndKeeps(s, w); }
      case Closes(w) => if me.phase.Leaving? {
        CloseReleases(s, w);
        GoneKeeps(s, w);
      }
      case Dies(w) => GoneKeeps(s, w);
      case LosesSession(w) => LossKeeps(s, w);
    }
  }

  lemma InvMeans(s: System, w: nat)
    requires Inv(s) && w < |s.workers|
    ensures Chosen(s.workers[w].phase)
  {
  }

  lemma StartKeeps(s: System, w: nat, c: Config)
    requires Inv(s) && w < |s.workers| && s.workers[w].phase.Starting?
    ensures Inv(Step(s, Starts(w, c)))
  {
    hide Inv;
    PhaseKeeps(s, w, if Choose(c).None? then s.workers[w].(phase := Gone) else Worker(Ready(Choose(c).value), true));
  }

  lemma EndKeeps(s: System, w: nat)
    requires Inv(s) && w < |s.workers| && s.workers[w].phase.Inside?
    ensures Inv(SetPhase(s, w, Leaving(s.workers[w].phase.plan, true)))
  {
    hide Inv;
    InvMeans(s, w);
    PhaseKeeps(s, w, s.workers[w].(phase := Leaving(s.workers[w].phase.plan, true)));
  }

  lemma GoneKeeps(s: System, w: nat)
    requires Inv(s) && w < |s.workers|
    ensures Inv(System(s.workers[w := Worker(Gone, false)], Released(s.holders, w)))
  {
    hide Inv;
    ReleaseKeeps(s, w, Worker(Gone, false));
  }

  lemma LossKeeps(s: System, w: nat)
    requires Inv(s) && w < |s.workers|
    ensures Inv(System(s.workers[w := s.workers[w].(connected := false)], Released(s.holders, w)))
  {
    hide Inv;
    InvMeans(s, w);
    ReleaseKeeps(s, w, s.workers[w].(connected := false));
  }

  lemma {:induction false} RunKeeps(n: nat, events: seq<Event>)
    ensures Inv(Run(Start(n), events)) && |Run(Start(n), events).workers| == n
  {
    if |events| != 0 {
      hide Inv;
      RunKeeps(n, events[..|events| - 1]);
      StepKeeps(Run(Start(n), events[..|events| - 1]), events[|events| - 1]);
    }
  }

  /** Able to process a mandatory task type inside the locked section. */
  predicate RunsMandatory(w: Worker) {
    w.phase.Inside? && exists t :: t in w.phase.plan.active && Mandatory(t)
  }

  ghost predicate Exclusive(s: System) {
    forall i, j :: 0 <= i < j < |s.workers| && RunsMandatory(s.workers[i]) ==> !RunsMandatory(s.workers[j])
  }

  ghost predicate NobodyCutOff(s: System) {
    forall w :: 0 <= w < |s.workers| && s.workers[w].phase.Inside? ==> s.workers[w].connected
  }

  lemma MandatoryMeansFirstLock(w: Worker)
    requires Chosen(w.phase) && w.phase.Inside?
    ensures RunsMandatory(w) <==> w.phase.plan.lock == LOCK_ID
  {
    var c :| Choose(c) == Some(w.phase.plan);
    ChoiceIsSound(c);
  }

  /** In every run, as long as no worker lost its session while inside, at most one worker inside the locked section
      can process a mandatory type. */
  lemma AtMostOneRunsMandatory(n: nat, events: seq<Event>)
    requires NobodyCutOff(Run(Start(n), events))
    ensures Exclusive(Run(Start(n), events))
  {
    var s := Run(Start(n), events);
    RunKeeps(n, events);
    ExclusiveByLock(s);
  }

  lemma ExclusiveByLock(s: System)
    requires Inv(s) && NobodyCutOff(s)
    ensures Exclusive(s)
  {
    forall i, j | 0 <= i < j < |s.workers| && RunsMandatory(s.workers[i]) && RunsMandatory(s.workers[j]) ensures false {
      MandatoryMeansFirstLock(s.workers[i]);
      MandatoryMeansFirstLock(s.workers[j]);
      assert Holds(s.workers[i]) && Holds(s.workers[j]);
    }
  }

  /** The lock alone does not fence: once a worker inside loses its session, the next one to try goes in beside it. */
  lemma CutOffWorkerIsJoined(s: System, i: nat, j: nat)
    requires Inv(s) && i < |s.workers| && j < |s.workers| && i != j
    requires RunsMandatory(s.workers[i]) && s.workers[i].connected
    requires s.workers[j].phase.Ready? && s.workers[j].connected && s.workers[j].phase.plan.lock == LOCK_ID
    ensures !Exclusive(Step(Step(s, LosesSession(i)), Tries(j)))
  {
    assert s.workers[i].phase.Inside?;
    hide Choose, RunsMandatory, Inv, Step;
    InvMeans(s, i);
    InvMeans(s, j);
    MandatoryMeansFirstLock(s.workers[i]);
    BothInside(s, i, j);
    var both := Step(Step(s, LosesSession(i)), Tries(j));
    MandatoryMeansFirstLock(both.workers[i]);
    MandatoryMeansFirstLock(both.workers[j]);
    assert RunsMandatory(both.workers[i]) && RunsMandatory(both.workers[j]);
  }

  lemma BothInside(s: System, i: nat, j: nat)
    requires Inv(s) && i < |s.workers| && j < |s.workers| && i != j
    requires s.workers[i].phase.Inside? && s.workers[i].phase.plan.lock == LOCK_ID && s.workers[i].connected
    requires s.workers[j].phase.Ready? && s.workers[j].connected && s.workers[j].phase.plan.lock == LOCK_ID
    ensures var both := Step(Step(s, LosesSession(i)), Tries(j));
      && |both.workers| == |s.workers|
      && both.workers[i].phase == s.workers[i].phase && both.workers[j].phase == Inside(s.workers[j].phase.plan)
  {
    hide Chosen, Choose;
    assert Holds(s.workers[i]) && s.holders[LOCK_ID] == i;
    assert LOCK_ID !in Released(s.holders, i);
  }

  /** A try succeeds exactly when the worker is connected and no connected worker is in a section of the same lock:
      a worker that finished, failed or died leaves nothing behind. */
  lemma TryEntersExactly(s: System, w: nat)
    requires Inv(s) && w < |s.workers| && s.workers[w].phase.Ready?
    ensures Step(s, Tries(w)).workers[w].phase.Inside? <==>
      && s.workers[w].connected
      && forall v :: 0 <= v < |s.workers| && Holds(s.workers[v]) ==>
        s.workers[v].phase.plan.lock != s.workers[w].phase.plan.lock
  {
    hide Chosen;
    var lock := s.workers[w].phase.plan.lock;
    if lock in s.holders { assert Holds(s.workers[s.holders[lock]]); }
  }

  /** Only its holder's own events take a lock away. */
  lemma OnlyTheHolderUnlocks(s: System, e: Event, lock: nat)
    requires Inv(s) && lock in s.holders && s.holders[lock] != e.w
    ensures lock in Step(s, e).holders && Step(s, e).holders[lock] == s.holders[lock]
  {
    hide Chosen, Choose;
  }

  // ------------------------------------------------------------------ one run of the script

  class AdvisoryLocks {
    var holders: map<nat, nat>

    constructor ()
      ensures holders == map[]
    {
      holders := map[];
    }

    method Try(session: nat, lock: nat) returns (locked: bool)
      modifies this
      ensures locked <==> lock !in old(holders)
      ensures holders == if locked then old(holders)[lock := session] else old(holders)
    {
      locked := lock !in holders;
      if locked { holders := holders[lock := session]; }
    }

    /** Only the session that holds the lock can unlock it. */
    method Unlock(session: nat, lock: nat)
      modifies this
      ensures holders == if lock in old(holders) && old(holders)[lock] == session
                         then old(holders) - {lock} else old(holders)
    {
      if lock in holders && holders[lock] == session { holders := holders - {lock}; }
    }
  }

  datatype Ending = Stopped | LockedOut | Failed | Worked

  /** One uninterrupted run over a session that holds nothing yet. Whichever way it ends, it leaves the locks as it
      found them; it works exactly on the types of its plan, and only if its lock was free. */
  method ProcessPipelineTasks(c: Config, locks: AdvisoryLocks, session: nat, failing: bool)
    returns (ending: Ending, active: seq<TaskType>)
    requires session !in locks.holders.Values
    modifies locks
    ensures locks.holders == old(locks.holders)
    ensures ending == Stopped <==> Choose(c).None?
    ensures ending in {Failed, Worked} <==> Choose(c).Some? && Choose(c).value.lock !in old(locks.holders)
    ensures ending in {Failed, Worked} ==> active == Choose(c).value.active && (ending == Failed <==> failing)
  {
    hide Requested, Without;
    active := [];
    var requested := Requested(c);
    if requested.None? { return Stopped, []; }
    var explicit := ExtractQuotedRequirements in requested.value && c.listed.Some?;
    var types := requested.value;
    if !explicit && !c.optIn { types := Without(types, ExtractQuotedRequirements); }
    var lock := if |types| == 1 && types[0] == ExtractQuotedRequirements then QUOTED_LOCK_ID else LOCK_ID;
    var chosen := types;
    if c.preflight && ExtractQuotedRequirements in types && !c.extraction {
      if |chosen| == 1 && chosen[0] == ExtractQuotedRequirements { return Stopped, []; }
      chosen := Without(chosen, ExtractQuotedRequirements);
    }
    assert Choose(c) == Some(Plan(types, chosen, lock));
    var acquired := locks.Try(session, lock);
    if acquired {
      active := chosen;
      ending := if failing then Failed else Worked;
      locks.Unlock(session, lock);
    } else {
      ending := LockedOut;
    }
  }
}
