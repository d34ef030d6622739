/** parseEmails: batches of unprocessed alerts through the bounded runner, under a time budget. */
module ParseEmails {
  import opened Common
  import opened MailPipeline
  import opened MailWorkers
  import B = BoundedRunner

  function Unprocessed(): Alert -> bool { (a: Alert) => !a.processed }

  function Backlog(alerts: seq<Alert>): nat { Count(alerts, Unprocessed()) }

  /** An alert set aside for good: nothing in it could be staged. */
  function SetAside(): Alert -> bool { (a: Alert) => a.processed && a.lifecycle == SourceBlocked }

  function Withheld(alerts: seq<Alert>): nat { Count(alerts, SetAside()) }

  /** `taken` alerts left the backlog, `dropped` of them without anything staged. */
  ghost predicate Balanced(s: seq<Alert>, t: seq<Alert>, taken: int, dropped: int) {
    Backlog(t) + taken == Backlog(s) && Withheld(t) == Withheld(s) + dropped
  }

  /** The selection's WHERE clause; a replay also takes alerts blocked by the extractor. */
  predicate Eligible(a: Alert, replay: bool) {
    || !a.processed
    || (replay && a.lifecycle == SourceBlocked &&
        a.lastError in {Some(MissingPostingUrl), Some(ExtractionFailed)})
  }

  /** The alerts of one kind that are eligible and not attempted in this run, first received first. */
  function Candidates(alerts: seq<Alert>, replay: bool, attempted: seq<nat>, processed: bool): (ids: seq<nat>)
    ensures forall i :: 0 <= i < |ids| ==>
      ids[i] < |alerts| && Eligible(alerts[ids[i]], replay) && alerts[ids[i]].processed == processed &&
        ids[i] !in attempted
    ensures forall i, j :: 0 <= i < j < |ids| ==> ids[i] < ids[j]
    ensures forall a: nat ::
      (a < |alerts| && Eligible(alerts[a], replay) && alerts[a].processed == processed && a !in attempted ==> a in ids)
  {
    if |alerts| == 0 then []
    else
      var n := |alerts| - 1;
      var rest := Candidates(alerts[..n], replay, attempted, processed);
      assert forall i :: 0 <= i < |rest| ==> alerts[..n][rest[i]] == alerts[rest[i]];
      assert forall a: nat :: a < n ==> alerts[..n][a] == alerts[a];
      if Eligible(alerts[n], replay) && alerts[n].processed == processed && n !in attempted then rest + [n] else rest
  }

  /** By rank within each kind, the unprocessed alert first: the replay query's fairness order. */
  function Interleave(a: seq<nat>, b: seq<nat>): (s: seq<nat>)
    ensures |s| == |a| + |b|
  {
    if |a| == 0 then b else if |b| == 0 then a else [a[0], b[0]] + Interleave(a[1..], b[1..])
  }

  /** The rows the query could return: alerts are numbered in the order it sorts by. */
  function Ranked(alerts: seq<Alert>, replay: bool, attempted: seq<nat>): seq<nat> {
    var unread := Candidates(alerts, replay, attempted, false);
    if replay then Interleave(unread, Candidates(alerts, replay, attempted, true)) else unread
  }

  function Select(alerts: seq<Alert>, replay: bool, attempted: seq<nat>, limit: nat): seq<nat> {
    var all := Ranked(alerts, replay, attempted);
    if |all| <= limit then all else all[..limit]
  }

  lemma {:induction false} InterleaveKeeps(a: seq<nat>, b: seq<nat>)
    requires Distinct(a) && Distinct(b) && forall i, j :: 0 <= i < |a| && 0 <= j < |b| ==> a[i] != b[j]
    ensures Distinct(Interleave(a, b)) && forall x :: x in Interleave(a, b) <==> x in a || x in b
  {
    if |a| != 0 && |b| != 0 {
      InterleaveKeeps(a[1..], b[1..]);
      assert a == [a[0]] + a[1..] && b == [b[0]] + b[1..];
      var s := Interleave(a[1..], b[1..]);
      forall k | 0 <= k < |s| ensures s[k] != a[0] && s[k] != b[0] { assert s[k] in s; }
    }
  }

  /** The candidates are exactly the eligible alerts not attempted before, each once. */
  lemma RankedFacts(alerts: seq<Alert>, replay: bool, attempted: seq<nat>)
    ensures var all := Ranked(alerts, replay, attempted);
      && Distinct(all)
      && forall a: nat :: a in all <==> a < |alerts| && Eligible(alerts[a], replay) && a !in attempted
  {
    var unread := Candidates(alerts, replay, attempted, false);
    var retried := Candidates(alerts, replay, attempted, true);
    InterleaveKeeps(unread, retried);
    hide Candidates, Interleave;
    forall a: nat
      ensures a in Ranked(alerts, replay, attempted) <==>
        a < |alerts| && Eligible(alerts[a], replay) && a !in attempted
    {
      if a < |alerts| && Eligible(alerts[a], replay) && a !in attempted {
        assert a in if alerts[a].processed then retried else unread;
      }
    }
  }

  /** A replay gives another chance to alerts set aside because nothing was found in them. */
  predicate Retriable(a: Alert) {
    a.lifecycle == SourceBlocked && (a.lastError == Some(MissingPostingUrl) || a.lastError == Some(ExtractionFailed))
  }

  /** What a batch is: different alerts not attempted before, unprocessed ones or in a replay retriable ones, and none
      only if none is left. */
  lemma SelectFacts(alerts: seq<Alert>, replay: bool, attempted: seq<nat>, limit: nat)
    ensures var ids := Select(alerts, replay, attempted, limit);
      && |ids| <= limit && Distinct(ids)
      && (forall i :: 0 <= i < |ids| ==>
           && ids[i] < |alerts| && ids[i] !in attempted
           && (alerts[ids[i]].processed ==> replay && Retriable(alerts[ids[i]])))
      && (limit > 0 && |ids| == 0 ==> forall a: nat :: a < |alerts| ==>
           a in attempted || (alerts[a].processed && !(replay && Retriable(alerts[a]))))
  {
    RankedFacts(alerts, replay, attempted);
    hide Ranked;
    var all, ids := Ranked(alerts, replay, attempted), Select(alerts, replay, attempted, limit);
    forall i | 0 <= i < |ids| ensures ids[i] in all {
      assert ids[i] == all[i];
    }
  }

  /** A plain batch takes the first alerts received, in that order. */
  lemma PlainBatchIsFirst(alerts: seq<Alert>, attempted: seq<nat>, limit: nat)
    ensures var ids := Select(alerts, false, attempted, limit);
      && (forall i, j :: 0 <= i < j < |ids| ==> ids[i] < ids[j])
      && forall a: nat :: a < |alerts| && !alerts[a].processed && a !in attempted && a !in ids ==>
           |ids| == limit && forall i :: 0 <= i < |ids| ==> ids[i] < a
  {
    var all, ids := Candidates(alerts, false, attempted, false), Select(alerts, false, attempted, limit);
    hide Candidates;
    forall a: nat | a < |alerts| && !alerts[a].processed && a !in attempted && a !in ids
      ensures |ids| == limit && forall i :: 0 <= i < |ids| ==> ids[i] < a
    {
      assert a in all;
      var k :| 0 <= k < |all| && all[k] == a;
      assert |ids| <= k by { assert forall m :: 0 <= m < |ids| ==> ids[m] == all[m]; }
    }
  }

  lemma PairInFront(a: seq<nat>, b: seq<nat>, s: seq<nat>, k: nat, f: nat, g: nat)
    requires |a| > 0 && |b| > 0 && k <= |s| && f < |a| && g < |b|
    requires multiset(s[..k]) == multiset(a[1..][..f]) + multiset(b[1..][..g])
    ensures multiset(([a[0], b[0]] + s)[..k + 2]) == multiset(a[..f + 1]) + multiset(b[..g + 1])
  {
    assert ([a[0], b[0]] + s)[..k + 2] == [a[0]] + [b[0]] + s[..k];
    assert a[..f + 1] == [a[0]] + a[1..][..f] && b[..g + 1] == [b[0]] + b[1..][..g];
  }

  lemma InterleaveCases(a: seq<nat>, b: seq<nat>)
    ensures Interleave(a, b) ==
      if |a| == 0 then b else if |b| == 0 then a else [a[0], b[0]] + Interleave(a[1..], b[1..])
  {
  }

  /** A replay batch is fair: it takes the first alerts of each kind, as many of both as it can, and one more
      unprocessed one when their number is odd; only when one kind runs out does the other fill the batch. */
  lemma {:induction false} InterleaveIsFair(a: seq<nat>, b: seq<nat>, limit: nat) returns (unread: nat, retried: nat)
    requires limit <= |a| + |b|
    ensures unread <= |a| && retried <= |b| && unread + retried == limit
    ensures multiset(Interleave(a, b)[..limit]) == multiset(a[..unread]) + multiset(b[..retried])
    ensures
      || retried <= unread <= retried + 1
      || (unread == |a| && retried > unread)
      || (retried == |b| && unread > retried)
  {
    InterleaveCases(a, b);
    hide Interleave;
    var s := Interleave(a, b);
    if |a| == 0 {
      unread, retried := 0, limit;
      assert a[..0] == [];
    } else if |b| == 0 {
      unread, retried := limit, 0;
      assert b[..0] == [];
    } else if limit <= 1 {
      unread, retried := limit, 0;
      assert s[..limit] == a[..limit] && b[..0] == [];
    } else {
      var f, g := InterleaveIsFair(a[1..], b[1..], limit - 2);
      unread, retried := f + 1, g + 1;
      PairInFront(a, b, Interleave(a[1..], b[1..]), limit - 2, f, g);
    }
  }

  /** So a replay batch, of whatever size, draws fairly on the unprocessed alerts and on those retried. */
  lemma ReplayBatchIsFair(alerts: seq<Alert>, attempted: seq<nat>, limit: nat) returns (unread: nat, retried: nat)
    ensures var a, b := Candidates(alerts, true, attempted, false), Candidates(alerts, true, attempted, true);
      var ids := Select(alerts, true, attempted, limit);
      && unread <= |a| && retried <= |b| && unread + retried == |ids| == Lesser(limit, |a| + |b|)
      && multiset(ids) == multiset(a[..unread]) + multiset(b[..retried])
      && (retried <= unread <= retried + 1 || (unread == |a| && retried > unread) ||
          (retried == |b| && unread > retried))
  {
    var a, b := Candidates(alerts, true, attempted, false), Candidates(alerts, true, attempted, true);
    hide Candidates, Interleave;
    unread, retried := InterleaveIsFair(a, b, Lesser(limit, |a| + |b|));
    var all := Interleave(a, b);
    assert all[..|all|] == all;
  }

  function Lesser(a: nat, b: nat): nat { if a <= b then a else b }

  /** What can go wrong with one alert besides its content. */
  datatype Fate = Fine | StagingThrows | Fatal(error: nat)

  datatype Summary = Summary(parsed: nat, extracted: nat, failed: nat, noVacancy: nat, deferred: nat, batches: nat,
                             remaining: nat, stopped: bool)

  datatype Counters = Counters(parsed: nat, extracted: nat, failed: nat, noVacancy: nat, deferred: nat, stopped: bool)

  /** How one alert counts: it is put off once the deadline has come, and otherwise counts by what the extractor found
      in it and whether all of that could be staged; a fatal error counts as nothing. */
  ghost function Counted(c: Counters, late: bool, fate: Fate, x: Extraction): Counters {
    if late then c.(deferred := c.deferred + 1, stopped := true)
    else if fate.Fatal? then c
    else if x == Cards([]) then c.(noVacancy := c.noVacancy + 1)
    else if x.Cards? && fate.Fine? && forall i :: 0 <= i < |x.cards| ==> x.cards[i].valid
    then c.(parsed := c.parsed + 1, extracted := c.extracted + |x.cards|)
    else c.(failed := c.failed + 1)
  }

  /** The variables the run and its workers share. */
  class ParseRun {
    const clock: nat -> int
    var ticks: nat
    var deadline: int
    var attempted: seq<nat>
    var parsed: nat
    var extracted: nat
    var failed: nat
    var noVacancy: nat
    var deferred: nat
    var batches: nat
    var stopped: bool
    /** Of `failed`, the alerts recorded as SOURCE_BLOCKED rather than left for a retry. */
    ghost var blocked: nat

    constructor (clock: nat -> int, seconds: int)
      ensures this.clock == clock && ticks == 1 && deadline == clock(0) + 1000 * seconds
      ensures attempted == [] && Handled() == 0 && Taken() == 0 && failed == blocked == 0
      ensures !stopped && batches == 0 && deferred == 0
    {
      this.clock := clock;
      ticks, deadline := 1, clock(0) + seconds * 1000;
      attempted, parsed, extracted, failed, noVacancy, deferred, batches := [], 0, 0, 0, 0, 0, 0;
      stopped, blocked := false, 0;
    }

    /** Every alert counted once, under the heading it ended in. */
    function Handled(): nat
      reads this
    {
      parsed + noVacancy + failed + deferred
    }

    /** Alerts this run moved out of the backlog. */
    ghost function Taken(): nat
      reads this
    {
      parsed + Dropped()
    }

    /** Those of them it found nothing to stage in. */
    ghost function Dropped(): nat
      reads this
    {
      noVacancy + blocked
    }

    ghost function Counts(): Counters
      reads this
    {
      Counters(parsed, extracted, failed, noVacancy, deferred, stopped)
    }

    /** The worker's last statement. */
    method CountOutcome(outcome: EmailOutcome)
      modifies this`parsed, this`extracted, this`noVacancy, this`failed, this`blocked
      ensures Counts() == match outcome
        case CardsStaged(links) =>
          old(Counts()).(parsed := old(parsed) + 1, extracted := old(extracted) + links)
        case WithoutVacancy => old(Counts()).(noVacancy := old(noVacancy) + 1)
        case _ => old(Counts()).(failed := old(failed) + 1)
      ensures blocked == old(blocked) + if outcome == Blocked then 1 else 0
    {
      match outcome
      case CardsStaged(links) => parsed, extracted := parsed + 1, extracted + links;
      case WithoutVacancy => noVacancy := noVacancy + 1;
      case Blocked => failed, blocked := failed + 1, blocked + 1;
      case Failed => failed := failed + 1;
    }

    method Now() returns (t: int)
      modifies this`ticks
      ensures t == clock(old(ticks)) && ticks == old(ticks) + 1
    {
      t := clock(ticks);
      ticks := ticks + 1;
    }
  }

  lemma BacklogUpdate(alerts: seq<Alert>, a: nat, x: Alert)
    requires a < |alerts|
    ensures Backlog(alerts[a := x]) + (if alerts[a].processed then 0 else 1) == Backlog(alerts) +
      (if x.processed then 0 else 1)
    ensures Withheld(alerts[a := x]) + (if SetAside()(alerts[a]) then 1 else 0) == Withheld(alerts) +
      (if SetAside()(x) then 1 else 0)
  {
    CountUpdate(alerts, a, x, Unprocessed());
    CountUpdate(alerts, a, x, SetAside());
  }

  /** Blocked alerts are failed ones; alerts are deferred only once the run has stopped, and it stops only when the
      clock showed the deadline. */
  ghost predicate Tidy(run: ParseRun)
    reads run
  {
    && run.blocked <= run.failed && (run.deferred > 0 ==> run.stopped)
    && (run.stopped ==> exists i: nat :: run.clock(i) >= run.deadline)
  }

  /** Only alert `a` differs, and it is still there. */
  ghost predicate OnlyAlert(s: seq<Alert>, t: seq<Alert>, a: nat) {
    |s| == |t| && forall b: nat :: b < |s| && b != a ==> t[b] == s[b]
  }

  /** The table keeps its rows, and those outside the list are as they were. */
  ghost predicate Untouched(s: seq<Alert>, t: seq<Alert>, except: seq<nat>) {
    |s| == |t| && forall a: nat :: a < |s| && a !in except ==> t[a] == s[a]
  }

  lemma UntouchedTwice(s: seq<Alert>, t: seq<Alert>, u: seq<Alert>, except: seq<nat>)
    requires Untouched(s, t, except) && Untouched(t, u, except)
    ensures Untouched(s, u, except)
  {
  }

  datatype EmailOutcome = CardsStaged(links: nat) | WithoutVacancy | Blocked | Failed

  /** What stageEmail does to the tables and reports, when the infrastructure holds. */
  function AfterStaging(t: Tables, a: nat, x: Extraction, throws: bool): (Tables, EmailOutcome)
    requires a < |t.alerts|
  {
    match x
    case Unreadable(problem) => (MarkBlocked(t, a, problem), Blocked)
    case Cards(cards) =>
      if |cards| == 0 then (MarkBlocked(t, a, MissingPostingUrl), WithoutVacancy)
      else if throws || !AllValid(cards) then (MarkFailed(t, a), Failed)
      else (StageCards(t, a, cards), CardsStaged(|cards|))
  }

  /** What parsing did to an alert: it is newly pending only with every card found staged, and newly blocked only if no
      card was found. */
  ghost predicate TreatedBy(r: Alert, u: Tables, a: nat, x: Extraction)
    requires a < |u.alerts|
  {
    var q := u.alerts[a];
    && (q.lifecycle == SourcePending && r.lifecycle != SourcePending ==>
          x.Cards? && |x.cards| > 0 && AllValid(x.cards) && AllStaged(u, a, x.cards))
    && (q.lifecycle == SourceBlocked && r.lifecycle != SourceBlocked ==> x.Unreadable? || |x.cards| == 0)
    && q.message == r.message
  }

  /** What parsing did to the tables: rows were only added to, consistent tables stay so, and each alert was treated by
      what the extractor found in it. */
  ghost predicate Progress(t: Tables, u: Tables, extract: nat -> Extraction) {
    && |u.alerts| == |t.alerts| && Grows(t, u)
    && (TablesAgree(t) ==> TablesAgree(u))
    && forall a: nat :: a < |t.alerts| ==> TreatedBy(t.alerts[a], u, a, extract(a))
  }

  lemma NoProgress(t: Tables, extract: nat -> Extraction)
    ensures Progress(t, t, extract)
  {
  }

  lemma ProgressTwice(t: Tables, u: Tables, v: Tables, extract: nat -> Extraction)
    requires Progress(t, u, extract) && Progress(u, v, extract)
    ensures Progress(t, v, extract)
  {
    hide TablesAgree, AllValid;
    forall a: nat | a < |t.alerts| ensures TreatedBy(t.alerts[a], v, a, extract(a)) {
      assert TreatedBy(t.alerts[a], u, a, extract(a)) && TreatedBy(u.alerts[a], v, a, extract(a));
      if extract(a).Cards? && AllStaged(u, a, extract(a).cards) { StaysStaged(u, v, a, extract(a).cards); }
    }
  }

  lemma StaysStaged(u: Tables, v: Tables, a: nat, cards: seq<Card>)
    requires Grows(u, v) && AllStaged(u, a, cards)
    ensures AllStaged(v, a, cards)
  {
    forall i | 0 <= i < |cards| ensures (a, cards[i].id) in v.observations {
      assert (a, cards[i].id) in u.observations.Keys;
    }
  }

  /** What staging makes of one alert and its cards, in each of the four cases. */
  lemma StagedExactly(t: Tables, a: nat, x: Extraction, throws: bool)
    requires a < |t.alerts|
    ensures var u, r := AfterStaging(t, a, x, throws).0, t.alerts[a];
      var staged := x.Cards? && |x.cards| > 0 && !throws && forall i :: 0 <= i < |x.cards| ==> x.cards[i].valid;
      && |u.alerts| == |t.alerts|
      && u.alerts[a] ==
         (if staged then Alert(r.message, true, SourcePending, None)
          else if x.Unreadable? then Alert(r.message, true, SourceBlocked, Some(x.problem))
          else if x.cards == [] then Alert(r.message, true, SourceBlocked, Some(MissingPostingUrl))
          else r.(lastError := Some(StagingFailed)))
      && (!staged ==> u.observations == t.observations && u.tasks == t.tasks)
      && (staged ==> forall i :: 0 <= i < |x.cards| ==>
           var k := (a, x.cards[i].id); k in u.tasks && k in u.observations && u.observations[k] == FetchPending)
      && (staged ==> forall k :: k in u.observations && k.0 != a ==>
           k in t.observations && u.observations[k] == t.observations[k])
  {
    if x.Cards? && AllValid(x.cards) {
      assert forall i :: 0 <= i < |x.cards| ==> (a, x.cards[i].id) in KeysOf(a, x.cards);
    }
  }

  lemma OutcomeIs(t: Tables, a: nat, x: Extraction, throws: bool)
    requires a < |t.alerts|
    ensures AfterStaging(t, a, x, throws).1 ==
      if x.Unreadable? then Blocked
      else if x == Cards([]) then WithoutVacancy
      else if !throws && forall i :: 0 <= i < |x.cards| ==> x.cards[i].valid then CardsStaged(|x.cards|)
      else Failed
  {
  }

  /** Whatever the tables hold, staging touches one alert, treats it by what was found, and takes it out of the backlog
      unless it failed. */
  lemma AfterStagingFacts(t: Tables, a: nat, extract: nat -> Extraction, throws: bool)
    requires a < |t.alerts|
    ensures var (u, outcome) := AfterStaging(t, a, extract(a), throws);
      && Progress(t, u, extract) && OnlyAlert(t.alerts, u.alerts, a)
      && (!t.alerts[a].processed ==>
           Balanced(t.alerts, u.alerts, if outcome == Failed then 0 else 1,
                    if outcome in {WithoutVacancy, Blocked} then 1 else 0))
  {
    var (u, outcome) := AfterStaging(t, a, extract(a), throws);
    assert u.alerts == t.alerts[a := u.alerts[a]];
    BacklogUpdate(t.alerts, a, u.alerts[a]);
    match extract(a)
    case Unreadable(problem) => MarkKeeps(t, a, problem);
    case Cards(cards) =>
      MarkKeeps(t, a, MissingPostingUrl);
      if |cards| > 0 {
        StageKeeps(t, a, cards);
        if AllValid(cards) { StageEffect(t, a, cards); }
      }
  }

  method StageEmail(store: MailStore, a: nat, x: Extraction, throws: bool) returns (outcome: EmailOutcome)
    requires a < |store.alerts|
    modifies store
    ensures (store.View(), outcome) == AfterStaging(old(store.View()), a, x, throws)
  {
    match x
    case Unreadable(problem) =>
      store.Block(a, problem);
      outcome := Blocked;
    case Cards(cards) =>
      if |cards| == 0 {
        store.Block(a, MissingPostingUrl);
        return WithoutVacancy;
      }
      var committed := false;
      if !throws { committed := store.StageAll(a, cards); }
      if committed {
        outcome := CardsStaged(|cards|);
      } else {
        store.RecordFailure(a);
        outcome := Failed;
      }
  }

  lemma BalancedTwice(s: seq<Alert>, t: seq<Alert>, u: seq<Alert>, taken: int, dropped: int, more: int, gone: int)
    requires Balanced(s, t, taken, dropped) && Balanced(t, u, more, gone)
    ensures Balanced(s, u, taken + more, dropped + gone)
  {
  }

  lemma NothingTreated(t: Tables, a: nat, extract: nat -> Extraction)
    ensures Progress(t, t, extract) && OnlyAlert(t.alerts, t.alerts, a) && Balanced(t.alerts, t.alerts, 0, 0)
  {
  }

  /** One alert's turn: it is counted under exactly one heading unless its error is fatal. */
  method HandleEmail(store: MailStore, run: ParseRun, a: nat, fate: Fate, extract: nat -> Extraction)
    returns (error: Option<nat>)
    requires a < |store.alerts| && Tidy(run)
    modifies store, run
    ensures Progress(old(store.View()), store.View(), extract) && OnlyAlert(old(store.alerts), store.alerts, a)
    ensures Tidy(run)
    ensures run.attempted == old(run.attempted) && run.batches == old(run.batches) && run.deadline == old(run.deadline)
    ensures var late := run.clock(old(run.ticks)) >= run.deadline;
      && error == (if !late && fate.Fatal? then Some(fate.error) else None)
      && (late || fate.Fatal? ==> store.View() == old(store.View()))
      && run.Counts() == Counted(old(run.Counts()), late, fate, extract(a))
    ensures error.Some? ==> run.Handled() == old(run.Handled())
    ensures error.None? ==> run.Handled() == old(run.Handled()) + 1
    ensures !old(store.alerts)[a].processed ==>
      Balanced(old(store.alerts), store.alerts, run.Taken() - old(run.Taken()), run.Dropped() - old(run.Dropped()))
  {
    hide Progress, Backlog, Withheld, Balanced, AfterStaging, OnlyAlert, TreatedBy, Grows, TablesAgree, AllValid;
    error := None;
    NothingTreated(store.View(), a, extract);
    var now := run.Now();
    if now >= run.deadline {
      run.stopped, run.deferred := true, run.deferred + 1;
      return;
    }
    if fate.Fatal? { return Some(fate.error); }
    AfterStagingFacts(store.View(), a, extract, fate == StagingThrows);
    OutcomeIs(store.View(), a, extract(a), fate == StagingThrows);
    var outcome := StageEmail(store, a, extract(a), fate == StagingThrows);
    run.CountOutcome(outcome);
  }

  /** The batch still owes these alerts a turn, and in a plain run they are still unprocessed. */
  ghost predicate Waiting(alerts: seq<Alert>, emails: seq<nat>, settled: seq<nat>, replay: bool) {
    && (forall i :: 0 <= i < |emails| ==> emails[i] < |alerts|)
    && (!replay ==> forall i: nat :: i < |emails| && i !in settled ==> !alerts[emails[i]].processed)
  }

  lemma WaitingMeans(alerts: seq<Alert>, emails: seq<nat>, settled: seq<nat>, item: nat, replay: bool)
    requires Waiting(alerts, emails, settled, replay) && item < |emails| && item !in settled
    ensures emails[item] < |alerts| && (!replay ==> !alerts[emails[item]].processed)
  {
  }

  lemma WaitingAfter(s: seq<Alert>, t: seq<Alert>, emails: seq<nat>, settled: seq<nat>, item: nat, replay: bool)
    requires Waiting(s, emails, settled, replay) && Distinct(emails) && item < |emails|
    requires OnlyAlert(s, t, emails[item])
    ensures Waiting(t, emails, settled + [item], replay)
  {
    forall i: nat | i < |emails| && i !in settled + [item] ensures i !in settled && emails[i] != emails[item] {
      assert i != item by { assert (settled + [item])[|settled|] == item; }
    }
  }

  /** Each of the errors is the fatal error of some alert of the list. */
  ghost predicate FatalIn(errors: seq<nat>, emails: seq<nat>, fate: nat -> Fate) {
    forall e :: e in errors ==> exists a :: a in emails && fate(a) == Fatal(e)
  }

  lemma ViewIs(store: MailStore)
    ensures store.View().alerts == store.alerts
  {
  }

  lemma BatchStarts(t: Tables, emails: seq<nat>, concurrency: int, extract: nat -> Extraction, fate: nat -> Fate)
    ensures var pool := B.Start(|emails|, concurrency);
      && B.Inv(pool) && pool.total == |emails| && pool.settled == [] && pool.failures == []
      && (|pool.lanes| == 0 <==> concurrency <= 0 || |emails| == 0)
    ensures Untouched(t.alerts, t.alerts, emails) && Progress(t, t, extract)
    ensures Balanced(t.alerts, t.alerts, 0, 0) && FatalIn([], emails, fate)
  {
    B.StartInv(|emails|, concurrency);
    NoProgress(t, extract);
  }

  /** forEachBounded over one batch, in whatever order the lanes happen to proceed and settle. */
  method RunBatch(store: MailStore, run: ParseRun, emails: seq<nat>, concurrency: int, replay: bool,
                  extract: nat -> Extraction, fate: nat -> Fate) returns (error: Option<nat>, ghost thrown: seq<nat>)
    requires Distinct(emails) && Waiting(store.alerts, emails, [], replay)
    requires Tidy(run)
    modifies store, run
    ensures FatalIn(thrown, emails, fate) && error == if thrown == [] then None else Some(thrown[0])
    ensures Progress(old(store.View()), store.View(), extract) && Untouched(old(store.alerts), store.alerts, emails)
    ensures Tidy(run)
    ensures run.attempted == old(run.attempted) && run.batches == old(run.batches) && run.deadline == old(run.deadline)
    ensures !replay ==>
      Balanced(old(store.alerts), store.alerts, run.Taken() - old(run.Taken()), run.Dropped() - old(run.Dropped()))
    ensures error.None? && concurrency >= 1 ==> run.Handled() == old(run.Handled()) + |emails|
    ensures concurrency <= 0 ==> error.None? && store.View() == old(store.View()) && run.Handled() == old(run.Handled())
  {
    hide *;
    ViewIs(store);
    BatchStarts(store.View(), emails, concurrency, extract, fate);
    var pool := B.Start(|emails|, concurrency);
    ghost var lanes := |pool.lanes|;
    while !B.Finished(pool)
      invariant B.Inv(pool) && pool.total == |emails| && |pool.lanes| == lanes
      invariant Progress(old(store.View()), store.View(), extract)
      invariant Untouched(old(store.alerts), store.alerts, emails)
      invariant Waiting(store.alerts, emails, pool.settled, replay)
      invariant Tidy(run)
      invariant run.attempted == old(run.attempted) && run.batches == old(run.batches) &&
        run.deadline == old(run.deadline)
      invariant !replay ==>
      Balanced(old(store.alerts), store.alerts, run.Taken() - old(run.Taken()), run.Dropped() - old(run.Dropped()))
      invariant run.Handled() + |pool.failures| == old(run.Handled()) + |pool.settled|
      invariant FatalIn(pool.failures, emails, fate)
      invariant |pool.lanes| == 0 ==> store.View() == old(store.View()) && pool.settled == [] && |pool.failures| == 0
      decreases B.Work(pool)
    {
      B.SomeLaneLeft(pool);
      var lane :| 0 <= lane < |pool.lanes| && pool.lanes[lane] != B.Done;
      ViewIs(store);
      ghost var before, taken, dropped := store.View(), run.Taken(), run.Dropped();
      ghost var failures := pool.failures;
      pool := AdvanceLane(store, run, emails, pool, lane, replay, extract, fate);
      FatalTogether(failures, pool.failures, emails, fate);
      UntouchedTwice(old(store.alerts), before.alerts, store.alerts, emails);
      if !replay {
        BalancedTwice(old(store.alerts), before.alerts, store.alerts, taken - old(run.Taken()),
                      dropped - old(run.Dropped()), run.Taken() - taken, run.Dropped() - dropped);
      }
      ProgressTwice(old(store.View()), before, store.View(), extract);
    }
    B.AllSettled(pool);
    error, thrown := if |pool.failures| > 0 then Some(pool.failures[0]) else None, pool.failures;
  }

  lemma FirstFatal(thrown: seq<nat>, emails: seq<nat>, attempted: seq<nat>, fate: nat -> Fate)
    requires FatalIn(thrown, emails, fate) && thrown != [] && forall a :: a in emails ==> a in attempted
    ensures exists a :: a in attempted && fate(a) == Fatal(thrown[0])
  {
    assert thrown[0] in thrown;
  }

  lemma FatalTogether(before: seq<nat>, after: seq<nat>, emails: seq<nat>, fate: nat -> Fate)
    requires before <= after && FatalIn(before, emails, fate) && FatalIn(after[|before|..], emails, fate)
    ensures FatalIn(after, emails, fate)
  {
    assert after == before + after[|before|..];
  }

  /** One step of one lane: it draws the next item or stops, or the worker of its item runs to the end. */
  method AdvanceLane(store: MailStore, run: ParseRun, emails: seq<nat>, pool: B.Pool, lane: nat, replay: bool,
                    extract: nat -> Extraction, fate: nat -> Fate) returns (after: B.Pool)
    requires B.Inv(pool) && pool.total == |emails| && lane < |pool.lanes| && pool.lanes[lane] != B.Done
    requires Distinct(emails) && Waiting(store.alerts, emails, pool.settled, replay)
    requires Tidy(run)
    modifies store, run
    ensures B.Inv(after) && after.total == pool.total && |after.lanes| == |pool.lanes| &&
      0 <= B.Work(after) < B.Work(pool)
    ensures Progress(old(store.View()), store.View(), extract) && Untouched(old(store.alerts), store.alerts, emails)
    ensures Waiting(store.alerts, emails, after.settled, replay) && Tidy(run)
    ensures run.attempted == old(run.attempted) && run.batches == old(run.batches) && run.deadline == old(run.deadline)
    ensures !replay ==>
      Balanced(old(store.alerts), store.alerts, run.Taken() - old(run.Taken()), run.Dropped() - old(run.Dropped()))
    ensures run.Handled() + |after.failures| - |pool.failures| == old(run.Handled()) + |after.settled| - |pool.settled|
    ensures pool.failures <= after.failures && FatalIn(after.failures[|pool.failures|..], emails, fate)
  {
    if pool.lanes[lane] == B.Ready {
      NoProgress(store.View(), extract);
      hide Progress, B.Inv, Waiting, Backlog, Withheld, B.Work, Tidy;
      B.ProceedKeeps(pool, lane);
      B.StepsAreFinite(pool, B.Proceed(lane));
      after := B.Step(pool, B.Proceed(lane));
      return;
    }
    var item := pool.lanes[lane].item;
    B.BusyItem(pool, lane);
    WaitingMeans(store.alerts, emails, pool.settled, item, replay);
    hide Progress, B.Inv, Waiting, Backlog, Withheld, B.Work, Tidy;
    ghost var before := store.alerts;
    var thrown := HandleEmail(store, run, emails[item], fate(emails[item]), extract);
    WaitingAfter(before, store.alerts, emails, pool.settled, item, replay);
    B.SettleShape(pool, lane, thrown);
    B.SettleKeeps(pool, lane, thrown);
    B.StepsAreFinite(pool, B.Settle(lane, thrown));
    after := B.Step(pool, B.Settle(lane, thrown));
  }

  // ------------------------------------------------------------------ the batch loop

  lemma AppendDistinct(a: seq<nat>, b: seq<nat>)
    requires Distinct(a) && Distinct(b) && forall i :: 0 <= i < |b| ==> b[i] !in a
    ensures Distinct(a + b)
  {
  }

  datatype Parsed = Completed(summary: Summary) | Threw(error: nat)

  /**
   A whole run, for every clock, every extraction result, every failure and every order in which the
   lanes settle. It terminates because each batch attempts alerts that no earlier batch attempted,
   even when they keep failing. Every attempted alert ends under exactly one heading, and the backlog
   shrinks by exactly those that were parsed, had no vacancy, or were blocked.
   */
  method Parse(store: MailStore, replay: bool, limit: nat, concurrency: int, seconds: int, clock: nat -> int,
               extract: nat -> Extraction, fate: nat -> Fate)
    returns (r: Parsed, ghost attempted: seq<nat>, ghost blocked: nat)
    modifies store
    ensures Progress(old(store.View()), store.View(), extract)
    ensures Distinct(attempted)
    ensures forall a: nat :: a < |store.alerts| && a !in attempted ==> store.alerts[a] == old(store.alerts)[a]
    ensures r.Completed? ==> var s := r.summary;
      && s.remaining == Backlog(store.alerts)
      && (concurrency >= 1 ==> s.parsed + s.noVacancy + s.failed + s.deferred == |attempted|)
      && (concurrency <= 0 ==> s.parsed + s.noVacancy + s.failed + s.deferred == 0)
      && (s.deferred > 0 ==> s.stopped)
      && (s.stopped ==> exists i: nat :: clock(i) >= clock(0) + 1000 * seconds)
      && s.batches <= |attempted| && (s.batches == 0 <==> attempted == [])
      && blocked <= s.failed
      && (!replay ==>
            && s.remaining + s.parsed + s.noVacancy + blocked == Backlog(old(store.alerts))
            && Withheld(store.alerts) == Withheld(old(store.alerts)) + s.noVacancy + blocked)
    ensures clock(1) >= clock(0) + 1000 * seconds ==> attempted == [] && r.Completed? && r.summary.stopped
    ensures r.Threw? ==> exists a :: a in attempted && fate(a) == Fatal(r.error)
    ensures r.Completed? && !r.summary.stopped && !replay && limit > 0 ==>
      forall a :: 0 <= a < |store.alerts| && !store.alerts[a].processed ==> a in attempted
  {
    var run := new ParseRun(clock, seconds);
    NoProgress(store.View(), extract);
    hide TablesAgree, Backlog, Withheld, Grows, TreatedBy;
    var more, error := true, None;
    while more
      invariant fresh(run) && run.clock == clock && run.deadline == clock(0) + 1000 * seconds
      invariant more && run.attempted == [] ==> run.ticks == 1
      invariant clock(1) >= run.deadline ==> run.attempted == [] && (more || (error.None? && run.stopped))
      invariant Progress(old(store.View()), store.View(), extract)
      invariant Attempts(run, |store.alerts|) && Tidy(run)
      invariant forall a: nat :: a < |store.alerts| && a !in run.attempted ==> store.alerts[a] == old(store.alerts)[a]
      invariant error.None? ==> concurrency >= 1 ==> run.Handled() == |run.attempted|
      invariant error.None? ==> concurrency <= 0 ==> run.Handled() == 0
      invariant !replay ==> Balanced(old(store.alerts), store.alerts, run.Taken(), run.Dropped())
      invariant error.Some? ==> !more && exists a :: a in run.attempted && fate(a) == Fatal(error.value)
      invariant run.batches <= |run.attempted| && (run.batches == 0 <==> run.attempted == [])
      invariant !more && error.None? && !run.stopped && !replay && limit > 0 ==>
        forall a :: 0 <= a < |store.alerts| && !store.alerts[a].processed ==> a in run.attempted
      decreases |store.alerts| - |run.attempted|, more
    {
      ghost var before := store.View();
      more, error := ParseBatch(store, run, replay, limit, concurrency, extract, fate);
      ProgressTwice(old(store.View()), before, store.View(), extract);
    }
    attempted, blocked := run.attempted, run.blocked;
    if error.Some? { return Parsed.Threw(error.value), attempted, blocked; }
    r := Completed(Summary(run.parsed, run.extracted, run.failed, run.noVacancy, run.deferred, run.batches,
                           Backlog(store.alerts), run.stopped));
  }

  /** The attempted alerts are distinct rows of the table. */
  ghost predicate Attempts(run: ParseRun, total: nat)
    reads run
  {
    && Distinct(run.attempted) && |run.attempted| <= total
    && forall i :: 0 <= i < |run.attempted| ==> run.attempted[i] < total
  }

  lemma BatchIsNew(alerts: seq<Alert>, replay: bool, attempted: seq<nat>, limit: nat)
    requires Distinct(attempted) && forall i :: 0 <= i < |attempted| ==> attempted[i] < |alerts|
    ensures var ids := Select(alerts, replay, attempted, limit);
      && Distinct(ids) && Distinct(attempted + ids) && |attempted + ids| <= |alerts| && Waiting(alerts, ids, [], replay)
      && (forall i :: 0 <= i < |attempted + ids| ==> (attempted + ids)[i] < |alerts|)
      && (limit > 0 && |ids| == 0 ==> forall a :: 0 <= a < |alerts| && !alerts[a].processed ==> a in attempted)
  {
    SelectFacts(alerts, replay, attempted, limit);
    var ids := Select(alerts, replay, attempted, limit);
    hide Select;
    AppendDistinct(attempted, ids);
    DistinctBound(attempted + ids, |alerts|);
  }

  /** One turn of the batch loop: stop, or select a batch of alerts never attempted before and run it. */
  method ParseBatch(store: MailStore, run: ParseRun, replay: bool, limit: nat, concurrency: int,
                    extract: nat -> Extraction, fate: nat -> Fate)
    returns (more: bool, error: Option<nat>)
    requires Attempts(run, |store.alerts|) && Tidy(run)
    modifies store, run
    ensures Progress(old(store.View()), store.View(), extract)
    ensures Attempts(run, |store.alerts|) && Tidy(run) && old(run.attempted) <= run.attempted
    ensures forall a: nat :: a < |store.alerts| && a !in run.attempted ==> store.alerts[a] == old(store.alerts)[a]
    ensures error.None? && concurrency >= 1 ==>
      run.Handled() - old(run.Handled()) == |run.attempted| - |old(run.attempted)|
    ensures error.None? && concurrency <= 0 ==> run.Handled() == old(run.Handled())
    ensures !replay ==>
      Balanced(old(store.alerts), store.alerts, run.Taken() - old(run.Taken()), run.Dropped() - old(run.Dropped()))
    ensures run.deadline == old(run.deadline)
    ensures run.clock(old(run.ticks)) >= run.deadline ==>
      !more && error.None? && run.stopped && run.attempted == old(run.attempted) && store.View() == old(store.View())
    ensures more ==> |run.attempted| > |old(run.attempted)| && !replay && error.None? && !run.stopped
    ensures run.batches == old(run.batches) + if |run.attempted| > |old(run.attempted)| then 1 else 0
    ensures error.Some? ==> exists a :: a in run.attempted && fate(a) == Fatal(error.value)
    ensures !more && error.None? && !run.stopped && !replay && limit > 0 ==>
      forall a :: 0 <= a < |store.alerts| && !store.alerts[a].processed ==> a in run.attempted
  {
    hide Progress, Backlog, Withheld, Select, Distinct, Waiting;
    more, error := false, None;
    NoProgress(store.View(), extract);
    var now := run.Now();
    if now >= run.deadline {
      run.stopped := true;
      return;
    }
    var emails := Select(store.alerts, replay, run.attempted, limit);
    BatchIsNew(store.alerts, replay, run.attempted, limit);
    if |emails| == 0 { return; }
    run.attempted := run.attempted + emails;
    run.batches := run.batches + 1;
    ghost var thrown;
    error, thrown := RunBatch(store, run, emails, concurrency, replay, extract, fate);
    if error.Some? { FirstFatal(thrown, emails, run.attempted, fate); }
    more := error.None? && !replay && !run.stopped;
  }
}
