/**
 From the mailbox to fetch tasks: ingestion stages a raw alert before it relabels the message, and the
 parser stages all cards of an alert in one transaction. Processes may overlap and die between any two
 steps, and each parse of an alert may find other cards than the one before; no schedule loses a message or
 leaves an alert half staged.
 */
module MailPipeline {
  import opened Common

  datatype Place = SourceLabel | InProcessingLabel

  /** `Elsewhere` stands for the later states other parts of the system give an alert. */
  datatype Lifecycle = InProcessing | SourcePending | SourceBlocked | Elsewhere

  datatype Problem = MissingPostingUrl | ExtractionFailed | StagingFailed

  /** One row of raw_email_alerts; its id is its position. */
  datatype Alert = Alert(message: nat, processed: bool, lifecycle: Lifecycle, lastError: Option<Problem>)

  /** One vacancy card of an alert; an invalid card fails the schema check when it is staged. */
  datatype Card = Card(id: nat, valid: bool)

  /** What the extractor makes of an alert's body; it may find no vacancy card at all. */
  datatype Extraction = Cards(cards: seq<Card>) | Unreadable(problem: Problem)

  /** Processing status of an observation; later pipeline stages move it on. */
  datatype Status = Discovered | FetchPending | Later

  /** An observation conflicts on its payload hash, which fixes the alert and the card. */
  type Key = (nat, nat)

  datatype Tables = Tables(alerts: seq<Alert>, observations: map<Key, Status>, tasks: set<Key>)

  // ------------------------------------------------------------------ statements

  predicate HasAlert(alerts: seq<Alert>, message: nat) {
    exists i :: 0 <= i < |alerts| && alerts[i].message == message
  }

  /** INSERT ... ON CONFLICT (workspace_id, gmail_message_id) DO NOTHING. */
  function InsertAlert(t: Tables, message: nat): Tables {
    if HasAlert(t.alerts, message) then t
    else t.(alerts := t.alerts + [Alert(message, false, InProcessing, None)])
  }

  function KeysOf(alert: nat, cards: seq<Card>): set<Key> {
    set i | 0 <= i < |cards| :: (alert, cards[i].id)
  }

  predicate AllValid(cards: seq<Card>) { forall i :: 0 <= i < |cards| ==> cards[i].valid }

  /**
   The staging transaction: upsert every observation, enqueue every fetch task, mark the observations
   FETCH_PENDING and the alert processed; an invalid card rolls all of it back.
   */
  function StageCards(t: Tables, alert: nat, cards: seq<Card>): Tables
    requires alert < |t.alerts|
  {
    if !AllValid(cards) then t else
    var keys := KeysOf(alert, cards);
    Tables(
      t.alerts[alert := t.alerts[alert].(processed := true, lifecycle := SourcePending, lastError := None)],
      t.observations + (map k | k in keys :: FetchPending),
      t.tasks + keys)
  }

  function MarkBlocked(t: Tables, alert: nat, problem: Problem): Tables
    requires alert < |t.alerts|
  {
    var blocked := t.alerts[alert].(processed := true, lifecycle := SourceBlocked, lastError := Some(problem));
    t.(alerts := t.alerts[alert := blocked])
  }

  /** After a rolled-back staging only the error text is written; the alert keeps its place in line. */
  function MarkFailed(t: Tables, alert: nat): Tables
    requires alert < |t.alerts|
  {
    t.(alerts := t.alerts[alert := t.alerts[alert].(lastError := Some(StagingFailed))])
  }

  // ------------------------------------------------------------------ schedules

  /** An ingestion run: the messages it still has to handle, and whether the first is already staged. */
  datatype Ingest = Idle | Working(todo: seq<nat>, staged: bool)

  datatype System = System(labels: map<nat, Place>, tables: Tables, ingests: seq<Ingest>)

  datatype Event =
    | Arrive(message: nat)
    | StartIngest(w: nat, messages: seq<nat>)
    | StageMail(w: nat)
    | Relabel(w: nat, moved: bool)
    | Die(w: nat)
    | StageAlert(alert: nat, cards: seq<Card>)
    | FailAlert(alert: nat)
    | BlockAlert(alert: nat, problem: Problem)
    | ChangeElsewhere(alert: nat, processed: bool, lifecycle: Lifecycle, lastError: Option<Problem>)
    | Advance(key: Key)

  ghost predicate Enabled(s: System, e: Event) {
    match e
    case Arrive(message) => message !in s.labels
    case StartIngest(w, messages) =>
      w < |s.ingests| && s.ingests[w] == Idle &&
      forall i :: 0 <= i < |messages| ==> messages[i] in s.labels
    case StageMail(w) =>
      w < |s.ingests| && s.ingests[w].Working? && |s.ingests[w].todo| > 0 && !s.ingests[w].staged
    case Relabel(w, _) =>
      w < |s.ingests| && s.ingests[w].Working? && |s.ingests[w].todo| > 0 && s.ingests[w].staged
    case Die(w) => w < |s.ingests|
    case StageAlert(a, cards) => a < |s.tables.alerts| && |cards| > 0
    case FailAlert(a) => a < |s.tables.alerts|
    case BlockAlert(a, _) => a < |s.tables.alerts|
    // Another part of the system makes an alert pending only through one of its observations.
    case ChangeElsewhere(a, _, lifecycle, _) =>
      a < |s.tables.alerts| && (lifecycle == SourcePending ==> HasObservation(s.tables, a))
    case Advance(key) => key in s.tables.observations
  }

  ghost predicate HasObservation(t: Tables, a: nat) { exists k :: k in t.observations && k.0 == a }

  ghost function Step(s: System, e: Event): System {
    if !Enabled(s, e) then s else
    match e
    case Arrive(message) => s.(labels := s.labels[message := SourceLabel])
    case StartIngest(w, messages) => s.(ingests := s.ingests[w := Working(messages, false)])
    case StageMail(w) =>
      s.(tables := InsertAlert(s.tables, s.ingests[w].todo[0]),
        ingests := s.ingests[w := s.ingests[w].(staged := true)])
    case Relabel(w, moved) =>
      s.(labels := if moved then s.labels[s.ingests[w].todo[0] := InProcessingLabel] else s.labels,
         ingests := s.ingests[w := Working(s.ingests[w].todo[1..], false)])
    case Die(w) => s.(ingests := s.ingests[w := Idle])
    case StageAlert(a, cards) => s.(tables := StageCards(s.tables, a, cards))
    case FailAlert(a) => s.(tables := MarkFailed(s.tables, a))
    case BlockAlert(a, problem) => s.(tables := MarkBlocked(s.tables, a, problem))
    case ChangeElsewhere(a, processed, lifecycle, lastError) =>
      var changed := Alert(s.tables.alerts[a].message, processed, lifecycle, lastError);
      s.(tables := s.tables.(alerts := s.tables.alerts[a := changed]))
    case Advance(key) => s.(tables := s.tables.(observations := s.tables.observations[key := Later]))
  }

  ghost function Run(s: System, es: seq<Event>): System {
    if |es| == 0 then s else Step(Run(s, es[..|es| - 1]), es[|es| - 1])
  }

  // ------------------------------------------------------------------ what every schedule keeps

  function FromMessage(message: nat): Alert -> bool { (a: Alert) => a.message == message }

  ghost predicate OneRowPerMessage(alerts: seq<Alert>) {
    forall i, j :: 0 <= i < j < |alerts| ==> alerts[i].message != alerts[j].message
  }

  /** Every observation has its fetch task, and a pending alert has been staged. */
  ghost predicate TablesAgree(t: Tables) {
    && OneRowPerMessage(t.alerts)
    && t.observations.Keys <= t.tasks
    && forall a: nat :: a < |t.alerts| && t.alerts[a].lifecycle == SourcePending ==> HasObservation(t, a)
  }

  ghost predicate MailAgrees(s: System) {
    && (forall m :: m in s.labels && s.labels[m] == InProcessingLabel ==> HasAlert(s.tables.alerts, m))
    && (forall w :: 0 <= w < |s.ingests| && s.ingests[w].Working? && s.ingests[w].staged ==>
          |s.ingests[w].todo| > 0 && HasAlert(s.tables.alerts, s.ingests[w].todo[0]))
  }

  ghost predicate Inv(s: System) { TablesAgree(s.tables) && MailAgrees(s) }

  /** Observations and tasks are only added, and no alert goes. */
  ghost predicate Grows(t: Tables, u: Tables) {
    |t.alerts| <= |u.alerts| && t.observations.Keys <= u.observations.Keys && t.tasks <= u.tasks
  }

  lemma ObservationsStay(t: Tables, u: Tables)
    requires Grows(t, u)
    ensures forall a: nat :: HasObservation(t, a) ==> HasObservation(u, a)
  {
    forall a: nat | HasObservation(t, a) ensures HasObservation(u, a) {
      var k :| k in t.observations && k.0 == a;
      assert k in u.observations.Keys;
    }
  }

  lemma InsertKeeps(t: Tables, message: nat)
    requires TablesAgree(t)
    ensures TablesAgree(InsertAlert(t, message))
    ensures forall m: nat :: HasAlert(InsertAlert(t, message).alerts, m) <==> HasAlert(t.alerts, m) || m == message
  {
    var u := InsertAlert(t, message);
    if !HasAlert(t.alerts, message) {
      assert u.alerts[|t.alerts|].message == message;
      forall m: nat | HasAlert(t.alerts, m) ensures HasAlert(u.alerts, m) {
        var i :| 0 <= i < |t.alerts| && t.alerts[i].message == m;
        assert u.alerts[i].message == m;
      }
      ObservationsStay(t, u);
    }
  }

  /** Rewriting one alert's columns leaves every message's row where it was. */
  lemma SameMessages(t: Tables, u: Tables)
    requires |u.alerts| == |t.alerts| && forall i :: 0 <= i < |t.alerts| ==> u.alerts[i].message == t.alerts[i].message
    ensures OneRowPerMessage(t.alerts) ==> OneRowPerMessage(u.alerts)
    ensures forall m: nat :: HasAlert(u.alerts, m) <==> HasAlert(t.alerts, m)
  {
    forall m: nat ensures HasAlert(u.alerts, m) <==> HasAlert(t.alerts, m) {
      if HasAlert(t.alerts, m) {
        var i :| 0 <= i < |t.alerts| && t.alerts[i].message == m;
        assert u.alerts[i].message == m;
      }
      if HasAlert(u.alerts, m) {
        var i :| 0 <= i < |u.alerts| && u.alerts[i].message == m;
        assert t.alerts[i].message == m;
      }
    }
  }

  /** Every card has its observation and its fetch task. */
  ghost predicate AllStaged(t: Tables, a: nat, cards: seq<Card>) {
    forall i :: 0 <= i < |cards| ==> (a, cards[i].id) in t.observations && (a, cards[i].id) in t.tasks
  }

  lemma StageEffect(t: Tables, a: nat, cards: seq<Card>)
    requires a < |t.alerts| && AllValid(cards)
    ensures AllStaged(StageCards(t, a, cards), a, cards)
    ensures forall i :: 0 <= i < |cards| ==> StageCards(t, a, cards).observations[(a, cards[i].id)] == FetchPending
  {
    forall i | 0 <= i < |cards| ensures (a, cards[i].id) in KeysOf(a, cards) {
    }
  }

  lemma StageKeeps(t: Tables, a: nat, cards: seq<Card>)
    requires a < |t.alerts| && |cards| > 0
    ensures Grows(t, StageCards(t, a, cards))
    ensures TablesAgree(t) ==> TablesAgree(StageCards(t, a, cards))
  {
    var u := StageCards(t, a, cards);
    SameMessages(t, u);
    ObservationsStay(t, u);
    if AllValid(cards) {
      StageEffect(t, a, cards);
      assert (a, cards[0].id) in u.observations;
      assert u.observations.Keys == t.observations.Keys + KeysOf(a, cards);
    }
  }

  lemma MarkKeeps(t: Tables, a: nat, problem: Problem)
    requires a < |t.alerts|
    ensures Grows(t, MarkBlocked(t, a, problem)) && Grows(t, MarkFailed(t, a))
    ensures TablesAgree(t) ==> TablesAgree(MarkBlocked(t, a, problem)) && TablesAgree(MarkFailed(t, a))
  {
    SameMessages(t, MarkBlocked(t, a, problem));
    SameMessages(t, MarkFailed(t, a));
    ObservationsStay(t, MarkBlocked(t, a, problem));
    ObservationsStay(t, MarkFailed(t, a));
  }

  lemma AdvanceKeeps(t: Tables, key: Key)
    requires key in t.observations
    ensures var u := t.(observations := t.observations[key := Later]);
      Grows(t, u) && u.observations.Keys == t.observations.Keys && (TablesAgree(t) ==> TablesAgree(u))
  {
    var u := t.(observations := t.observations[key := Later]);
    assert u.observations.Keys == t.observations.Keys;
    ObservationsStay(t, u);
  }

  lemma ElsewhereKeeps(s: System, a: nat, processed: bool, lifecycle: Lifecycle, lastError: Option<Problem>)
    requires Enabled(s, ChangeElsewhere(a, processed, lifecycle, lastError))
    ensures var t, u := s.tables, Step(s, ChangeElsewhere(a, processed, lifecycle, lastError)).tables;
      Grows(t, u) && (TablesAgree(t) ==> TablesAgree(u))
      && (forall m: nat :: HasAlert(u.alerts, m) <==> HasAlert(t.alerts, m))
  {
    var u := Step(s, ChangeElsewhere(a, processed, lifecycle, lastError)).tables;
    SameMessages(s.tables, u);
    ObservationsStay(s.tables, u);
  }

  lemma StepGrows(s: System, e: Event)
    ensures Grows(s.tables, Step(s, e).tables)
  {
    hide HasAlert, TablesAgree, HasObservation;
    if Enabled(s, e) {
      match e
      case StageAlert(a, cards) => StageKeeps(s.tables, a, cards);
      case FailAlert(a) => MarkKeeps(s.tables, a, StagingFailed);
      case BlockAlert(a, problem) => MarkKeeps(s.tables, a, problem);
      case Advance(key) => AdvanceKeeps(s.tables, key);
      case _ =>
    }
  }

  lemma StepKeeps(s: System, e: Event)
    requires Inv(s)
    ensures Inv(Step(s, e))
  {
    hide TablesAgree, HasAlert, InsertAlert, HasObservation;
    var t := Step(s, e);
    if Enabled(s, e) {
      match e
      case StageMail(w) => InsertKeeps(s.tables, s.ingests[w].todo[0]);
      case StageAlert(a, cards) =>
        StageKeeps(s.tables, a, cards);
        SameMessages(s.tables, t.tables);
      case FailAlert(a) =>
        MarkKeeps(s.tables, a, StagingFailed);
        SameMessages(s.tables, t.tables);
      case BlockAlert(a, problem) =>
        MarkKeeps(s.tables, a, problem);
        SameMessages(s.tables, t.tables);
      case ChangeElsewhere(a, processed, lifecycle, lastError) =>
        ElsewhereKeeps(s, a, processed, lifecycle, lastError);
      case Advance(key) => AdvanceKeeps(s.tables, key);
      case _ =>
    }
  }

  /** An empty staging area: nothing relabelled, nothing staged, no run in flight. */
  ghost predicate Initial(s: System) {
    && (forall m :: m in s.labels ==> s.labels[m] == SourceLabel)
    && s.tables == Tables([], map[], {})
    && (forall w :: 0 <= w < |s.ingests| ==> s.ingests[w] == Idle)
  }

  /** A message leaves its label exactly when the ingestion that staged it gets through to the mailbox. */
  lemma LeavesTheLabelExactly(s: System, e: Event, message: nat)
    requires Inv(s) && message in s.labels && s.labels[message] == SourceLabel
    ensures message in Step(s, e).labels
    ensures Step(s, e).labels[message] == InProcessingLabel <==>
      && e.Relabel? && e.moved && e.w < |s.ingests| && s.ingests[e.w].Working? && s.ingests[e.w].staged
      && |s.ingests[e.w].todo| > 0 && s.ingests[e.w].todo[0] == message
    ensures Step(s, e).labels[message] == InProcessingLabel ==> HasAlert(s.tables.alerts, message)
  {
    hide HasAlert;
  }

  lemma {:induction false} RunKeeps(s: System, es: seq<Event>)
    requires Initial(s)
    ensures Inv(Run(s, es))
  {
    hide Step;
    if |es| != 0 {
      RunKeeps(s, es[..|es| - 1]);
      StepKeeps(Run(s, es[..|es| - 1]), es[|es| - 1]);
    }
  }

  lemma {:induction false} CountOne(alerts: seq<Alert>, i: nat)
    requires OneRowPerMessage(alerts) && i < |alerts|
    ensures Count(alerts, FromMessage(alerts[i].message)) == 1
  {
    var n := |alerts| - 1;
    if i == n {
      CountNone(alerts[..n], FromMessage(alerts[n].message));
    } else {
      CountOne(alerts[..n], i);
    }
  }

  lemma {:induction false} LabelsNeverDrop(s: System, es: seq<Event>, message: nat)
    requires message in s.labels
    ensures message in Run(s, es).labels
  {
    if |es| != 0 { LabelsNeverDrop(s, es[..|es| - 1], message); }
  }

  /**
   No mail is lost: in every schedule, a message is still under its source label or has exactly one
   alert row; and a relabelled message always has exactly one.
   */
  lemma NoMailIsLost(s: System, es: seq<Event>, message: nat)
    requires Initial(s) && message in Run(s, es).labels
    ensures var t := Run(s, es);
      t.labels[message] == SourceLabel || Count(t.tables.alerts, FromMessage(message)) == 1
  {
    RunKeeps(s, es);
    var t := Run(s, es);
    if t.labels[message] == InProcessingLabel {
      var i :| 0 <= i < |t.tables.alerts| && t.tables.alerts[i].message == message;
      CountOne(t.tables.alerts, i);
    }
  }

  // ------------------------------------------------------------------ what was staged stays staged

  /** Event `i` of the schedule commits a staging of these cards. */
  ghost predicate Commits(s: System, es: seq<Event>, i: nat, a: nat, cards: seq<Card>) {
    i < |es| && es[i] == StageAlert(a, cards) && a < |Run(s, es[..i]).tables.alerts| && |cards| > 0 && AllValid(cards)
  }

  lemma CommitsBefore(s: System, es: seq<Event>, n: nat, i: nat, a: nat, cards: seq<Card>)
    requires i < n <= |es|
    ensures Commits(s, es[..n], i, a, cards) <==> Commits(s, es, i, a, cards)
  {
    assert es[..n][..i] == es[..i];
  }

  /** Whatever a schedule staged keeps its observations and fetch tasks, whatever happens later. */
  lemma {:induction false} StagedStays(s: System, es: seq<Event>, i: nat, a: nat, cards: seq<Card>)
    requires Commits(s, es, i, a, cards)
    ensures a < |Run(s, es).tables.alerts| && AllStaged(Run(s, es).tables, a, cards)
  {
    var n := |es| - 1;
    if i == n {
      StageEffect(Run(s, es[..n]).tables, a, cards);
      StepGrows(Run(s, es[..n]), es[n]);
    } else {
      hide Step, Commits;
      CommitsBefore(s, es, n, i, a, cards);
      StagedStays(s, es[..n], i, a, cards);
      StepGrows(Run(s, es[..n]), es[n]);
      assert AllStaged(Step(Run(s, es[..n]), es[n]).tables, a, cards);
    }
  }

  lemma NewObservation(s: System, e: Event, key: Key)
    requires key !in s.tables.observations && key in Step(s, e).tables.observations
    ensures e.StageAlert? && e.alert == key.0 && e.alert < |s.tables.alerts| && |e.cards| > 0 && AllValid(e.cards)
  {
  }

  /** Every observation was made by some staging of its alert. */
  lemma {:induction false} ObservationsWereStaged(s: System, es: seq<Event>, key: Key)
    returns (i: nat, cards: seq<Card>)
    requires Initial(s) && key in Run(s, es).tables.observations
    ensures Commits(s, es, i, key.0, cards)
  {
    var n := |es| - 1;
    if key in Run(s, es[..n]).tables.observations {
      i, cards := ObservationsWereStaged(s, es[..n], key);
      CommitsBefore(s, es, n, i, key.0, cards);
    } else {
      NewObservation(Run(s, es[..n]), es[n], key);
      i, cards := n, es[n].cards;
    }
  }

  /** In every schedule a pending alert was staged, and every card of every staging of it has its observation and its
      fetch task. */
  lemma PendingMeansStaged(s: System, es: seq<Event>, a: nat)
    requires Initial(s) && a < |Run(s, es).tables.alerts| && Run(s, es).tables.alerts[a].lifecycle == SourcePending
    ensures exists i, cards :: Commits(s, es, i, a, cards)
    ensures forall i, cards :: Commits(s, es, i, a, cards) ==> AllStaged(Run(s, es).tables, a, cards)
  {
    RunKeeps(s, es);
    var k :| k in Run(s, es).tables.observations && k.0 == a;
    var j, found := ObservationsWereStaged(s, es, k);
    hide Commits, Run;
    forall i, cards | Commits(s, es, i, a, cards) ensures AllStaged(Run(s, es).tables, a, cards) {
      StagedStays(s, es, i, a, cards);
    }
  }

  /** The step that makes an alert pending makes all its observations FETCH_PENDING, unless it is taken elsewhere, for
      an alert staged before. */
  lemma PendingComesWithFetch(s: System, e: Event, a: nat)
    requires a < |s.tables.alerts| && s.tables.alerts[a].lifecycle != SourcePending
    requires a < |Step(s, e).tables.alerts| && Step(s, e).tables.alerts[a].lifecycle == SourcePending
    ensures
      || (e.ChangeElsewhere? && HasObservation(s.tables, a))
      || (e.StageAlert? && e.alert == a && |e.cards| > 0 && AllValid(e.cards)
          && AllStaged(Step(s, e).tables, a, e.cards)
          && forall i :: 0 <= i < |e.cards| ==> Step(s, e).tables.observations[(a, e.cards[i].id)] == FetchPending)
  {
    if e.StageAlert? && Enabled(s, e) && AllValid(e.cards) { StageEffect(s.tables, e.alert, e.cards); }
  }

  /** Staging an alert again right after a kill changes nothing at all. */
  lemma RestagingIsIdempotent(t: Tables, a: nat, cards: seq<Card>)
    requires a < |t.alerts|
    ensures StageCards(StageCards(t, a, cards), a, cards) == StageCards(t, a, cards)
  {
    var u := StageCards(t, a, cards);
    if AllValid(cards) {
      var u2 := StageCards(u, a, cards);
      assert u2.alerts == u.alerts;
      assert u2.observations == u.observations;
      assert u2.tasks == u.tasks;
    }
  }

  /** Staging again what the schedule staged before, however far the observations moved on, adds no row and no task. */
  lemma RestagingAddsNothing(s: System, es: seq<Event>, i: nat, a: nat, cards: seq<Card>)
    requires Commits(s, es, i, a, cards)
    ensures a < |Run(s, es).tables.alerts|
    ensures var t := Run(s, es).tables; var u := StageCards(t, a, cards);
      u.tasks == t.tasks && u.observations.Keys == t.observations.Keys && |u.alerts| == |t.alerts|
  {
    StagedStays(s, es, i, a, cards);
  }
}
