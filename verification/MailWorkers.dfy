/** The ingestion loop, its retry wrapper, and the batch parser, as programs that update the tables in place. */
module MailWorkers {
  import opened Common
  import opened MailPipeline

  class MailStore {
    var labels: map<nat, Place>
    var alerts: seq<Alert>
    var observations: map<Key, Status>
    var tasks: set<Key>

    function View(): Tables
      reads this
    {
      Tables(alerts, observations, tasks)
    }

    /** The alert insert of one message, in its own transaction. */
    method Stage(message: nat)
      modifies this
      ensures View() == InsertAlert(old(View()), message) && labels == old(labels)
    {
      if !(exists i :: 0 <= i < |alerts| && alerts[i].message == message) {
        alerts := alerts + [Alert(message, false, InProcessing, None)];
      }
    }

    method MoveToInProcessing(message: nat)
      modifies this
      ensures View() == old(View()) && labels == old(labels)[message := InProcessingLabel]
    {
      labels := labels[message := InProcessingLabel];
    }

    /** stageEmail's transaction for an alert with cards. A card that fails its check throws and rolls back. */
    method StageAll(a: nat, cards: seq<Card>) returns (committed: bool)
      requires a < |alerts|
      modifies this
      ensures labels == old(labels)
      ensures committed == AllValid(cards)
      ensures View() == StageCards(old(View()), a, cards)
    {
      var observationsBefore, tasksBefore := observations, tasks;
      var keys: set<Key> := {};
      for i := 0 to |cards|
        invariant labels == old(labels) && alerts == old(alerts)
        invariant observationsBefore == old(observations) && tasksBefore == old(tasks)
        invariant AllValid(cards[..i]) && keys == KeysOf(a, cards[..i])
        invariant observations.Keys == old(observations).Keys + keys
        invariant forall k :: k in old(observations) && k !in keys ==>
          k in observations && observations[k] == old(observations)[k]
        invariant tasks == old(tasks) + keys
      {
        if !cards[i].valid {
          observations, tasks := observationsBefore, tasksBefore;  // ROLLBACK
          return false;
        }
        var key := (a, cards[i].id);
        if key !in observations { observations := observations[key := Discovered]; }
        tasks := tasks + {key};
        KeysSnoc(a, cards, i);
        keys := keys + {key};
      }
      assert cards[..|cards|] == cards;
      observations := observations + (map k | k in keys :: FetchPending);
      alerts := alerts[a := alerts[a].(processed := true, lifecycle := SourcePending, lastError := None)];
      assert observations == old(observations) + (map k | k in keys :: FetchPending);
      committed := true;
    }

    method Block(a: nat, problem: Problem)
      requires a < |alerts|
      modifies this
      ensures labels == old(labels) && View() == MarkBlocked(old(View()), a, problem)
    {
      alerts := alerts[a := alerts[a].(processed := true, lifecycle := SourceBlocked, lastError := Some(problem))];
    }

    method RecordFailure(a: nat)
      requires a < |alerts|
      modifies this
      ensures labels == old(labels) && View() == MarkFailed(old(View()), a)
    {
      alerts := alerts[a := alerts[a].(lastError := Some(StagingFailed))];
    }
  }

  lemma KeysSnoc(a: nat, cards: seq<Card>, i: nat)
    requires i < |cards|
    ensures KeysOf(a, cards[..i + 1]) == KeysOf(a, cards[..i]) + {(a, cards[i].id)}
    ensures AllValid(cards[..i + 1]) <==> AllValid(cards[..i]) && cards[i].valid
  {
    var longer := cards[..i + 1];
    assert longer[i] == cards[i];
    assert forall j :: 0 <= j < i ==> longer[j] == cards[..i][j];
    forall k | k in KeysOf(a, cards[..i]) + {(a, cards[i].id)} ensures k in KeysOf(a, longer) {
      if k == (a, cards[i].id) {
        assert longer[i].id == k.1;
      } else {
        var j :| 0 <= j < i && k == (a, cards[..i][j].id);
        assert k == (a, longer[j].id);
      }
    }
  }

  // ------------------------------------------------------------------ ingestion

  /** How one message's turn goes: the database or the mailbox may refuse, or the process may die. */
  datatype Turn = Fine | LabelFails | InsertThrows | DiesBeforeInsert | DiesBeforeLabel

  datatype Ingested = Staged(count: nat) | Threw | Died

  /** Relabelled messages have an alert row; this holds at every point where the process may die. */
  ghost predicate RelabelledAreStaged(labels: map<nat, Place>, alerts: seq<Alert>) {
    forall m :: m in labels && labels[m] == InProcessingLabel ==> HasAlert(alerts, m)
  }

  /** The message is where it was, or its turn went through and moved it on. */
  ghost predicate LabelKept(before: map<nat, Place>, after: map<nat, Place>, m: nat, messages: seq<nat>,
                            turns: seq<Turn>)
    requires m in after && |turns| == |messages|
  {
    || (m in before && after[m] == before[m])
    || (after[m] == InProcessingLabel && exists i :: 0 <= i < |messages| && messages[i] == m && turns[i] == Fine)
  }

  /**
   ingestGmail over the messages read from the label. However it ends, no message was relabelled
   without an alert row, no row was lost or duplicated; when it returns, every message has its row.
   */
  method IngestGmail(store: MailStore, messages: seq<nat>, readOnly: bool, turns: seq<Turn>) returns (r: Ingested)
    requires |turns| == |messages|
    requires RelabelledAreStaged(store.labels, store.alerts) && OneRowPerMessage(store.alerts)
    modifies store
    ensures RelabelledAreStaged(store.labels, store.alerts) && OneRowPerMessage(store.alerts)
    ensures old(store.alerts) <= store.alerts
    ensures store.observations == old(store.observations) && store.tasks == old(store.tasks)
    ensures forall m :: m in store.labels && m !in messages ==>
      m in old(store.labels) && store.labels[m] == old(store.labels)[m]
    ensures readOnly ==> store.labels == old(store.labels)
    ensures r.Staged? ==>
      r.count == |messages| && forall i :: 0 <= i < |messages| ==> HasAlert(store.alerts, messages[i])
    ensures r.Staged? && !readOnly ==> forall i :: 0 <= i < |messages| && turns[i] == Fine ==>
      messages[i] in store.labels && store.labels[messages[i]] == InProcessingLabel
    ensures forall m :: m in store.labels ==> LabelKept(old(store.labels), store.labels, m, messages, turns)
    ensures forall i :: |old(store.alerts)| <= i < |store.alerts| ==>
      store.alerts[i] == Alert(store.alerts[i].message, false, InProcessing, None) &&
        store.alerts[i].message in messages
  {
    var count := 0;
    hide HasAlert;
    while count < |messages|
      invariant 0 <= count <= |messages|
      invariant RelabelledAreStaged(store.labels, store.alerts) && OneRowPerMessage(store.alerts)
      invariant old(store.alerts) <= store.alerts
      invariant store.observations == old(store.observations) && store.tasks == old(store.tasks)
      invariant forall m :: m in store.labels && m !in messages ==>
        m in old(store.labels) && store.labels[m] == old(store.labels)[m]
      invariant readOnly ==> store.labels == old(store.labels)
      invariant !readOnly ==> forall i :: 0 <= i < count && turns[i] == Fine ==>
        messages[i] in store.labels && store.labels[messages[i]] == InProcessingLabel
      invariant forall m :: m in store.labels ==> LabelKept(old(store.labels), store.labels, m, messages, turns)
      invariant forall i :: 0 <= i < count ==> HasAlert(store.alerts, messages[i])
      invariant forall i :: |old(store.alerts)| <= i < |store.alerts| ==>
        store.alerts[i] == Alert(store.alerts[i].message, false, InProcessing, None) &&
          store.alerts[i].message in messages
    {
      var message, turn := messages[count], turns[count];
      if turn == DiesBeforeInsert { return Died; }
      if turn == InsertThrows { return Threw; }
      InsertFacts(store.View(), message);
      store.Stage(message);
      if turn == DiesBeforeLabel { return Died; }
      if !readOnly && turn != LabelFails {
        store.MoveToInProcessing(message);
      }
      count := count + 1;
    }
    r := Staged(count);
  }

  lemma InsertFacts(t: Tables, message: nat)
    requires OneRowPerMessage(t.alerts)
    ensures var u := InsertAlert(t, message);
      && OneRowPerMessage(u.alerts) && t.alerts <= u.alerts && |u.alerts| <= |t.alerts| + 1
      && u.observations == t.observations && u.tasks == t.tasks
      && (|u.alerts| > |t.alerts| ==> u.alerts[|t.alerts|] == Alert(message, false, InProcessing, None))
      && forall m: nat :: HasAlert(u.alerts, m) <==> HasAlert(t.alerts, m) || m == message
  {
    var u := InsertAlert(t, message);
    if !HasAlert(t.alerts, message) {
      assert u.alerts[|t.alerts|].message == message;
      forall m: nat | HasAlert(t.alerts, m) ensures HasAlert(u.alerts, m) {
        var i :| 0 <= i < |t.alerts| && t.alerts[i].message == m;
        assert u.alerts[i].message == m;
      }
    }
  }

  /** What one attempt of the retry loop threw; a rate limit waits longer. */
  datatype Attempt = Succeeds(count: nat) | Fails(error: nat, rateLimited: bool)

  datatype Retried = Returned(count: nat) | Rethrown(error: nat)

  function Doubled(base: nat, times: nat): nat { if times == 0 then base else 2 * Doubled(base, times - 1) }

  function Least(a: nat, b: nat): nat { if a <= b then a else b }

  /** The delay before the attempt after `attempt`, in milliseconds. */
  function RetryDelay(attempt: nat, rateLimited: bool): nat
    requires attempt >= 1
  {
    if rateLimited then Least(180_000, Doubled(60_000, attempt - 1)) else Least(30_000, Doubled(1_000, attempt - 1))
  }

  function Cap(rateLimited: bool): nat { if rateLimited then 180_000 else 30_000 }

  /** The delay starts at a minute or a second and doubles, never past its cap. */
  lemma DelayDoublesToItsCap(attempt: nat, rateLimited: bool)
    requires attempt >= 1
    ensures RetryDelay(1, rateLimited) == if rateLimited then 60_000 else 1_000
    ensures RetryDelay(attempt + 1, rateLimited) == Least(Cap(rateLimited), 2 * RetryDelay(attempt, rateLimited))
    ensures RetryDelay(1, rateLimited) <= RetryDelay(attempt, rateLimited) <= Cap(rateLimited)
  {
    DoubledGrows(60_000, attempt - 1);
    DoubledGrows(1_000, attempt - 1);
  }

  lemma {:induction false} DoubledGrows(base: nat, times: nat)
    ensures Doubled(base, times) >= base
  {
    if times > 0 { DoubledGrows(base, times - 1); }
  }

  /** `GMAIL_INGEST_MAX_ATTEMPTS`, or 3 when it is not a positive integer. */
  function MaxAttempts(configured: Option<int>): nat {
    if configured.Some? && configured.value > 0 then configured.value else 3
  }

  /**
   ingestGmailWithRetry: it returns the first success, or after all attempts failed rethrows the last
   error; it waits once between two attempts and never after the last.
   */
  method IngestGmailWithRetry(configured: Option<int>, attempts: nat -> Attempt)
    returns (r: Retried, made: nat, delays: seq<nat>)
    ensures 1 <= made <= MaxAttempts(configured)
    ensures forall i: nat :: 1 <= i < made ==> attempts(i).Fails?
    ensures attempts(made).Succeeds? ==> r == Returned(attempts(made).count)
    ensures attempts(made).Fails? ==> made == MaxAttempts(configured) && r == Rethrown(attempts(made).error)
    ensures MaxAttempts(configured) == if configured.Some? && configured.value >= 1 then configured.value else 3
    ensures |delays| == made - 1
    ensures forall i :: 0 <= i < |delays| ==> delays[i] == RetryDelay(i + 1, attempts(i + 1).rateLimited)
  {
    var maxAttempts := MaxAttempts(configured);
    var attempt: nat := 1;
    delays := [];
    while true
      invariant 1 <= attempt <= maxAttempts
      invariant forall i: nat :: 1 <= i < attempt ==> attempts(i).Fails?
      invariant |delays| == attempt - 1
      invariant forall i :: 0 <= i < |delays| ==> delays[i] == RetryDelay(i + 1, attempts(i + 1).rateLimited)
      decreases maxAttempts - attempt
    {
      match attempts(attempt)
      case Succeeds(count) => return Returned(count), attempt, delays;
      case Fails(error, limited) =>
        if attempt == maxAttempts { return Rethrown(error), attempt, delays; }
        delays := delays + [RetryDelay(attempt, limited)];
        attempt := attempt + 1;
    }
  }
}
