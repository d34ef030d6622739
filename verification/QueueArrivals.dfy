/**
 Rows that are queued while runs are under way. A row no run selects and no clean-up names changes nothing and is
 not changed, so a row that arrives in the middle of a schedule might as well have been there from the start: what
 is proved of every schedule of every table holds for tables that grow.
 */
module QueueArrivals {
  import opened Common
  import opened EvaluationQueue
  import QueueBounds

  function Arrive(s: System, id: nat, row: Row): System {
    s.(db := s.db.(queue := s.db.queue[id := row]))
  }

  /** The event neither selects the row nor names it for supersession. */
  predicate Ignores(e: Event, id: nat) { e.Start? ==> id !in e.ids && id !in e.stale }

  ghost predicate Forgets(worker: Worker, id: nat) {
    worker.Running? ==>
      && (forall i :: 0 <= i < |worker.items| ==> worker.items[i].id != id)
      && (worker.current.Held? ==> worker.current.id != id)
  }

  /** The row is not in the table, and no run remembers it. */
  ghost predicate Unknown(s: System, id: nat) {
    id !in s.db.queue && forall w :: 0 <= w < |s.workers| ==> Forgets(s.workers[w], id)
  }

  lemma UpdatesCommute(queue: map<nat, Row>, a: nat, x: Row, b: nat, y: Row)
    requires a != b
    ensures queue[a := x][b := y] == queue[b := y][a := x]
  {
  }

  lemma StartCommutes(s: System, e: Event, id: nat, row: Row)
    requires Unknown(s, id) && e.Start? && Ignores(e, id)
    ensures Step(Arrive(s, id, row), e) == Arrive(Step(s, e), id, row)
    ensures Unknown(Step(s, e), id)
  {
    var t := Arrive(s, id, row);
    var d, c := Supersede(s.db, e.stale, e.archived), Supersede(t.db, e.stale, e.archived);
    assert c.queue == d.queue[id := row];
    assert Enabled(t, e) == Enabled(s, e) by {
      assert forall i :: 0 <= i < |e.ids| ==> e.ids[i] != id;
    }
    if Enabled(s, e) {
      assert forall i :: 0 <= i < |e.ids| ==> e.ids[i] != id;
      assert Snapshots(c, e.ids) == Snapshots(d, e.ids);
    }
  }

  lemma TakeCommutes(s: System, w: nat, id: nat, row: Row)
    requires Unknown(s, id) && Enabled(s, Take(w))
    ensures Step(Arrive(s, id, row), Take(w)) == Arrive(Step(s, Take(w)), id, row)
    ensures Unknown(Step(s, Take(w)), id)
  {
    var item := s.workers[w].items[0];
    assert item.id != id && Forgets(s.workers[w], id);
    var t := Step(s, Take(w));
    if t.db.queue != s.db.queue { UpdatesCommute(s.db.queue, item.id, t.db.queue[item.id], id, row); }
  }

  lemma HolderCommutes(s: System, e: Event, id: nat, row: Row)
    requires Unknown(s, id) && Enabled(s, e) && (e.Beat? || e.Finish? || e.Record? || e.Settle?)
    ensures Step(Arrive(s, id, row), e) == Arrive(Step(s, e), id, row)
    ensures Unknown(Step(s, e), id)
  {
    var held := s.workers[e.w].current;
    assert held.id != id && Forgets(s.workers[e.w], id);
    var t := Step(s, e);
    if t.db.queue != s.db.queue { UpdatesCommute(s.db.queue, held.id, t.db.queue[held.id], id, row); }
  }

  lemma StepCommutes(s: System, e: Event, id: nat, row: Row)
    requires Unknown(s, id) && Ignores(e, id)
    ensures Step(Arrive(s, id, row), e) == Arrive(Step(s, e), id, row)
    ensures Unknown(Step(s, e), id)
  {
    if e.Start? {
      StartCommutes(s, e, id, row);
    } else if Enabled(s, e) {
      match e
      case Tick(_) =>
      case Take(w) => TakeCommutes(s, w, id, row);
      case Stop(w) =>
      case _ => HolderCommutes(s, e, id, row);
    }
  }

  /** A row that arrives after a schedule leaves the system a table that held it from the start would have reached; so
      whatever happens next is a schedule of that larger table. */
  lemma {:induction false} ArrivingLaterIsBeingThere(s: System, before: seq<Event>, after: seq<Event>, id: nat,
                                                     row: Row)
    requires Unknown(s, id) && forall i :: 0 <= i < |before| ==> Ignores(before[i], id)
    ensures Run(Arrive(Run(s, before), id, row), after) == Run(Arrive(s, id, row), before + after)
  {
    Arrivals(s, before, id, row);
    QueueBounds.RunConcat(Arrive(s, id, row), before, after);
  }

  lemma {:induction false} Arrivals(s: System, before: seq<Event>, id: nat, row: Row)
    requires Unknown(s, id) && forall i :: 0 <= i < |before| ==> Ignores(before[i], id)
    ensures Run(Arrive(s, id, row), before) == Arrive(Run(s, before), id, row)
    ensures Unknown(Run(s, before), id)
  {
    if |before| != 0 {
      hide Step, Unknown, Ignores, Arrive;
      var rest := before[..|before| - 1];
      Arrivals(s, rest, id, row);
      StepCommutes(Run(s, rest), before[|before| - 1], id, row);
    }
  }
}
