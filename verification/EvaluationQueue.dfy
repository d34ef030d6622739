/**
 The evaluation queue: many overlapping runs lease rows of one table, renew the lease, and then
 complete, retry, defer or hand over each row. Every SQL statement or committed transaction is one
 function on `Db`; a run's local variables are a `Worker`; `Step` interleaves runs, the clock and
 crashes in any order, so a property of `Run(s, es)` for every `es` is a property of every schedule.
 */
module EvaluationQueue {
  import opened Common

  const LEASE_SECONDS := 300
  const DEFAULT_MAX_ATTEMPTS := 3

  datatype Status =
    | Pending | RetryWait | Evaluating | NeedsManualReview | Completed | Superseded | SkippedArchived

  /** One row of evaluation_queue; times are seconds, `None` is SQL NULL. */
  datatype Row = Row(
    status: Status,
    lease: Option<nat>,
    expires: Option<int>,
    attempts: int,
    maxAttempts: Option<int>,
    availableAt: Option<int>)

  /** How the holder of a lease gave it back. `Open` covers leases still held, lost or abandoned. */
  datatype Fate = Open | Evaluated | Failed | RateLimited

  /** The ledger of granted leases: the id of a lease is its position, so ids are never reused. */
  datatype Lease = Lease(item: nat, attempt: int, fate: Fate)

  /** One row of ai_evaluations. */
  datatype Evaluation = Evaluation(item: nat, lease: nat)

  /** One row of evaluation_attempts. */
  datatype Attempt = Attempt(item: nat, number: int, lease: nat)

  datatype Db = Db(
    queue: map<nat, Row>,
    clock: int,
    leases: seq<Lease>,
    evaluations: seq<Evaluation>,
    attempts: seq<Attempt>)

  // ------------------------------------------------------------------ statements

  /** `max_attempts || 3` in the worker: null and 0 both mean 3. */
  function WorkerMax(m: Option<int>): int {
    if m == None || m == Some(0) then DEFAULT_MAX_ATTEMPTS else m.value
  }

  /** `COALESCE(max_attempts, 3)` in SQL: only null means 3. */
  function SqlMax(m: Option<int>): int {
    if m == None then DEFAULT_MAX_ATTEMPTS else m.value
  }

  function Power2(n: nat): nat {
    if n == 0 then 1 else 2 * Power2(n - 1)
  }

  /** Exponential backoff in seconds, capped at half an hour. */
  function Backoff(attempt: nat): nat {
    if 30 * Power2(attempt) < 1800 then 30 * Power2(attempt) else 1800
  }

  predicate Expired(r: Row, clock: int) {
    r.expires.Some? && r.expires.value < clock
  }

  /** The WHERE clause shared by the lease, the manual-review fence and supersession. */
  predicate Takeable(r: Row, clock: int) {
    || r.status == Pending || r.status == RetryWait
    || (r.status == Evaluating && Expired(r, clock))
  }

  /** The queue columns of the selection query's WHERE clause. */
  predicate Selectable(r: Row, clock: int) {
    || r.status == Pending
    || (r.status == RetryWait && (r.availableAt == None || r.availableAt.value <= clock))
    || (r.status == Evaluating && Expired(r, clock))
  }

  predicate Holds(d: Db, id: nat, lease: nat) {
    id in d.queue && d.queue[id].lease == Some(lease)
  }

  function Release(r: Row, status: Status, availableAt: Option<int>): Row {
    r.(status := status, lease := None, expires := None, availableAt := availableAt)
  }

  function Close(d: Db, id: nat, lease: nat, row: Row, fate: Fate): Db
    requires lease < |d.leases|
  {
    d.(queue := d.queue[id := row], leases := d.leases[lease := d.leases[lease].(fate := fate)])
  }

  function Supersede(d: Db, stale: set<nat>, archived: set<nat>): Db {
    d.(queue := map id | id in d.queue ::
         if id in stale && Takeable(d.queue[id], d.clock)
         then Release(d.queue[id], if id in archived then SkippedArchived else Superseded, None)
         else d.queue[id])
  }

  function MoveToManualReview(d: Db, id: nat): Db {
    if id in d.queue && Takeable(d.queue[id], d.clock) && d.queue[id].attempts >= SqlMax(d.queue[id].maxAttempts)
    then d.(queue := d.queue[id := d.queue[id].(status := NeedsManualReview)])
    else d
  }

  predicate CanLease(d: Db, id: nat) {
    id in d.queue && Takeable(d.queue[id], d.clock)
  }

  /** Grants lease number `|d.leases|`. */
  function GrantLease(d: Db, id: nat): Db
    requires CanLease(d, id)
  {
    var r := d.queue[id];
    d.(queue := d.queue[id := r.(status := Evaluating, lease := Some(|d.leases|),
                                 expires := Some(d.clock + LEASE_SECONDS), attempts := r.attempts + 1)],
       leases := d.leases + [Lease(id, r.attempts + 1, Open)])
  }

  function Heartbeat(d: Db, id: nat, lease: nat): Db {
    if Holds(d, id, lease)
    then d.(queue := d.queue[id := d.queue[id].(expires := Some(d.clock + LEASE_SECONDS))])
    else d
  }

  /** The completion transaction; a lost fence rolls all of it back. */
  function CommitCompletion(d: Db, id: nat, lease: nat, number: int): Db
    requires lease < |d.leases|
  {
    if Holds(d, id, lease)
    then Close(d, id, lease, Release(d.queue[id], Completed, None), Evaluated)
         .(evaluations := d.evaluations + [Evaluation(id, lease)],
           attempts := d.attempts + [Attempt(id, number, lease)])
    else d
  }

  function RecordAttempt(d: Db, id: nat, lease: nat, number: int): Db {
    if Holds(d, id, lease) then d.(attempts := d.attempts + [Attempt(id, number, lease)]) else d
  }

  function ScheduleRetry(d: Db, id: nat, lease: nat, number: int): Db
    requires lease < |d.leases|
  {
    if Holds(d, id, lease)
    then Close(d, id, lease,
               Release(d.queue[id], RetryWait, Some(d.clock + Backoff(if number < 0 then 0 else number))), Failed)
    else d
  }

  function Defer(d: Db, id: nat, lease: nat, retryAt: int): Db
    requires lease < |d.leases|
  {
    if Holds(d, id, lease)
    then Close(d, id, lease,
               Release(d.queue[id], RetryWait, Some(retryAt))
                 .(maxAttempts := Some(SqlMax(d.queue[id].maxAttempts) + 1)),
               RateLimited)
    else d
  }

  // ------------------------------------------------------------------ runs

  /** What a run remembers of a row it selected; it goes stale as others change the row. */
  datatype Snapshot = Snapshot(id: nat, attempts: int, maxAttempts: Option<int>)

  /** Where the current item is: being evaluated, or failed with its attempt row written or not. */
  datatype Stage = Working | Failing(rateLimited: bool, recorded: bool)

  datatype Current = Nothing | Held(id: nat, lease: nat, number: int, stage: Stage)

  datatype Worker = Idle | Running(items: seq<Snapshot>, current: Current)

  datatype System = System(db: Db, workers: seq<Worker>)

  datatype Outcome = Success | Failure(rateLimited: bool)

  datatype Event =
    | Tick(seconds: nat)
    | Start(w: nat, stale: set<nat>, archived: set<nat>, ids: seq<nat>)
    | Take(w: nat)
    | Beat(w: nat)
    | Finish(w: nat, outcome: Outcome)
    | Record(w: nat)
    | Settle(w: nat, retryAt: int)
    | Stop(w: nat)

  function SnapshotOf(d: Db, id: nat): Snapshot
    requires id in d.queue
  {
    Snapshot(id, d.queue[id].attempts, d.queue[id].maxAttempts)
  }

  predicate Selection(d: Db, ids: seq<nat>) {
    Distinct(ids) && forall i :: 0 <= i < |ids| ==> ids[i] in d.queue && Selectable(d.queue[ids[i]], d.clock)
  }

  function Snapshots(d: Db, ids: seq<nat>): seq<Snapshot>
    requires Selection(d, ids)
  {
    seq(|ids|, i requires 0 <= i < |ids| => SnapshotOf(d, ids[i]))
  }

  /** The worker's own test, on its snapshot: the row still has attempts left. */
  predicate HasAttemptsLeft(item: Snapshot) {
    item.attempts < WorkerMax(item.maxAttempts)
  }

  function Put(s: System, d: Db, w: nat, worker: Worker): System
    requires w < |s.workers|
  {
    System(d, s.workers[w := worker])
  }

  function TakeItem(s: System, w: nat): System
    requires w < |s.workers| && s.workers[w].Running? && |s.workers[w].items| > 0
  {
    var item, rest := s.workers[w].items[0], s.workers[w].items[1..];
    if !HasAttemptsLeft(item) then
      Put(s, MoveToManualReview(s.db, item.id), w, Running(rest, Nothing))
    else if CanLease(s.db, item.id) then
      Put(s, GrantLease(s.db, item.id), w,
          Running(rest, Held(item.id, |s.db.leases|, s.db.queue[item.id].attempts + 1, Working)))
    else
      Put(s, s.db, w, Running(rest, Nothing))
  }

  function FinishItem(s: System, w: nat, outcome: Outcome): System
    requires w < |s.workers| && s.workers[w].Running? && s.workers[w].current.Held?
    requires s.workers[w].current.lease < |s.db.leases|
  {
    var c := s.workers[w].current;
    if outcome == Success && Holds(s.db, c.id, c.lease) then
      Put(s, CommitCompletion(s.db, c.id, c.lease, c.number), w, s.workers[w].(current := Nothing))
    else
      // A lost fence throws, is not a rate limit, and joins the failure path.
      var limited := outcome.Failure? && outcome.rateLimited;
      Put(s, s.db, w, s.workers[w].(current := c.(stage := Failing(limited, false))))
  }

  function SettleItem(s: System, w: nat, retryAt: int): System
    requires w < |s.workers| && s.workers[w].Running? && s.workers[w].current.Held?
    requires s.workers[w].current.stage.Failing? && s.workers[w].current.lease < |s.db.leases|
  {
    var c := s.workers[w].current;
    var d := if c.stage.rateLimited then Defer(s.db, c.id, c.lease, retryAt)
             else ScheduleRetry(s.db, c.id, c.lease, c.number);
    Put(s, d, w, s.workers[w].(current := Nothing))
  }

  predicate Holding(s: System, w: nat) {
    w < |s.workers| && s.workers[w].Running? && s.workers[w].current.Held? && s.workers[w].current.lease < |s.db.leases|
  }

  /** When an event can happen; `Step` ignores it otherwise. */
  predicate Enabled(s: System, e: Event) {
    match e
    case Tick(_) => true
    case Start(w, stale, archived, ids) =>
      w < |s.workers| && s.workers[w].Idle? && Selection(Supersede(s.db, stale, archived), ids)
    case Take(w) =>
      w < |s.workers| && s.workers[w].Running? && s.workers[w].current == Nothing && |s.workers[w].items| > 0
    case Beat(w) => Holding(s, w) && s.workers[w].current.stage == Working
    case Finish(w, _) => Holding(s, w) && s.workers[w].current.stage == Working
    case Record(w) =>
      Holding(s, w) && s.workers[w].current.stage.Failing? && !s.workers[w].current.stage.recorded
    case Settle(w, _) =>
      Holding(s, w) && s.workers[w].current.stage.Failing? && s.workers[w].current.stage.recorded
    case Stop(w) => w < |s.workers|
  }

  function Step(s: System, e: Event): System {
    if !Enabled(s, e) then s else
    match e
    case Tick(seconds) => s.(db := s.db.(clock := s.db.clock + seconds))
    case Start(w, stale, archived, ids) =>
      var d := Supersede(s.db, stale, archived);
      Put(s, d, w, Running(Snapshots(d, ids), Nothing))
    case Take(w) => TakeItem(s, w)
    case Beat(w) => s.(db := Heartbeat(s.db, s.workers[w].current.id, s.workers[w].current.lease))
    case Finish(w, outcome) => FinishItem(s, w, outcome)
    case Record(w) =>
      var c := s.workers[w].current;
      Put(s, RecordAttempt(s.db, c.id, c.lease, c.number), w,
          s.workers[w].(current := c.(stage := Failing(c.stage.rateLimited, true))))
    case Settle(w, retryAt) => SettleItem(s, w, retryAt)
    case Stop(w) => Put(s, s.db, w, Idle)
  }

  function Run(s: System, es: seq<Event>): System {
    if |es| == 0 then s else Step(Run(s, es[..|es| - 1]), es[|es| - 1])
  }

  function EvaluationOf(id: nat): Evaluation -> bool { (e: Evaluation) => e.item == id }

  /** A table nobody holds a lease in, with one evaluation for each row already completed, and idle run slots. */
  ghost predicate Initial(s: System) {
    && s.db.leases == [] && s.db.attempts == []
    && (forall id :: id in s.db.queue ==>
         && s.db.queue[id].lease == None
         && Count(s.db.evaluations, EvaluationOf(id)) == (if s.db.queue[id].status == Completed then 1 else 0))
    && (forall w :: 0 <= w < |s.workers| ==> s.workers[w] == Idle)
  }
}
