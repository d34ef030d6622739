/**
 forEachBounded: a fixed number of lanes draw items from one shared index; the first error stops new
 starts, the items in flight settle, and that error is rethrown. A schedule is any sequence of lane
 steps, so what holds of `Run` for every schedule holds however the workers' promises settle.
 */
module BoundedRunner {
  import opened Common

  type Error = nat

  datatype Lane = Ready | Busy(item: nat) | Done

  /** `settled` lists the items whose worker returned or threw, in that order. */
  datatype Pool = Pool(total: nat, next: nat, failures: seq<Error>, lanes: seq<Lane>, settled: seq<nat>)

  datatype Event =
    | Proceed(lane: nat)
    | Settle(lane: nat, error: Option<Error>)

  /** `Array.from({ length: Math.min(concurrency, items.length) })`: a negative length gives no lane. */
  function LaneCount(concurrency: int, total: nat): nat {
    if concurrency <= 0 then 0 else if concurrency < total then concurrency else total
  }

  function Start(total: nat, concurrency: int): Pool {
    Pool(total, 0, [], seq(LaneCount(concurrency, total), _ => Ready), [])
  }

  predicate Enabled(p: Pool, e: Event) {
    e.lane < |p.lanes| && if e.Proceed? then p.lanes[e.lane] == Ready else p.lanes[e.lane].Busy?
  }

  function Step(p: Pool, e: Event): Pool {
    if !Enabled(p, e) then p else
    match e
    case Proceed(lane) =>
      if |p.failures| == 0 && p.next < p.total
      then p.(next := p.next + 1, lanes := p.lanes[lane := Busy(p.next)])
      else p.(lanes := p.lanes[lane := Done])
    case Settle(lane, error) =>
      p.(failures := if error.Some? then p.failures + [error.value] else p.failures,
         lanes := p.lanes[lane := Ready],
         settled := p.settled + [p.lanes[lane].item])
  }

  function Run(p: Pool, es: seq<Event>): Pool {
    if |es| == 0 then p else Step(Run(p, es[..|es| - 1]), es[|es| - 1])
  }

  predicate Finished(p: Pool) { forall l :: 0 <= l < |p.lanes| ==> p.lanes[l] == Done }

  function IsBusy(): Lane -> bool { (l: Lane) => l.Busy? }

  function InFlight(p: Pool): nat { Count(p.lanes, IsBusy()) }

  // ------------------------------------------------------------------ what every schedule keeps

  ghost predicate InProgress(p: Pool, item: nat) {
    exists l :: 0 <= l < |p.lanes| && p.lanes[l] == Busy(item)
  }

  /** Each started item is either in one lane or settled once, and the started items are a prefix. */
  ghost predicate Inv(p: Pool) {
    && p.next <= p.total
    && (forall l :: 0 <= l < |p.lanes| && p.lanes[l].Busy? ==>
      p.lanes[l].item < p.next && p.lanes[l].item !in p.settled)
    && (forall k, l :: 0 <= k < l < |p.lanes| && p.lanes[k].Busy? ==> p.lanes[k] != p.lanes[l])
    && Distinct(p.settled)
    && (forall i :: i in p.settled ==> i < p.next)
    && (forall item: nat :: item < p.next ==> item in p.settled || InProgress(p, item))
    && (forall l :: 0 <= l < |p.lanes| && p.lanes[l] == Done ==> |p.failures| > 0 || p.next == p.total)
    && |p.settled| + InFlight(p) == p.next
  }

  lemma StartInv(total: nat, concurrency: int)
    ensures Inv(Start(total, concurrency))
  {
    CountNone(Start(total, concurrency).lanes, IsBusy());
  }

  lemma ProceedKeeps(p: Pool, lane: nat)
    requires Inv(p) && Enabled(p, Proceed(lane))
    ensures Inv(Step(p, Proceed(lane)))
  {
    var q := Step(p, Proceed(lane));
    CountUpdate(p.lanes, lane, q.lanes[lane], IsBusy());
    forall item: nat | item < q.next ensures item in q.settled || InProgress(q, item) {
      if item == p.next {
        assert q.lanes[lane] == Busy(item);
      } else if item !in p.settled {
        var l :| 0 <= l < |p.lanes| && p.lanes[l] == Busy(item);
        assert q.lanes[l] == Busy(item);
      }
    }
  }

  lemma SettleKeeps(p: Pool, lane: nat, error: Option<Error>)
    requires Inv(p) && Enabled(p, Settle(lane, error))
    ensures Inv(Step(p, Settle(lane, error)))
  {
    var q := Step(p, Settle(lane, error));
    CountUpdate(p.lanes, lane, Ready, IsBusy());
    var done := p.lanes[lane].item;
    assert q.settled == p.settled + [done];
    forall item: nat | item < q.next ensures item in q.settled || InProgress(q, item) {
      if item == done {
        assert q.settled[|p.settled|] == done;
      } else if item !in p.settled {
        var l :| 0 <= l < |p.lanes| && p.lanes[l] == Busy(item);
        assert q.lanes[l] == Busy(item);
      }
    }
  }

  lemma StepKeeps(p: Pool, e: Event)
    requires Inv(p)
    ensures Inv(Step(p, e))
  {
    hide Inv;
    if Enabled(p, e) {
      match e
      case Proceed(lane) => ProceedKeeps(p, lane);
      case Settle(lane, error) => SettleKeeps(p, lane, error);
    }
  }

  lemma {:induction false} RunKeeps(p: Pool, es: seq<Event>)
    requires Inv(p)
    ensures Inv(Run(p, es)) && Run(p, es).total == p.total && |Run(p, es).lanes| == |p.lanes|
  {
    hide Inv;
    if |es| != 0 {
      RunKeeps(p, es[..|es| - 1]);
      StepKeeps(Run(p, es[..|es| - 1]), es[|es| - 1]);
    }
  }

  /**
   For every schedule: the started items are the first `next`, every one of them is in flight or
   settled and never both or twice, and neither more than `concurrency` nor more than all are in flight.
   */
  lemma EverySchedule(total: nat, concurrency: int, es: seq<Event>)
    ensures var p := Run(Start(total, concurrency), es);
      && InFlight(p) <= p.next <= total && (if concurrency < 0 then InFlight(p) == 0 else InFlight(p) <= concurrency)
      && Distinct(p.settled)
      && (forall item: nat :: item < p.next <==> item in p.settled || InProgress(p, item))
      && (forall item: nat :: !(item in p.settled && InProgress(p, item)))
  {
    StartInv(total, concurrency);
    RunKeeps(Start(total, concurrency), es);
    CountBound(Run(Start(total, concurrency), es).lanes, IsBusy());
  }

  function FirstStarts(k: nat): seq<Event> { seq(k, i requires 0 <= i < k => Proceed(i)) }

  lemma {:induction false} LanesFill(total: nat, concurrency: int, k: nat)
    requires k <= concurrency && k <= total
    ensures var p, q := Start(total, concurrency), Run(Start(total, concurrency), FirstStarts(k));
      && q.total == total && q.next == k && q.failures == [] && q.settled == [] && |q.lanes| == |p.lanes| >= k
      && forall l :: k <= l < |q.lanes| ==> q.lanes[l] == Ready
  {
    if k > 0 {
      LanesFill(total, concurrency, k - 1);
      assert FirstStarts(k)[..k - 1] == FirstStarts(k - 1);
    }
  }

  /** The bound is used to the full: in some schedule as many are in flight as the concurrency and the items allow, so
      never fewer lanes are started than that. */
  lemma FullUse(total: nat, concurrency: nat) returns (es: seq<Event>)
    ensures InFlight(Run(Start(total, concurrency), es)) == if concurrency < total then concurrency else total
  {
    var k := if concurrency < total then concurrency else total;
    es := FirstStarts(k);
    LanesFill(total, concurrency, k);
    StartInv(total, concurrency);
    RunKeeps(Start(total, concurrency), es);
  }

  /** After an error nothing new starts, and the error that is rethrown is already fixed. */
  lemma {:induction false} ErrorStopsStarts(p: Pool, es: seq<Event>)
    requires |p.failures| > 0
    ensures var q := Run(p, es);
      q.next == p.next && |q.failures| > 0 && q.failures[0] == p.failures[0]
  {
    if |es| != 0 { ErrorStopsStarts(p, es[..|es| - 1]); }
  }

  /** When all lanes are done, every started item has settled; without an error that is every item. */
  lemma WhenFinished(total: nat, concurrency: int, es: seq<Event>)
    requires Finished(Run(Start(total, concurrency), es))
    ensures var p := Run(Start(total, concurrency), es);
      && (forall item: nat :: item < p.next <==> item in p.settled)
      && (|p.failures| == 0 ==> (p.next == total <==> concurrency >= 1 || total == 0))
      && (concurrency <= 0 ==> p.next == 0 && |p.failures| == 0)
  {
    StartInv(total, concurrency);
    RunKeeps(Start(total, concurrency), es);
    var p := Run(Start(total, concurrency), es);
    if concurrency <= 0 || total == 0 {
      NoLanes(total, concurrency, es);
    } else {
      assert p.lanes[0] == Done;
    }
  }

  /** A concurrency of 0 or less is no lane at all: the call returns with nothing started. */
  lemma {:induction false} NoLanes(total: nat, concurrency: int, es: seq<Event>)
    requires concurrency <= 0 || total == 0
    ensures Run(Start(total, concurrency), es) == Start(total, concurrency)
  {
    if |es| != 0 { NoLanes(total, concurrency, es[..|es| - 1]); }
  }

  // ------------------------------------------------------------------ progress

  function LaneWork(l: Lane): nat { if l == Ready then 1 else if l.Busy? then 2 else 0 }

  function LanesWork(lanes: seq<Lane>): nat {
    if |lanes| == 0 then 0 else LanesWork(lanes[..|lanes| - 1]) + LaneWork(lanes[|lanes| - 1])
  }

  /** Steps still possible, at most. */
  function Work(p: Pool): int { 2 * (p.total - p.next) + LanesWork(p.lanes) }

  lemma {:induction false} LanesWorkUpdate(lanes: seq<Lane>, l: nat, x: Lane)
    requires l < |lanes|
    ensures LanesWork(lanes[l := x]) == LanesWork(lanes) - LaneWork(lanes[l]) + LaneWork(x)
  {
    var n := |lanes| - 1;
    if l == n {
      assert lanes[l := x][..n] == lanes[..n];
    } else {
      assert lanes[l := x][..n] == lanes[..n][l := x];
      LanesWorkUpdate(lanes[..n], l, x);
    }
  }

  /** Every step that can happen uses work up, so every schedule ends. */
  lemma StepsAreFinite(p: Pool, e: Event)
    requires Inv(p) && Enabled(p, e)
    ensures 0 <= Work(Step(p, e)) < Work(p)
  {
    LanesWorkUpdate(p.lanes, e.lane, Step(p, e).lanes[e.lane]);
  }

  /** And until all lanes are done, some step can happen. */
  lemma NeverStuck(p: Pool)
    requires !Finished(p)
    ensures exists e :: Enabled(p, e)
  {
    var l :| 0 <= l < |p.lanes| && p.lanes[l] != Done;
    if p.lanes[l] == Ready { assert Enabled(p, Proceed(l)); } else { assert Enabled(p, Settle(l, None)); }
  }

  lemma SomeLaneLeft(p: Pool)
    requires !Finished(p)
    ensures exists l :: 0 <= l < |p.lanes| && p.lanes[l] != Done
  {
  }

  /** What a caller sees of one step. */
  lemma SettleShape(p: Pool, lane: nat, error: Option<Error>)
    requires Enabled(p, Settle(lane, error))
    ensures var q := Step(p, Settle(lane, error));
      && q.total == p.total && |q.lanes| == |p.lanes| && q.settled == p.settled + [p.lanes[lane].item]
      && |q.failures| == |p.failures| + (if error.Some? then 1 else 0)
  {
  }

  lemma BusyItem(p: Pool, lane: nat)
    requires Inv(p) && lane < |p.lanes| && p.lanes[lane].Busy?
    ensures p.lanes[lane].item < p.next <= p.total && p.lanes[lane].item !in p.settled
  {
  }

  /** When every lane is done, as many items settled as started: all of them unless one threw. */
  lemma AllSettled(p: Pool)
    requires Inv(p) && Finished(p)
    ensures |p.settled| == p.next <= p.total
    ensures |p.lanes| > 0 && |p.failures| == 0 ==> p.next == p.total
  {
    CountNone(p.lanes, IsBusy());
    if |p.lanes| > 0 { assert p.lanes[0] == Done; }
  }
}
