/** Grouping the surviving jobs by lane and sending the best three of each lane to the model. */
module LaneCap {
  import opened Sorting

  datatype Job = Job(id: nat, lane: string, score: real)

  const CAP := 3

  /** The jobs of one lane, in order. */
  function OfLane(s: seq<Job>, lane: string): seq<Job> {
    if |s| == 0 then [] else OfLane(s[..|s| - 1], lane) + (if s[|s| - 1].lane == lane then [s[|s| - 1]] else [])
  }

  /** The comparison of `sort((a, b) => b.score - a.score)`. */
  function ByScore(): (Job, Job) -> bool { (a: Job, b: Job) => a.score >= b.score }

  function Ranked(s: seq<Job>): seq<Job> { SortBy(s, ByScore()) }

  /** Best first, and nothing lost. */
  lemma RankedFacts(s: seq<Job>)
    ensures Sorted(Ranked(s), ByScore()) && multiset(Ranked(s)) == multiset(s) && |Ranked(s)| == |s|
    ensures forall y :: y in Ranked(s) <==> y in s
  {
    SortBySorts(s, ByScore());
  }

  function Scoring(score: real): Job -> bool { (j: Job) => j.score == score }

  /** Jobs of equal score keep the order they came in, so ties at the cut go to the earlier jobs. */
  lemma TiesKeepTheirOrder(s: seq<Job>, score: real)
    ensures Filter(Ranked(s), Scoring(score)) == Filter(s, Scoring(score))
  {
    SortByIsStable(s, ByScore(), Scoring(score));
  }

  function Top(s: seq<Job>): seq<Job> { if |s| <= CAP then s else s[..CAP] }

  function Rest(s: seq<Job>): seq<Job> { if |s| <= CAP then [] else s[CAP..] }

  lemma {:induction false} OfLaneConcat(a: seq<Job>, b: seq<Job>, lane: string)
    ensures OfLane(a + b, lane) == OfLane(a, lane) + OfLane(b, lane)
  {
    if |b| == 0 {
      assert a + b == a;
    } else {
      assert (a + b)[..|a + b| - 1] == a + b[..|b| - 1];
      OfLaneConcat(a, b[..|b| - 1], lane);
    }
  }

  ghost predicate AllOf(s: seq<Job>, lane: string) { forall i :: 0 <= i < |s| ==> s[i].lane == lane }

  lemma {:induction false} OfLanePure(s: seq<Job>, lane: string, other: string)
    requires AllOf(s, lane)
    ensures OfLane(s, other) == if other == lane then s else []
  {
    if |s| != 0 {
      OfLanePure(s[..|s| - 1], lane, other);
      assert s == s[..|s| - 1] + [s[|s| - 1]];
    }
  }

  lemma {:induction false} OfLaneFacts(s: seq<Job>, lane: string)
    ensures AllOf(OfLane(s, lane), lane)
    ensures forall y :: y in OfLane(s, lane) <==> y in s && y.lane == lane
  {
    if |s| != 0 {
      OfLaneFacts(s[..|s| - 1], lane);
      assert s == s[..|s| - 1] + [s[|s| - 1]];
    }
  }

  /** Each lane's evaluated jobs are the top of its sorted survivors, and its skipped jobs the rest. */
  ghost predicate Capped(survivors: seq<Job>, evaluated: seq<Job>, skipped: seq<Job>) {
    forall lane :: CappedLane(survivors, evaluated, skipped, lane, true)
  }

  /** The map holds each lane's jobs in order, and `order` its keys in order of first use. */
  ghost predicate Grouped(survivors: seq<Job>, jobsByLane: map<string, seq<Job>>, order: seq<string>) {
    && (forall lane :: lane in jobsByLane <==> lane in order)
    && (forall j, k :: 0 <= j < k < |order| ==> order[j] != order[k])
    && (forall lane :: OfLane(survivors, lane) == (if lane in jobsByLane then jobsByLane[lane] else []))
  }

  lemma GroupOneMore(s: seq<Job>, job: Job, m: map<string, seq<Job>>, order: seq<string>)
    requires Grouped(s, m, order)
    ensures job.lane in m ==> Grouped(s + [job], m[job.lane := m[job.lane] + [job]], order)
    ensures job.lane !in m ==> Grouped(s + [job], m[job.lane := [job]], order + [job.lane])
  {
    var longer := s + [job];
    assert longer[..|s|] == s;
    forall lane
      ensures OfLane(longer, lane) == OfLane(s, lane) + (if job.lane == lane then [job] else [])
    {
    }
    hide OfLane;
  }

  /** The grouping loop. */
  method GroupByLane(survivors: seq<Job>) returns (jobsByLane: map<string, seq<Job>>, order: seq<string>)
    ensures Grouped(survivors, jobsByLane, order)
  {
    jobsByLane, order := map[], [];
    for i := 0 to |survivors|
      invariant Grouped(survivors[..i], jobsByLane, order)
    {
      var job := survivors[i];
      assert survivors[..i + 1] == survivors[..i] + [job];
      GroupOneMore(survivors[..i], job, jobsByLane, order);
      hide Grouped;
      if job.lane !in jobsByLane {
        jobsByLane, order := jobsByLane[job.lane := [job]], order + [job.lane];
      } else {
        jobsByLane := jobsByLane[job.lane := jobsByLane[job.lane] + [job]];
      }
    }
    assert survivors[..|survivors|] == survivors;
  }

  /** As `Capped`, for the lanes handled so far. */
  ghost predicate CappedFor(survivors: seq<Job>, evaluated: seq<Job>, skipped: seq<Job>, lanes: seq<string>) {
    forall lane :: CappedLane(survivors, evaluated, skipped, lane, lane in lanes)
  }

  ghost predicate CappedLane(survivors: seq<Job>, evaluated: seq<Job>, skipped: seq<Job>, lane: string, handled: bool) {
    && OfLane(evaluated, lane) == (if handled then Top(Ranked(OfLane(survivors, lane))) else [])
    && OfLane(skipped, lane) == (if handled then Rest(Ranked(OfLane(survivors, lane))) else [])
  }

  lemma CapOneMore(survivors: seq<Job>, evaluated: seq<Job>, skipped: seq<Job>, lanes: seq<string>, lane: string)
    requires CappedFor(survivors, evaluated, skipped, lanes) && lane !in lanes
    ensures var sorted := Ranked(OfLane(survivors, lane));
      CappedFor(survivors, evaluated + Top(sorted), skipped + Rest(sorted), lanes + [lane])
  {
    OneLane(survivors, lane, evaluated, skipped);
    var sorted := Ranked(OfLane(survivors, lane));
    hide Top, Rest, Ranked, OfLane;
    var e, s := evaluated + Top(sorted), skipped + Rest(sorted);
    forall other ensures CappedLane(survivors, e, s, other, other in lanes + [lane]) {
      assert CappedLane(survivors, evaluated, skipped, other, other in lanes);
    }
  }

  lemma NextLane(survivors: seq<Job>, m: map<string, seq<Job>>, order: seq<string>, i: nat)
    requires Grouped(survivors, m, order) && i < |order|
    ensures order[i] in m && m[order[i]] == OfLane(survivors, order[i]) && order[i] !in order[..i]
    ensures order[..i + 1] == order[..i] + [order[i]]
  {
    hide OfLane;
    var lane := order[i];
    assert lane in order;
    assert lane in m && OfLane(survivors, lane) == m[lane];
  }

  lemma AllLanes(survivors: seq<Job>, m: map<string, seq<Job>>, order: seq<string>, evaluated: seq<Job>,
                 skipped: seq<Job>)
    requires Grouped(survivors, m, order) && CappedFor(survivors, evaluated, skipped, order)
    ensures Capped(survivors, evaluated, skipped)
  {
    forall lane ensures CappedLane(survivors, evaluated, skipped, lane, true) {
      assert CappedLane(survivors, evaluated, skipped, lane, lane in order);
      assert OfLane(survivors, lane) == if lane in m then m[lane] else [];
    }
  }

  /** The grouping loop and the per-lane sort and cut. */
  method CapPerLane(survivors: seq<Job>) returns (evaluated: seq<Job>, skipped: seq<Job>)
    ensures Capped(survivors, evaluated, skipped)
  {
    var jobsByLane, order := GroupByLane(survivors);
    evaluated, skipped := [], [];
    assert CappedFor(survivors, [], [], []);
    hide CappedFor, OfLane, Ranked, Top, Rest, Grouped, Capped;
    assert order[..0] == [];
    for i := 0 to |order|
      invariant CappedFor(survivors, evaluated, skipped, order[..i])
    {
      NextLane(survivors, jobsByLane, order, i);
      var lane := order[i];
      var sorted := Ranked(jobsByLane[lane]);
      CapOneMore(survivors, evaluated, skipped, order[..i], lane);
      evaluated := evaluated + Top(sorted);
      skipped := skipped + Rest(sorted);
    }
    assert order[..|order|] == order;
    AllLanes(survivors, jobsByLane, order, evaluated, skipped);
  }

  lemma Split(s: seq<Job>)
    ensures Top(s) + Rest(s) == s
  {
  }

  lemma OneLane(survivors: seq<Job>, lane: string, evaluated: seq<Job>, skipped: seq<Job>)
    ensures var sorted := Ranked(OfLane(survivors, lane));
      forall other ::
        && OfLane(evaluated + Top(sorted), other) == OfLane(evaluated, other) +
          (if other == lane then Top(sorted) else [])
        && OfLane(skipped + Rest(sorted), other) == OfLane(skipped, other) +
          (if other == lane then Rest(sorted) else [])
  {
    var sorted := Ranked(OfLane(survivors, lane));
    OfLaneFacts(survivors, lane);
    RankedFacts(OfLane(survivors, lane));
    hide Ranked, Sorted, Top, Rest;
    assert |Top(sorted)| <= |sorted| && Top(sorted) + Rest(sorted) == sorted by { Split(sorted); }
    forall i | 0 <= i < |sorted| ensures sorted[i].lane == lane { assert sorted[i] in sorted; }
    forall other
      ensures OfLane(evaluated + Top(sorted), other) == OfLane(evaluated, other) +
        (if other == lane then Top(sorted) else [])
      ensures OfLane(skipped + Rest(sorted), other) == OfLane(skipped, other) +
        (if other == lane then Rest(sorted) else [])
    {
      OfLaneConcat(evaluated, Top(sorted), other);
      OfLaneConcat(skipped, Rest(sorted), other);
      OfLanePure(Top(sorted), lane, other);
      OfLanePure(Rest(sorted), lane, other);
    }
  }

  /**
   What the cut means: per lane nothing is lost or invented, at most three jobs are evaluated, and every
   evaluated job scores at least as much as every skipped job of its lane.
   */
  lemma CapKeepsTheBest(survivors: seq<Job>, evaluated: seq<Job>, skipped: seq<Job>, lane: string)
    requires Capped(survivors, evaluated, skipped)
    ensures var e, s, all := OfLane(evaluated, lane), OfLane(skipped, lane), OfLane(survivors, lane);
      && multiset(e) + multiset(s) == multiset(all)
      && |e| == (if |all| < 3 then |all| else 3)
      && forall x, y :: x in e && y in s ==> x.score >= y.score
  {
    var sorted := Ranked(OfLane(survivors, lane));
    assert CappedLane(survivors, evaluated, skipped, lane, true);
    RankedFacts(OfLane(survivors, lane));
    assert Top(sorted) + Rest(sorted) == sorted;
  }
}
