/**
 What a cosine score says of the vectors themselves: the law of cosines, and so the nearest prototype wins. Distances
 are sums of squared differences, which owe nothing to the loops that compute the scores.
 */
module LaneGeometry {
  import opened Common
  import opened LaneChoice

  /** The squared distance of two vectors. */
  ghost function Apart(a: Vector, b: Vector): real
    requires |a| == |b|
  {
    if |a| == 0 then 0.0
    else
      var n := |a| - 1;
      Apart(a[..n], b[..n]) + Times(a[n] - b[n], a[n] - b[n])
  }

  ghost predicate IsZero(a: Vector) { forall i :: 0 <= i < |a| ==> a[i] == 0.0 }

  /** `b` is `k` times `a`. */
  ghost predicate Multiple(a: Vector, k: real, b: Vector) {
    |b| == |a| && forall i :: 0 <= i < |a| ==> b[i] == Times(k, a[i])
  }

  lemma SquareIsZero(x: real)
    ensures Times(x, x) == 0.0 <==> x == 0.0
  {
    if x > 0.0 { SquareGrows(x, 0.0); }
    if x < 0.0 { SquareGrows(-x, 0.0); }
  }

  lemma {:induction false} NormIsZeroExactly(a: Vector)
    ensures Norm(a) == 0.0 <==> IsZero(a)
  {
    if |a| != 0 {
      var n := |a| - 1;
      NormIsZeroExactly(a[..n]);
      NormNotNegative(a[..n]);
      SquareNotNegative(a[n]);
      SquareIsZero(a[n]);
      assert IsZero(a) <==> IsZero(a[..n]) && a[n] == 0.0;
    }
  }

  lemma Binomial(x: real, y: real)
    ensures Times(x - y, x - y) == Times(x, x) + Times(y, y) - 2.0 * Times(x, y)
  {
  }

  /** |a - b|^2 = |a|^2 + |b|^2 - 2 a.b */
  lemma {:induction false} DistanceIs(a: Vector, b: Vector)
    requires |a| == |b|
    ensures Apart(a, b) == Norm(a) + Norm(b) - 2.0 * Dot(a, b)
  {
    if |a| != 0 {
      var n := |a| - 1;
      DistanceIs(a[..n], b[..n]);
      Binomial(a[n], b[n]);
      hide Times;
    }
  }

  // ------------------------------------------------------------------ the law of cosines

  lemma RatioTimes(d: real, r: real)
    requires r > 0.0
    ensures Times(Ratio(d, r), r) == d
  {
  }

  lemma CosineIs(a: Vector, b: Vector, sqrt: real -> real)
    requires IsSqrt(sqrt) && |a| == |b| && !IsZero(a) && !IsZero(b)
    ensures Cosine(a, b, sqrt).Number?
    ensures var root := Times(sqrt(Norm(a)), sqrt(Norm(b)));
      root > 0.0 && Times(Cosine(a, b, sqrt).value, root) == Dot(a, b)
  {
    NormIsZeroExactly(a);
    NormIsZeroExactly(b);
    NormNotNegative(a);
    NormNotNegative(b);
    RootIsPositive(Norm(a), Norm(b), sqrt);
    RatioTimes(Dot(a, b), Times(sqrt(Norm(a)), sqrt(Norm(b))));
    assert b[..|a|] == b;
  }

  /** The score of two nonzero vectors is the cosine of the angle between them: it obeys the law of cosines. */
  lemma LawOfCosines(a: Vector, b: Vector, sqrt: real -> real)
    requires IsSqrt(sqrt) && |a| == |b| && !IsZero(a) && !IsZero(b)
    ensures Cosine(a, b, sqrt).Number?
    ensures Apart(a, b) ==
      Norm(a) + Norm(b) - 2.0 * Times(Cosine(a, b, sqrt).value, Times(sqrt(Norm(a)), sqrt(Norm(b))))
  {
    CosineIs(a, b, sqrt);
    DistanceIs(a, b);
  }

  /** When there is a score at all: not with a nonzero first vector that is the longer one; a zero vector scores 0. */
  lemma ScoresExist(a: Vector, b: Vector, sqrt: real -> real)
    ensures Cosine(a, b, sqrt).NaN? <==> !IsZero(a) && |a| > |b|
    ensures IsZero(a) || (|a| <= |b| && IsZero(b[..|a|])) ==> Cosine(a, b, sqrt) == Number(0.0)
  {
    NormIsZeroExactly(a);
    if |a| <= |b| { NormIsZeroExactly(b[..|a|]); }
  }

  // ------------------------------------------------------------------ multiples

  lemma {:induction false} DotOfMultiple(a: Vector, k: real, b: Vector)
    requires Multiple(a, k, b)
    ensures Dot(a, b) == Times(k, Norm(a)) && Norm(b) == Times(k, Times(k, Norm(a)))
  {
    if |a| != 0 {
      var n := |a| - 1;
      DotOfMultiple(a[..n], k, b[..n]);
      LastOfMultiple(k, Norm(a[..n]), a[n]);
    }
  }

  lemma LastOfMultiple(k: real, m: real, x: real)
    ensures Times(k, m) + Times(x, Times(k, x)) == Times(k, m + Times(x, x))
    ensures Times(k, Times(k, m)) + Times(Times(k, x), Times(k, x)) == Times(k, Times(k, m + Times(x, x)))
  {
    var y := x * x;
    assert x * (k * x) == k * y;
    assert (k * x) * (k * x) == k * (k * y);
  }

  lemma SameSquare(r: real, p: real)
    requires r >= 0.0 && p >= 0.0 && Times(r, r) == Times(p, p)
    ensures r == p
  {
    RootsCompare(r, p);
    RootsCompare(p, r);
  }

  lemma Regrouped(k: real, m: real)
    ensures Times(m, Times(k, Times(k, m))) == Times(Times(k, m), Times(k, m))
    ensures Times(Times(k, m), Times(k, m)) == Times(-Times(k, m), -Times(k, m))
    ensures m > 0.0 ==> (k > 0.0 ==> Times(k, m) > 0.0) && (k < 0.0 ==> Times(k, m) < 0.0)
  {
    var km := k * m;
    assert m * (k * km) == km * km;
  }

  lemma OneTimes(v: real, p: real)
    requires p != 0.0
    ensures Times(v, p) == p ==> v == 1.0
    ensures Times(v, -p) == p ==> v == -1.0
  {
    assert (v - 1.0) * p == v * p - p;
    assert (v + 1.0) * p == v * p + p;
  }

  /** A nonzero vector scores 1 with itself and with every positive multiple, and -1 with every negative one. */
  lemma MultiplesScoreOne(a: Vector, k: real, b: Vector, sqrt: real -> real)
    requires IsSqrt(sqrt) && !IsZero(a) && k != 0.0 && Multiple(a, k, b)
    ensures Cosine(a, b, sqrt) == Number(if k > 0.0 then 1.0 else -1.0)
  {
    MultipleIsNotZero(a, k, b);
    CosineIs(a, b, sqrt);
    DotOfMultiple(a, k, b);
    NormIsZeroExactly(a);
    NormIsZeroExactly(b);
    NormNotNegative(a);
    NormNotNegative(b);
    RootIsPositive(Norm(a), Norm(b), sqrt);
    var m, root := Norm(a), Times(sqrt(Norm(a)), sqrt(Norm(b)));
    Regrouped(k, m);
    hide Times, Norm, Cosine;
    var p := if k > 0.0 then Times(k, m) else -Times(k, m);
    SameSquare(root, p);
    OneTimes(Cosine(a, b, sqrt).value, Times(k, m));
  }

  lemma MultipleIsNotZero(a: Vector, k: real, b: Vector)
    requires !IsZero(a) && k != 0.0 && Multiple(a, k, b)
    ensures !IsZero(b)
  {
    var i :| 0 <= i < |a| && a[i] != 0.0;
    assert b[i] == k * a[i] && b[i] != 0.0;
  }

  lemma SelfScoresOne(a: Vector, sqrt: real -> real)
    requires IsSqrt(sqrt) && !IsZero(a)
    ensures Cosine(a, a, sqrt) == Number(1.0)
  {
    MultiplesScoreOne(a, 1.0, a, sqrt);
  }

  // ------------------------------------------------------------------ the nearest lane

  lemma ProductsCompare(u: real, v: real, r: real)
    requires r > 0.0
    ensures u > v <==> Times(u, r) > Times(v, r)
  {
    assert (u - v) * r == u * r - v * r;
    if u > v { assert (u - v) * r > 0.0; }
    if u < v { assert (v - u) * r > 0.0; }
  }

  /** Of two prototypes of one length, the higher score belongs to the nearer one. */
  lemma NearerScoresHigher(a: Vector, b: Vector, c: Vector, sqrt: real -> real)
    requires IsSqrt(sqrt) && |a| == |b| == |c| && !IsZero(a) && !IsZero(b) && !IsZero(c)
    requires Apart(b, Zeros(|b|)) == Apart(c, Zeros(|c|))
    ensures Cosine(a, b, sqrt).Number? && Cosine(a, c, sqrt).Number?
    ensures Cosine(a, b, sqrt).value > Cosine(a, c, sqrt).value <==> Apart(a, b) < Apart(a, c)
  {
    LengthIsNorm(b);
    LengthIsNorm(c);
    CosineIs(a, b, sqrt);
    LawOfCosines(a, b, sqrt);
    LawOfCosines(a, c, sqrt);
    hide Cosine, Apart, Norm, IsZero, Times;
    ProductsCompare(Cosine(a, b, sqrt).value, Cosine(a, c, sqrt).value, Times(sqrt(Norm(a)), sqrt(Norm(b))));
  }

  ghost function Zeros(n: nat): Vector { seq(n, _ => 0.0) }

  lemma {:induction false} LengthIsNorm(b: Vector)
    ensures Apart(b, Zeros(|b|)) == Norm(b)
  {
    if |b| != 0 {
      LengthIsNorm(b[..|b| - 1]);
      assert Zeros(|b|)[..|b| - 1] == Zeros(|b| - 1);
    }
  }

  /** The lanes' prototypes have the job's dimension and all one length, and none is zero. */
  ghost predicate SameLength(job: Vector, lanes: seq<Lane>) {
    && (forall i :: 0 <= i < |lanes| ==> |lanes[i].prototype| == |job| && !IsZero(lanes[i].prototype))
    && (forall i, j :: 0 <= i < j < |lanes| ==>
          Apart(lanes[i].prototype, Zeros(|job|)) == Apart(lanes[j].prototype, Zeros(|job|)))
  }

  /** The lane taken for a job is the one nearest to it, the first of several as near. */
  lemma NearestLaneIsTaken(job: Vector, lanes: seq<Lane>, sqrt: real -> real, bestLane: string, bestScore: real)
    requires IsSqrt(sqrt) && |lanes| > 0 && lanes[0].name == DEFAULT_LANE
    requires !IsZero(job) && SameLength(job, lanes) && Chosen(job, lanes, sqrt, bestLane, bestScore)
    ensures exists k :: 0 <= k < |lanes| && lanes[k].name == bestLane && Nearest(job, lanes, k)
  {
    forall i | 0 <= i < |lanes| ensures ScoreOf(job, lanes, sqrt, i).Number? {
      ScoresExist(job, lanes[i].prototype, sqrt);
    }
    SentinelIsSound(job, lanes, sqrt, bestLane, bestScore);
    hide Chosen, Cosine, Apart, IsZero;
    var k :| FirstBest(job, lanes, sqrt, k, bestScore) && lanes[k].name == bestLane;
    forall i | 0 <= i < |lanes|
      ensures Apart(job, lanes[k].prototype) <= Apart(job, lanes[i].prototype)
      ensures i < k ==> Apart(job, lanes[k].prototype) < Apart(job, lanes[i].prototype)
    {
      var b, c := lanes[i].prototype, lanes[k].prototype;
      assert ScoreOf(job, lanes, sqrt, i).Number? && ScoreOf(job, lanes, sqrt, k) == Number(bestScore);
      NearerScoresHigher(job, b, c, sqrt);
      NearerScoresHigher(job, c, b, sqrt);
    }
    assert Nearest(job, lanes, k);
  }

  ghost predicate Nearest(job: Vector, lanes: seq<Lane>, k: nat)
    requires k < |lanes| && forall i :: 0 <= i < |lanes| ==> |lanes[i].prototype| == |job|
  {
    forall i :: 0 <= i < |lanes| ==>
      && Apart(job, lanes[k].prototype) <= Apart(job, lanes[i].prototype)
      && (i < k ==> Apart(job, lanes[k].prototype) < Apart(job, lanes[i].prototype))
  }

  /** Without lanes to compare with, the default lane stands. */
  lemma NothingToCompare(job: Vector, sqrt: real -> real, bestLane: string, bestScore: real)
    ensures Chosen(job, [], sqrt, bestLane, bestScore) <==> bestLane == "CORE_AI_DATA" && bestScore == -1.0
  {
  }

  // ------------------------------------------------------------------ the checked version

  /** It answers exactly for two nonzero vectors of one length, and its answers too are cosines. */
  lemma CheckedScores(a: Vector, b: Vector, sqrt: real -> real)
    requires IsSqrt(sqrt)
    ensures CheckedCosine(a, b, sqrt).LengthsDiffer? <==> |a| != |b| || |a| == 0
    ensures CheckedCosine(a, b, sqrt).Ok? <==> |a| == |b| && !IsZero(a) && !IsZero(b)
    ensures CheckedCosine(a, b, sqrt).Ok? ==>
      Apart(a, b) ==
        Norm(a) + Norm(b) - 2.0 * Times(CheckedCosine(a, b, sqrt).value, Times(sqrt(Norm(a)), sqrt(Norm(b))))
  {
    NormIsZeroExactly(a);
    NormIsZeroExactly(b);
    CosinesAgree(a, b, sqrt);
    if |a| == |b| && !IsZero(a) && !IsZero(b) { LawOfCosines(a, b, sqrt); }
  }

  lemma CheckedMultiplesScoreOne(a: Vector, k: real, b: Vector, sqrt: real -> real)
    requires IsSqrt(sqrt) && !IsZero(a) && k != 0.0 && Multiple(a, k, b)
    ensures CheckedCosine(a, b, sqrt) == Ok(if k > 0.0 then 1.0 else -1.0)
  {
    MultipleIsNotZero(a, k, b);
    CheckedScores(a, b, sqrt);
    CosinesAgree(a, b, sqrt);
    MultiplesScoreOne(a, k, b, sqrt);
  }
}
