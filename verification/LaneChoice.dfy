/**
 Choosing a lane by cosine similarity, over exact reals. The loop starts from score -1 with a default
 lane; that this sentinel never hides a better lane rests on the Cauchy-Schwarz inequality.
 */
module LaneChoice {
  import opened Common

  type Vector = seq<real>

  function Times(a: real, b: real): real { a * b }

  function Dot(a: Vector, b: Vector): real
    requires |a| <= |b|
  {
    if |a| == 0 then 0.0 else Dot(a[..|a| - 1], b[..|a| - 1]) + Times(a[|a| - 1], b[|a| - 1])
  }

  function Norm(a: Vector): real { Dot(a, a) }

  // ------------------------------------------------------------------ Cauchy-Schwarz

  lemma SquareNotNegative(x: real)
    ensures Times(x, x) >= 0.0
  {
  }

  lemma {:induction false} NormNotNegative(a: Vector)
    ensures Norm(a) >= 0.0
  {
    if |a| != 0 {
      NormNotNegative(a[..|a| - 1]);
      SquareNotNegative(a[|a| - 1]);
    }
  }

  lemma ProductNotNegative(a: real, b: real)
    requires a >= 0.0 && b >= 0.0
    ensures Times(a, b) >= 0.0
  {
  }

  lemma SquareGrows(a: real, b: real)
    requires a > b >= 0.0
    ensures a * a > b * b
  {
    assert (a - b) * a > 0.0;
    assert (a - b) * b >= 0.0;
  }

  /** A number is at most another non-negative number whose square is larger. */
  lemma RootsCompare(a: real, b: real)
    requires b >= 0.0 && Times(a, a) <= Times(b, b)
    ensures a <= b
  {
    if a > b { SquareGrows(a, b); }
  }

  /** If d*d <= m*n, adding one coordinate keeps it so: the mixed term is at most the sum of squares. */
  lemma OneMoreCoordinate(d: real, m: real, n: real, x: real, y: real)
    requires m >= 0.0 && n >= 0.0 && Times(d, d) <= Times(m, n)
    ensures Times(d + x * y, d + x * y) <= Times(m + x * x, n + y * y)
  {
    var p, q := m * (y * y), n * (x * x);
    assert p >= 0.0 && q >= 0.0 by {
      SquareNotNegative(x);
      SquareNotNegative(y);
      ProductNotNegative(m, y * y);
      ProductNotNegative(n, x * x);
    }
    var mixed := 2.0 * d * (x * y);
    MixedTerm(d, m, n, x, y);
    RootsCompare(mixed, p + q);
    Expand(d, m, n, x, y);
  }

  /** (2 d x y)^2 <= 4 (m n) (x y)^2 = 4 p q <= (p + q)^2. */
  lemma MixedTerm(d: real, m: real, n: real, x: real, y: real)
    requires Times(d, d) <= Times(m, n)
    ensures var p, q, mixed := m * (y * y), n * (x * x), 2.0 * d * (x * y);
      Times(mixed, mixed) <= Times(p + q, p + q)
  {
    var p, q, s := m * (y * y), n * (x * x), (x * y) * (x * y);
    assert s >= 0.0 by { SquareNotNegative(x * y); }
    Factor(d, x, y);
    Scaled(d * d, m * n, s);
    Regroup(m, n, x, y);
    SquareOfDifference(p, q);
  }

  lemma Factor(d: real, x: real, y: real)
    ensures Times(2.0 * d * (x * y), 2.0 * d * (x * y)) == 4.0 * ((d * d) * ((x * y) * (x * y)))
  {
    var z := x * y;
    assert (d * z) * (d * z) == (d * d) * (z * z);
  }

  lemma Scaled(a: real, b: real, s: real)
    requires a <= b && s >= 0.0
    ensures a * s <= b * s
  {
    assert (b - a) * s >= 0.0;
  }

  lemma Regroup(m: real, n: real, x: real, y: real)
    ensures (m * n) * ((x * y) * (x * y)) == (m * (y * y)) * (n * (x * x))
  {
    var u, v := x * x, y * y;
    assert (x * y) * (x * y) == u * v;
    assert (m * n) * (u * v) == (m * v) * (n * u);
  }

  lemma SquareOfDifference(p: real, q: real)
    ensures 4.0 * (p * q) <= Times(p + q, p + q)
  {
    SquareNotNegative(p - q);
    assert (p + q) * (p + q) == (p - q) * (p - q) + 4.0 * (p * q);
  }

  lemma Expand(d: real, m: real, n: real, x: real, y: real)
    ensures Times(d + x * y, d + x * y) == d * d + 2.0 * d * (x * y) + (x * y) * (x * y)
    ensures Times(m + x * x, n + y * y) == m * n + m * (y * y) + n * (x * x) + (x * y) * (x * y)
  {
    var u, v, z := x * x, y * y, x * y;
    assert z * z == u * v;
    assert (m + u) * (n + v) == m * n + m * v + n * u + u * v;
  }

  /** The Cauchy-Schwarz inequality. */
  lemma {:induction false} CauchySchwarz(a: Vector, b: Vector)
    requires |a| == |b|
    ensures Times(Dot(a, b), Dot(a, b)) <= Times(Norm(a), Norm(b))
  {
    if |a| != 0 {
      var n := |a| - 1;
      CauchySchwarz(a[..n], b[..n]);
      NormNotNegative(a[..n]);
      NormNotNegative(b[..n]);
      OneMoreCoordinate(Dot(a[..n], b[..n]), Norm(a[..n]), Norm(b[..n]), a[n], b[n]);
    }
  }

  // ------------------------------------------------------------------ cosine similarity

  /** `Math.sqrt` over the reals. */
  ghost predicate IsSqrt(sqrt: real -> real) {
    forall x :: x >= 0.0 ==> sqrt(x) >= 0.0 && Times(sqrt(x), sqrt(x)) == x
  }

  /** A score; comparing two vectors of which the second is shorter gives NaN. */
  datatype Score = NaN | Number(value: real)

  function Ratio(dot: real, root: real): real {
    if root == 0.0 then 0.0 else dot / root
  }

  /** cosineSimilarity of the job evaluator; it runs over the length of the first vector. */
  function Cosine(a: Vector, b: Vector, sqrt: real -> real): Score {
    if Norm(a) == 0.0 then Number(0.0)
    else if |a| > |b| then NaN
    else if Norm(b[..|a|]) == 0.0 then Number(0.0)
    else Number(Ratio(Dot(a, b), Times(sqrt(Norm(a)), sqrt(Norm(b[..|a|])))))
  }

  lemma {:induction false} DotPrefix(a: Vector, b: Vector, n: nat)
    requires n <= |a| <= |b|
    ensures Dot(a[..n], b) == Dot(a[..n], b[..n])
  {
    if n > 0 {
      assert a[..n][..n - 1] == a[..n - 1];
      assert b[..n][..n - 1] == b[..n - 1];
    }
  }

  method CosineSimilarity(a: Vector, b: Vector, sqrt: real -> real) returns (s: Score)
    requires IsSqrt(sqrt)
    ensures s == Cosine(a, b, sqrt)
  {
    var dotProduct, normA, normB, i := 0.0, 0.0, 0.0, 0;
    var undefined := false;
    while i < |a|
      invariant 0 <= i <= |a|
      invariant normA == Norm(a[..i])
      invariant undefined <==> i > |b|
      invariant !undefined ==> dotProduct == Dot(a[..i], b[..i]) && normB == Norm(b[..i])
    {
      assert a[..i + 1][..i] == a[..i];
      normA := normA + Times(a[i], a[i]);
      if i < |b| {
        assert b[..i + 1][..i] == b[..i];
        dotProduct := dotProduct + Times(a[i], b[i]);
        normB := normB + Times(b[i], b[i]);
      } else {
        undefined := true;
      }
      i := i + 1;
    }
    assert a[..|a|] == a;
    if normA == 0.0 { return Number(0.0); }
    if undefined { return NaN; }
    DotPrefix(a, b, |a|);
    if normB == 0.0 { return Number(0.0); }
    RootIsPositive(normA, normB, sqrt) by { NormNotNegative(a); NormNotNegative(b[..|a|]); }
    s := Number(dotProduct / Times(sqrt(normA), sqrt(normB)));
  }

  lemma RootIsPositive(m: real, n: real, sqrt: real -> real)
    requires IsSqrt(sqrt) && m >= 0.0 && n >= 0.0 && m != 0.0 && n != 0.0
    ensures Times(sqrt(m), sqrt(n)) > 0.0
    ensures Times(Times(sqrt(m), sqrt(n)), Times(sqrt(m), sqrt(n))) == Times(m, n)
  {
    var r, s := sqrt(m), sqrt(n);
    assert r >= 0.0 && Times(r, r) == m && s >= 0.0 && Times(s, s) == n;
    assert r != 0.0 && s != 0.0;
    assert (r * s) * (r * s) == (r * r) * (s * s);
  }

  lemma QuotientBounds(d: real, r: real)
    requires r > 0.0 && Times(d, d) <= Times(r, r)
    ensures -1.0 <= d / r <= 1.0
  {
    RootsCompare(d, r);
    assert Times(-d, -d) == Times(d, d);
    RootsCompare(-d, r);
  }

  /** Whenever the score is a number it lies in [-1, 1]. */
  lemma CosineInRange(a: Vector, b: Vector, sqrt: real -> real)
    requires IsSqrt(sqrt) && Cosine(a, b, sqrt).Number?
    ensures -1.0 <= Cosine(a, b, sqrt).value <= 1.0
  {
    if Norm(a) != 0.0 && |a| <= |b| && Norm(b[..|a|]) != 0.0 {
      var c := b[..|a|];
      NormNotNegative(a);
      NormNotNegative(c);
      RootIsPositive(Norm(a), Norm(c), sqrt);
      CauchySchwarz(a, c);
      DotPrefix(a, b, |a|);
      assert a[..|a|] == a;
      QuotientBounds(Dot(a, b), Times(sqrt(Norm(a)), sqrt(Norm(c))));
    }
  }

  // ------------------------------------------------------------------ best lane

  datatype Lane = Lane(name: string, prototype: Vector)

  const DEFAULT_LANE := "CORE_AI_DATA"

  function ScoreOf(job: Vector, lanes: seq<Lane>, sqrt: real -> real, i: int): Score
    requires 0 <= i < |lanes|
  {
    Cosine(job, lanes[i].prototype, sqrt)
  }

  /** Lane `k` has score `best`, no earlier lane does, and no lane has more. */
  ghost predicate FirstBest(job: Vector, lanes: seq<Lane>, sqrt: real -> real, k: int, best: real) {
    && 0 <= k < |lanes| && ScoreOf(job, lanes, sqrt, k) == Number(best)
    && (forall i :: 0 <= i < k ==> ScoreOf(job, lanes, sqrt, i) != Number(best))
    && (forall i :: 0 <= i < |lanes| && ScoreOf(job, lanes, sqrt, i).Number? ==>
      ScoreOf(job, lanes, sqrt, i).value <= best)
  }

  predicate Above(s: Score, bound: real) { s.Number? && s.value > bound }

  /** The first lane with the greatest score, if some score exceeds -1; otherwise the default lane with score -1. */
  ghost predicate Chosen(job: Vector, lanes: seq<Lane>, sqrt: real -> real, name: string, score: real) {
    if exists k :: 0 <= k < |lanes| && Above(ScoreOf(job, lanes, sqrt, k), -1.0)
    then exists k :: FirstBest(job, lanes, sqrt, k, score) && lanes[k].name == name && score > -1.0
    else name == DEFAULT_LANE && score == -1.0
  }

  /** The best-lane loop, for any lanes in any order. */
  method BestLane(job: Vector, lanes: seq<Lane>, sqrt: real -> real) returns (bestLane: string, bestScore: real)
    requires IsSqrt(sqrt)
    ensures Chosen(job, lanes, sqrt, bestLane, bestScore)
  {
    bestLane, bestScore := DEFAULT_LANE, -1.0;
    ghost var at := -1;
    var i := 0;
    while i < |lanes|
      invariant 0 <= i <= |lanes| && -1 <= at < i
      invariant at == -1 ==> bestLane == DEFAULT_LANE && bestScore == -1.0
      invariant at >= 0 ==>
        bestLane == lanes[at].name && ScoreOf(job, lanes, sqrt, at) == Number(bestScore) && bestScore > -1.0
      invariant forall j :: 0 <= j < i ==> !Above(ScoreOf(job, lanes, sqrt, j), bestScore)
      invariant forall j :: 0 <= j < at ==> ScoreOf(job, lanes, sqrt, j) != Number(bestScore)
    {
      var score := CosineSimilarity(job, lanes[i].prototype, sqrt);
      assert score == ScoreOf(job, lanes, sqrt, i);
      if score.Number? && score.value > bestScore {
        bestScore, bestLane, at := score.value, lanes[i].name, i;
      }
      i := i + 1;
    }
    if at >= 0 { assert FirstBest(job, lanes, sqrt, at, bestScore); }
  }

  /**
   The sentinel is sound: when the default lane comes first and no score is NaN, the lane the loop's
   contract describes is the first lane of maximal similarity, ties at -1 included.
   */
  lemma SentinelIsSound(job: Vector, lanes: seq<Lane>, sqrt: real -> real, bestLane: string, bestScore: real)
    requires IsSqrt(sqrt) && |lanes| > 0 && lanes[0].name == DEFAULT_LANE
    requires forall i :: 0 <= i < |lanes| ==> ScoreOf(job, lanes, sqrt, i).Number?
    requires Chosen(job, lanes, sqrt, bestLane, bestScore)
    ensures exists k :: FirstBest(job, lanes, sqrt, k, bestScore) && lanes[k].name == bestLane
  {
    if forall k :: 0 <= k < |lanes| ==> !Above(ScoreOf(job, lanes, sqrt, k), -1.0) {
      forall k | 0 <= k < |lanes| ensures ScoreOf(job, lanes, sqrt, k) == Number(-1.0) {
        assert ScoreOf(job, lanes, sqrt, k).Number?;
        CosineInRange(job, lanes[k].prototype, sqrt);
      }
      assert FirstBest(job, lanes, sqrt, 0, bestScore);
    }
  }

  // ------------------------------------------------------------------ the other cosine

  datatype Result<T> = Ok(value: T) | LengthsDiffer | ZeroLength

  /** cosineSimilarity of the backend comparison: it checks its input and takes one root of the product. */
  function CheckedCosine(a: Vector, b: Vector, sqrt: real -> real): Result<real> {
    if |a| != |b| || |a| == 0 then LengthsDiffer
    else if Norm(a) == 0.0 || Norm(b) == 0.0 then ZeroLength
    else Ok(Ratio(Dot(a, b), sqrt(Times(Norm(a), Norm(b)))))
  }

  method CheckedCosineSimilarity(a: Vector, b: Vector, sqrt: real -> real) returns (r: Result<real>)
    requires IsSqrt(sqrt)
    ensures r == CheckedCosine(a, b, sqrt)
  {
    if |a| != |b| || |a| == 0 { return LengthsDiffer; }
    var dot, normA, normB := 0.0, 0.0, 0.0;
    for index := 0 to |a|
      invariant dot == Dot(a[..index], b[..index]) && normA == Norm(a[..index]) && normB == Norm(b[..index])
    {
      assert a[..index + 1][..index] == a[..index] && b[..index + 1][..index] == b[..index];
      dot := dot + Times(a[index], b[index]);
      normA := normA + Times(a[index], a[index]);
      normB := normB + Times(b[index], b[index]);
    }
    assert a[..|a|] == a && b[..|b|] == b;
    if normA == 0.0 || normB == 0.0 { return ZeroLength; }
    NormNotNegative(a);
    NormNotNegative(b);
    OneRoot(normA, normB, sqrt);
    RootIsPositive(normA, normB, sqrt);
    r := Ok(dot / sqrt(Times(normA, normB)));
  }

  lemma OneRoot(m: real, n: real, sqrt: real -> real)
    requires IsSqrt(sqrt) && m >= 0.0 && n >= 0.0 && m != 0.0 && n != 0.0
    ensures sqrt(Times(m, n)) == Times(sqrt(m), sqrt(n))
  {
    RootIsPositive(m, n, sqrt);
    ProductNotNegative(m, n);
    var r, p := sqrt(Times(m, n)), Times(sqrt(m), sqrt(n));
    assert r >= 0.0 && Times(r, r) == Times(m, n) && Times(p, p) == Times(m, n);
    hide Times;
    RootsCompare(sqrt(Times(m, n)), Times(sqrt(m), sqrt(n)));
    RootsCompare(Times(sqrt(m), sqrt(n)), sqrt(Times(m, n)));
  }

  /** Where the checked version answers, both versions give the same number; elsewhere only it refuses. */
  lemma CosinesAgree(a: Vector, b: Vector, sqrt: real -> real)
    requires IsSqrt(sqrt)
    ensures CheckedCosine(a, b, sqrt).Ok? ==> Cosine(a, b, sqrt) == Number(CheckedCosine(a, b, sqrt).value)
    ensures CheckedCosine(a, b, sqrt).ZeroLength? ==> Cosine(a, b, sqrt) == Number(0.0)
  {
    if |a| == |b| {
      assert b[..|a|] == b;
      if Norm(a) != 0.0 && Norm(b) != 0.0 {
        NormNotNegative(a);
        NormNotNegative(b);
        OneRoot(Norm(a), Norm(b), sqrt);
      }
    }
  }

  // ------------------------------------------------------------------ the comparison summary

  /** One compared vector: its cosine, or an error. */
  datatype Comparison = Comparison(cosine: Option<real>, flagged: bool)

  /** How the comparison run builds its results. */
  function Compared(cosine: Option<real>, threshold: real): Comparison {
    Comparison(cosine, cosine.Some? && cosine.value < threshold)
  }

  function Cosines(results: seq<Comparison>): seq<real> {
    if |results| == 0 then []
    else
      var last := results[|results| - 1].cosine;
      Cosines(results[..|results| - 1]) + (if last.Some? then [last.value] else [])
  }

  function Sum(s: seq<real>): real { if |s| == 0 then 0.0 else Sum(s[..|s| - 1]) + s[|s| - 1] }

  function Least(s: seq<real>): real
    requires |s| > 0
  {
    if |s| == 1 then s[0] else var m := Least(s[..|s| - 1]); if s[|s| - 1] < m then s[|s| - 1] else m
  }

  function Mean(s: seq<real>): real
    requires |s| > 0
  {
    Sum(s) / (|s| as real)
  }

  predicate AllFine(results: seq<Comparison>) {
    |results| > 0 && forall i :: 0 <= i < |results| ==> !results[i].flagged && results[i].cosine.Some?
  }

  lemma {:induction false} LeastBounds(s: seq<real>)
    requires |s| > 0
    ensures Least(s) in s && forall i :: 0 <= i < |s| ==> Least(s) <= s[i]
  {
    if |s| > 1 { LeastBounds(s[..|s| - 1]); }
  }

  lemma {:induction false} SumBounds(s: seq<real>, m: real)
    requires forall i :: 0 <= i < |s| ==> m <= s[i]
    ensures m * (|s| as real) <= Sum(s)
  {
    if |s| != 0 {
      SumBounds(s[..|s| - 1], m);
      assert m * (|s| as real) == m * ((|s| - 1) as real) + m;
    }
  }

  /** The minimum is one of the cosines and at most their mean. */
  lemma MinimumBelowMean(s: seq<real>)
    requires |s| > 0
    ensures Least(s) in s && Least(s) <= Mean(s)
  {
    LeastBounds(s);
    SumBounds(s, Least(s));
    DivideBound(Least(s), Sum(s), |s| as real);
  }

  lemma DivideBound(m: real, total: real, n: real)
    requires n > 0.0 && m * n <= total
    ensures m <= total / n
  {
    var q := total / n;
    assert q * n == total;
    if m > q { assert (m - q) * n > 0.0; }
  }

  lemma {:induction false} CosinesOf(results: seq<Comparison>)
    ensures |Cosines(results)| <= |results|
    ensures |Cosines(results)| == |results| <==> forall i :: 0 <= i < |results| ==> results[i].cosine.Some?
    ensures forall x :: x in Cosines(results) <==> exists i :: 0 <= i < |results| && results[i].cosine == Some(x)
  {
    if |results| != 0 {
      var n := |results| - 1;
      CosinesOf(results[..n]);
      forall x ensures x in Cosines(results) <==> exists i :: 0 <= i < |results| && results[i].cosine == Some(x) {
        if i :| 0 <= i < |results| && results[i].cosine == Some(x) {
          if i < n { assert results[..n][i].cosine == Some(x); }
        }
        if x in Cosines(results[..n]) {
          var i :| 0 <= i < n && results[..n][i].cosine == Some(x);
          assert results[i].cosine == Some(x);
        }
      }
    }
  }

  /** The run is ok exactly when it compared something, embedded everything, and its minimum meets the threshold. */
  lemma OkMeansMinimumMeetsThreshold(results: seq<Comparison>, threshold: real)
    requires forall i :: 0 <= i < |results| ==> results[i] == Compared(results[i].cosine, threshold)
    ensures AllFine(results) <==>
      |results| > 0 && |Cosines(results)| == |results| && Least(Cosines(results)) >= threshold
  {
    CosinesOf(results);
    if |results| > 0 && |Cosines(results)| == |results| {
      LeastBounds(Cosines(results));
      forall i | 0 <= i < |results| ensures results[i].cosine.value in Cosines(results) {
        assert results[i].cosine == Some(results[i].cosine.value);
      }
    }
  }
}
