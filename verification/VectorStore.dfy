/** Similarity search, after src/http/rag_pipeline.cpp, over the reals. The square root is a
    library call: a function known only by its defining property. */
module VectorSearch {
  import opened Wrappers

  datatype Chunk = Chunk(id: string, text: string, embedding: seq<real>, source: string)

  ghost predicate IsSqrt(sqrt: real -> real) {
    forall x :: x >= 0.0 ==> sqrt(x) >= 0.0 && sqrt(x) * sqrt(x) == x
  }

  // ---------- Cosine similarity ----------

  /** The inner product of the first `n` components. */
  function Dot(a: seq<real>, b: seq<real>, n: nat): real
    requires n <= |a| == |b|
  {
    if n == 0 then 0.0 else Dot(a, b, n - 1) + Times(a[n - 1], b[n - 1])
  }

  function Times(x: real, y: real): real {
    x * y
  }

  lemma Square(x: real)
    ensures x * x >= 0.0
  {
  }

  lemma {:induction false} NormNonNegative(a: seq<real>, n: nat)
    requires n <= |a|
    ensures Dot(a, a, n) >= 0.0
  {
    if n > 0 {
      NormNonNegative(a, n - 1);
      Square(a[n - 1]);
    }
  }

  lemma SquareOrder(p: real, q: real)
    requires p >= 0.0 && q * q <= p * p
    ensures q <= p
  {
    if q > p {
      assert (q - p) * (q + p) == q * q - p * p;
      Positive(q - p, q + p);
    }
  }

  lemma Positive(u: real, v: real)
    requires u > 0.0 && v > 0.0
    ensures u * v > 0.0
  {
  }

  /** The inductive step: one more component keeps the inequality. */
  lemma OneMore(d: real, p: real, q: real, x: real, y: real)
    requires p >= 0.0 && q >= 0.0 && d * d <= p * q
    ensures (d + x * y) * (d + x * y) <= (p + x * x) * (q + y * y)
  {
    var s, t := p * (y * y), q * (x * x);
    var cross := d * (x * y);
    Products(d, p, q, x, y);
    assert (2.0 * cross) * (2.0 * cross) <= 4.0 * (s * t);
    SumSquared(s, t);
    SquareOrder(s + t, 2.0 * cross);
    Expand(d, p, q, x, y);
  }

  lemma Products(d: real, p: real, q: real, x: real, y: real)
    requires p >= 0.0 && q >= 0.0 && d * d <= p * q
    ensures p * (y * y) >= 0.0 && q * (x * x) >= 0.0
    ensures (d * (x * y)) * (d * (x * y)) <= (p * (y * y)) * (q * (x * x))
  {
    Square(x);
    Square(y);
    var w := (x * y) * (x * y);
    Square(x * y);
    assert (d * (x * y)) * (d * (x * y)) == (d * d) * w;
    assert (p * (y * y)) * (q * (x * x)) == (p * q) * w;
    Scale(d * d, p * q, w);
  }

  lemma Scale(a: real, b: real, w: real)
    requires a <= b && w >= 0.0
    ensures a * w <= b * w
  {
  }

  lemma SumSquared(s: real, t: real)
    ensures 4.0 * (s * t) <= (s + t) * (s + t)
  {
    Square(s - t);
    assert (s + t) * (s + t) - 4.0 * (s * t) == (s - t) * (s - t);
  }

  lemma Expand(d: real, p: real, q: real, x: real, y: real)
    ensures (d + x * y) * (d + x * y) == d * d + 2.0 * (d * (x * y)) + (x * x) * (y * y)
    ensures (p + x * x) * (q + y * y) == p * q + p * (y * y) + q * (x * x) + (x * x) * (y * y)
  {
  }

  predicate Within(d: real, p: real, q: real) {
    d * d <= p * q
  }

  lemma OneMoreWithin(d: real, p: real, q: real, x: real, y: real)
    requires p >= 0.0 && q >= 0.0 && Within(d, p, q)
    ensures Within(d + Times(x, y), p + Times(x, x), q + Times(y, y))
  {
    OneMore(d, p, q, x, y);
  }

  lemma {:induction false} DotWithin(a: seq<real>, b: seq<real>, n: nat)
    requires n <= |a| == |b|
    ensures Within(Dot(a, b, n), Dot(a, a, n), Dot(b, b, n))
  {
    if n > 0 {
      hide Within, Times;
      DotWithin(a, b, n - 1);
      NormNonNegative(a, n - 1);
      NormNonNegative(b, n - 1);
      OneMoreWithin(Dot(a, b, n - 1), Dot(a, a, n - 1), Dot(b, b, n - 1), a[n - 1], b[n - 1]);
    }
  }

  /** Cauchy-Schwarz, for the three sums the loop computes, in any dimension. */
  lemma CauchySchwarz(a: seq<real>, b: seq<real>, n: nat)
    requires n <= |a| == |b|
    ensures Dot(a, b, n) * Dot(a, b, n) <= Dot(a, a, n) * Dot(b, b, n)
  {
    hide Dot;
    DotWithin(a, b, n);
  }

  ghost function Cosine(a: seq<real>, b: seq<real>, sqrt: real -> real): real
    requires IsSqrt(sqrt)
  {
    if |a| != |b| || a == [] then 0.0
    else
      var normA, normB := Dot(a, a, |a|), Dot(b, b, |b|);
      if normA == 0.0 || normB == 0.0 then 0.0
      else
        NormNonNegative(a, |a|);
        NormNonNegative(b, |b|);
        PositiveScale(normA, normB, sqrt);
        Dot(a, b, |a|) / (sqrt(normA) * sqrt(normB))
  }

  method CosineSimilarity(a: seq<real>, b: seq<real>, sqrt: real -> real) returns (r: real)
    requires IsSqrt(sqrt)
    ensures r == Cosine(a, b, sqrt)
  {
    if |a| != |b| || a == [] {
      return 0.0;
    }
    var dot, normA, normB := 0.0, 0.0, 0.0;
    for i := 0 to |a|
      invariant dot == Dot(a, b, i) && normA == Dot(a, a, i) && normB == Dot(b, b, i)
    {
      dot := dot + a[i] * b[i];
      normA := normA + a[i] * a[i];
      normB := normB + b[i] * b[i];
    }
    if normA == 0.0 || normB == 0.0 {
      return 0.0;
    }
    NormNonNegative(a, |a|);
    NormNonNegative(b, |b|);
    PositiveScale(normA, normB, sqrt);
    return dot / (sqrt(normA) * sqrt(normB));
  }

  lemma PositiveScale(x: real, y: real, sqrt: real -> real)
    requires IsSqrt(sqrt) && x > 0.0 && y > 0.0
    ensures sqrt(x) * sqrt(y) > 0.0
    ensures (sqrt(x) * sqrt(y)) * (sqrt(x) * sqrt(y)) == x * y
  {
    var u, v := sqrt(x), sqrt(y);
    assert u * u == x && v * v == y;
    assert u > 0.0 && v > 0.0;
    assert (u * v) * (u * v) == (u * u) * (v * v);
  }

  lemma Quotient(d: real, s: real, x: real, y: real)
    requires s > 0.0 && s * s == x * y && d * d <= x * y
    ensures -1.0 <= d / s <= 1.0
  {
    SquareOrder(s, d);
    assert (-d) * (-d) == d * d;
    SquareOrder(s, -d);
    assert d / s * s == d;
  }

  /** Every similarity score lies between -1 and 1. */
  lemma CosineBounded(a: seq<real>, b: seq<real>, sqrt: real -> real)
    requires IsSqrt(sqrt)
    ensures -1.0 <= Cosine(a, b, sqrt) <= 1.0
  {
    hide Dot, IsSqrt;
    if |a| == |b| && a != [] {
      var normA, normB := Dot(a, a, |a|), Dot(b, b, |b|);
      NormNonNegative(a, |a|);
      NormNonNegative(b, |b|);
      if normA != 0.0 && normB != 0.0 {
        PositiveScale(normA, normB, sqrt);
        CauchySchwarz(a, b, |a|);
        var d, scale := Dot(a, b, |a|), sqrt(normA) * sqrt(normB);
        Quotient(d, scale, normA, normB);
        assert Cosine(a, b, sqrt) == d / scale;
      }
    }
  }

  // ---------- Search ----------

  datatype Score = Score(value: real, index: nat)

  predicate BestFirst(s: seq<Score>) {
    forall i, j :: 0 <= i < j < |s| ==> s[i].value >= s[j].value
  }

  method SortScores(scores: seq<Score>) returns (sorted: seq<Score>)
    requires Distinct(scores)
    ensures BestFirst(sorted) && Distinct(sorted) && forall e :: e in sorted <==> e in scores
  {
    sorted := SortDescending(scores, (s: Score) => s.value);
  }

  ghost function Scores(chunks: seq<Chunk>, query: seq<real>, sqrt: real -> real): (s: seq<real>)
    requires IsSqrt(sqrt)
    ensures |s| == |chunks|
  {
    seq(|chunks|, i requires 0 <= i < |chunks| => Cosine(query, chunks[i].embedding, sqrt))
  }

  function PositiveIndices(s: seq<real>): set<nat> {
    set i: nat | i < |s| && s[i] > 0.0
  }

  function Limit(k: int): nat {
    if k < 0 then 0 else k
  }

  /** `picks` names the best `k` positively scored chunks, best first. */
  ghost predicate TopK(s: seq<real>, k: int, picks: seq<nat>) {
    && (forall i :: 0 <= i < |picks| ==> picks[i] < |s| && s[picks[i]] > 0.0)
    && Distinct(picks)
    && (forall i, j :: 0 <= i < j < |picks| ==> s[picks[i]] >= s[picks[j]])
    && (forall c, i :: 0 <= c < |s| && c !in picks && 0 <= i < |picks| ==> s[c] <= s[picks[i]])
    && |picks| == Min(Limit(k), |PositiveIndices(s)|)
  }

  /** `results` are the chunks that `picks` names, in that order. */
  ghost predicate Picked(chunks: seq<Chunk>, picks: seq<nat>, results: seq<Chunk>) {
    |results| == |picks| && forall i :: 0 <= i < |picks| ==> picks[i] < |chunks| && results[i] == chunks[picks[i]]
  }

  /** The sorted scores are those of the chunks, each once, best first. */
  ghost predicate Ranking(s: seq<real>, sorted: seq<Score>) {
    && BestFirst(sorted) && Distinct(sorted)
    && forall e :: e in sorted <==> e.index < |s| && e.value == s[e.index]
  }

  class VectorStore {
    var chunks: seq<Chunk>

    constructor ()
      ensures chunks == []
    {
      chunks := [];
    }

    method Add(chunk: Chunk)
      modifies this
      ensures chunks == old(chunks) + [chunk]
    {
      chunks := chunks + [chunk];
    }

    method Search(query: seq<real>, topK: int, sqrt: real -> real) returns (results: seq<Chunk>)
      requires IsSqrt(sqrt)
      ensures exists picks :: TopK(Scores(chunks, query, sqrt), topK, picks) && Picked(chunks, picks, results)
    {
      ghost var s := Scores(chunks, query, sqrt);
      results := [];
      ghost var picks := [];
      if chunks == [] || query == [] {
        NothingPositive(chunks, query, sqrt);
        assert TopK(s, topK, picks) && Picked(chunks, picks, results);
        return;
      }
      var scores := [];
      for i := 0 to |chunks|
        invariant |scores| == i && forall j :: 0 <= j < i ==> scores[j] == Score(s[j], j)
      {
        var sim := CosineSimilarity(query, chunks[i].embedding, sqrt);
        scores := scores + [Score(sim, i)];
      }
      var sorted := SortScores(scores);
      assert Ranking(s, sorted) by { RankingFound(s, scores, sorted); }
      RankingSize(scores, sorted);
      for i := 0 to Min(Limit(topK), |scores|)
        invariant |picks| <= i && Picked(chunks, picks, results)
        invariant forall j :: 0 <= j < |picks| ==> picks[j] == sorted[j].index && sorted[j].value > 0.0
        invariant |picks| == i || sorted[|picks|].value <= 0.0
      {
        assert |picks| < i ==> sorted[|picks|].value >= sorted[i].value;
        if sorted[i].value > 0.0 {
          assert sorted[i] in sorted;
          results := results + [chunks[sorted[i].index]];
          picks := picks + [sorted[i].index];
        }
      }
      PicksAreTopK(s, sorted, topK, picks);
    }
  }

  lemma NothingPositive(chunks: seq<Chunk>, query: seq<real>, sqrt: real -> real)
    requires IsSqrt(sqrt) && (chunks == [] || query == [])
    ensures PositiveIndices(Scores(chunks, query, sqrt)) == {}
  {
  }

  lemma RankingFound(s: seq<real>, scores: seq<Score>, sorted: seq<Score>)
    requires |scores| == |s| && forall j :: 0 <= j < |s| ==> scores[j] == Score(s[j], j)
    requires BestFirst(sorted) && Distinct(sorted) && forall e :: e in sorted <==> e in scores
    ensures Ranking(s, sorted)
  {
    forall e: Score ensures e in scores <==> e.index < |s| && e.value == s[e.index] {
      if e.index < |s| && e.value == s[e.index] { assert scores[e.index] == e; }
    }
  }

  ghost function Elements<T>(q: seq<T>): set<T> {
    set x | x in q
  }

  lemma {:induction false} SizeOfDistinct<T>(q: seq<T>)
    requires Distinct(q)
    ensures |Elements(q)| == |q|
  {
    if q == [] {
      assert Elements(q) == {};
    } else {
      var n := |q| - 1;
      SizeOfDistinct(q[..n]);
      assert q == q[..n] + [q[n]];
      assert Elements(q) == Elements(q[..n]) + {q[n]};
      assert q[n] !in q[..n];
    }
  }

  lemma RankingSize(scores: seq<Score>, sorted: seq<Score>)
    requires Distinct(scores) && Distinct(sorted) && forall e :: e in sorted <==> e in scores
    ensures |sorted| == |scores|
  {
    SizeOfDistinct(scores);
    SizeOfDistinct(sorted);
    assert Elements(sorted) == Elements(scores);
  }

  lemma RankedIndicesDistinct(s: seq<real>, sorted: seq<Score>)
    requires Ranking(s, sorted)
    ensures forall i, j :: 0 <= i < j < |sorted| ==> sorted[i].index != sorted[j].index
  {
    assert forall i :: 0 <= i < |sorted| ==> sorted[i] in sorted;
  }

  /** Where a chunk stands in the ranking. */
  lemma Rank(s: seq<real>, sorted: seq<Score>, c: nat) returns (j: nat)
    requires Ranking(s, sorted) && c < |s|
    ensures j < |sorted| && sorted[j] == Score(s[c], c)
  {
    assert Score(s[c], c) in sorted;
    j :| 0 <= j < |sorted| && sorted[j] == Score(s[c], c);
  }

  ghost predicate Taken(s: seq<real>, sorted: seq<Score>, picks: seq<nat>) {
    && |picks| <= |sorted|
    && forall j :: 0 <= j < |picks| ==> picks[j] == sorted[j].index && sorted[j].value > 0.0
  }

  lemma TakenScores(s: seq<real>, sorted: seq<Score>, picks: seq<nat>, j: nat)
    requires Ranking(s, sorted) && Taken(s, sorted, picks) && j < |sorted|
    ensures sorted[j].index < |s| && sorted[j].value == s[sorted[j].index]
    ensures j < |picks| ==> picks[j] < |s| && s[picks[j]] == sorted[j].value > 0.0
  {
    assert sorted[j] in sorted;
  }

  lemma TakenDistinct(s: seq<real>, sorted: seq<Score>, picks: seq<nat>)
    requires Ranking(s, sorted) && Taken(s, sorted, picks)
    ensures Distinct(picks)
  {
    RankedIndicesDistinct(s, sorted);
  }

  /** A chunk left out ranks after every pick. */
  lemma LeftOut(s: seq<real>, sorted: seq<Score>, picks: seq<nat>, c: nat)
    requires Ranking(s, sorted) && Taken(s, sorted, picks) && c < |s| && c !in picks
    ensures |picks| < |sorted| && s[c] <= sorted[|picks|].value
    ensures forall i :: 0 <= i < |picks| ==> s[c] <= sorted[i].value
  {
    var j := Rank(s, sorted, c);
    assert forall i :: 0 <= i < |picks| ==> picks[i] != c;
  }

  lemma PickCount(s: seq<real>, sorted: seq<Score>, k: int, picks: seq<nat>)
    requires Ranking(s, sorted) && |sorted| == |s| && Taken(s, sorted, picks) && |picks| <= Limit(k)
    requires |picks| == Min(Limit(k), |s|) || sorted[|picks|].value <= 0.0
    ensures |picks| == Min(Limit(k), |PositiveIndices(s)|)
  {
    hide Ranking, Taken, PositiveIndices;
    TakenDistinct(s, sorted, picks);
    SizeOfDistinct(picks);
    forall c | c in Elements(picks) ensures c in PositiveIndices(s) {
      var j :| 0 <= j < |picks| && picks[j] == c;
      TakenIsPositive(s, sorted, picks, j);
    }
    Smaller(Elements(picks), PositiveIndices(s));
    if |picks| < Limit(k) {
      forall c | c in PositiveIndices(s) ensures c in Elements(picks) {
        PositiveIndex(s, c);
        if c !in picks { LeftOut(s, sorted, picks, c); }
      }
      assert Elements(picks) == PositiveIndices(s);
    }
  }

  lemma TakenIsPositive(s: seq<real>, sorted: seq<Score>, picks: seq<nat>, j: nat)
    requires Ranking(s, sorted) && Taken(s, sorted, picks) && j < |picks|
    ensures picks[j] in PositiveIndices(s)
  {
    TakenScores(s, sorted, picks, j);
  }

  lemma PositiveIndex(s: seq<real>, c: nat)
    ensures c in PositiveIndices(s) <==> c < |s| && s[c] > 0.0
  {
  }

  lemma PicksAreTopK(s: seq<real>, sorted: seq<Score>, k: int, picks: seq<nat>)
    requires Ranking(s, sorted) && |sorted| == |s| && Taken(s, sorted, picks) && |picks| <= Limit(k)
    requires |picks| == Min(Limit(k), |s|) || sorted[|picks|].value <= 0.0
    ensures TopK(s, k, picks)
  {
    TakenDistinct(s, sorted, picks);
    PickCount(s, sorted, k, picks);
    forall i | 0 <= i < |picks| ensures picks[i] < |s| && s[picks[i]] == sorted[i].value > 0.0 {
      TakenScores(s, sorted, picks, i);
    }
    forall c, i | 0 <= c < |s| && c !in picks && 0 <= i < |picks| ensures s[c] <= s[picks[i]] {
      LeftOut(s, sorted, picks, c);
    }
  }

  /** Whatever order the sort leaves ties in, the i-th result has the same score. */
  lemma TopKScoresUnique(s: seq<real>, k: int, p: seq<nat>, q: seq<nat>)
    requires TopK(s, k, p) && TopK(s, k, q)
    ensures |p| == |q| && forall i :: 0 <= i < |p| ==> s[p[i]] == s[q[i]]
  {
    forall i | 0 <= i < |p| ensures s[p[i]] == s[q[i]] {
      NotBetter(s, k, p, q, i);
      NotBetter(s, k, q, p, i);
    }
  }

  /** A chunk scoring above the i-th pick is among the first i. */
  lemma AbovePick(s: seq<real>, k: int, q: seq<nat>, i: nat, c: nat)
    requires TopK(s, k, q) && i < |q| && c < |s| && s[c] > s[q[i]]
    ensures c in q[..i]
  {
    assert c in q;
    var j :| 0 <= j < |q| && q[j] == c;
    assert j < i;
    assert q[..i][j] == c;
  }

  lemma NotBetter(s: seq<real>, k: int, p: seq<nat>, q: seq<nat>, i: nat)
    requires TopK(s, k, p) && TopK(s, k, q) && i < |p|
    ensures s[p[i]] <= s[q[i]]
  {
    if s[p[i]] > s[q[i]] {
      var better, above := p[..i + 1], q[..i];
      forall c | c in Elements(better) ensures c in Elements(above) {
        var j :| 0 <= j < |better| && better[j] == c;
        assert c == p[j] && s[c] >= s[p[i]];
        AbovePick(s, k, q, i, c);
      }
      SizeOfDistinct(better);
      SizeOfDistinct(above);
      Smaller(Elements(better), Elements(above));
    }
  }

  // ---------- What a score means ----------

  /** The score times the two norms is the inner product; its sign is the sign of that. */
  lemma ScoreIsScaledProduct(a: seq<real>, b: seq<real>, sqrt: real -> real)
    requires IsSqrt(sqrt) && |a| == |b| && a != [] && Dot(a, a, |a|) != 0.0 && Dot(b, b, |b|) != 0.0
    ensures Cosine(a, b, sqrt) * (sqrt(Dot(a, a, |a|)) * sqrt(Dot(b, b, |b|))) == Dot(a, b, |a|)
    ensures Cosine(a, b, sqrt) > 0.0 <==> Dot(a, b, |a|) > 0.0
    ensures Cosine(a, b, sqrt) == 0.0 <==> Dot(a, b, |a|) == 0.0
  {
    hide Dot, IsSqrt;
    NormNonNegative(a, |a|);
    NormNonNegative(b, |b|);
    PositiveScale(Dot(a, a, |a|), Dot(b, b, |b|), sqrt);
    Sign(Dot(a, b, |a|), sqrt(Dot(a, a, |a|)) * sqrt(Dot(b, b, |b|)));
  }

  lemma Sign(d: real, scale: real)
    requires scale > 0.0
    ensures d / scale * scale == d && (d / scale > 0.0 <==> d > 0.0) && (d / scale == 0.0 <==> d == 0.0)
  {
    var q := d / scale;
    assert q * scale == d;
    if d > 0.0 && q <= 0.0 { Product(-q, scale); }
    if q > 0.0 { Product(q, scale); }
  }

  lemma Product(x: real, y: real)
    requires x >= 0.0 && y > 0.0
    ensures x * y >= 0.0 && (x > 0.0 ==> x * y > 0.0)
  {
  }

  /** Vectors of different sizes, empty ones and zero ones are not similar to anything. */
  lemma NoSimilarity(a: seq<real>, b: seq<real>, sqrt: real -> real)
    requires IsSqrt(sqrt)
    requires |a| != |b| || a == [] || (forall x <- a :: x == 0.0) || (forall x <- b :: x == 0.0)
    ensures Cosine(a, b, sqrt) == 0.0
  {
    if forall x <- a :: x == 0.0 { ZeroNorm(a, |a|); }
    if forall x <- b :: x == 0.0 { ZeroNorm(b, |b|); }
  }

  lemma {:induction false} ZeroNorm(a: seq<real>, n: nat)
    requires n <= |a| && forall x <- a :: x == 0.0
    ensures Dot(a, a, n) == 0.0
  {
    if n > 0 {
      ZeroNorm(a, n - 1);
      assert a[n - 1] in a;
    }
  }

  /** A vector is as similar as can be to itself. */
  lemma SelfSimilar(a: seq<real>, sqrt: real -> real)
    requires IsSqrt(sqrt) && a != [] && Dot(a, a, |a|) != 0.0
    ensures Cosine(a, a, sqrt) == 1.0
  {
    hide Dot;
    NormNonNegative(a, |a|);
    var n := Dot(a, a, |a|);
    PositiveScale(n, n, sqrt);
    var scale := sqrt(n) * sqrt(n);
    assert scale == n;
    assert Cosine(a, a, sqrt) == n / scale;
    OverItself(n);
  }

  lemma OverItself(x: real)
    requires x != 0.0
    ensures x / x == 1.0
  {
  }

  /** The vector that is 1 at `i` and 0 elsewhere. */
  function Unit(n: nat, i: nat): seq<real> {
    seq(n, j => if j == i then 1.0 else 0.0)
  }

  function Combined(x: real, a: seq<real>, b: seq<real>): (c: seq<real>)
    requires |a| == |b|
    ensures |c| == |a|
  {
    seq(|a|, i requires 0 <= i < |a| => x * a[i] + b[i])
  }

  /** The loop's sum is the inner product: it is linear in a vector and picks out its components. */
  lemma {:induction false} DotIsLinear(x: real, a: seq<real>, b: seq<real>, c: seq<real>, n: nat)
    requires n <= |a| == |b| == |c|
    ensures Dot(Combined(x, a, b), c, n) == x * Dot(a, c, n) + Dot(b, c, n)
    ensures Dot(a, b, n) == Dot(b, a, n)
  {
    if n > 0 {
      DotIsLinear(x, a, b, c, n - 1);
      Distribute(x, a[n - 1], b[n - 1], c[n - 1], Dot(a, c, n - 1));
    }
  }

  lemma Distribute(x: real, a: real, b: real, c: real, d: real)
    ensures (x * a + b) * c == x * (a * c) + b * c
    ensures x * d + x * (a * c) == x * (d + a * c)
  {
  }

  lemma {:induction false} DotPicksComponents(a: seq<real>, i: nat, n: nat)
    requires n <= |a| && i < |a|
    ensures Dot(a, Unit(|a|, i), n) == if i < n then a[i] else 0.0
  {
    if n > 0 {
      DotPicksComponents(a, i, n - 1);
    }
  }
}
