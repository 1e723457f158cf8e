/**
 The beginner script `simple_calc_cos.py`: a zero-guarded cosine similarity,
 a loop that scores every candidate sentence against the reference sentence
 (index 0), and a stable descending sort of the collected triples.

 The embeddings arrive as a parameter, one vector per sentence; how they are
 fetched from the remote service is outside the model.
 */
module SimpleCalcCos {
  import opened Vectors
  import opened Ranking

  /**
   `cosine_similarity(a, b)`: the cosine of the angle between `a` and `b`,
   or exactly 0.0 when the product of the norms is zero, in which case no
   division happens.
   */
  function CosineSimilarity(sqrt: real -> real, a: Vector, b: Vector): (r: real)
    requires IsSqrt(sqrt)
    requires |a| == |b|
    ensures IsZero(a) || IsZero(b) ==> r == 0.0
    ensures !IsZero(a) && !IsZero(b) ==> r * (Norm(sqrt, a) * Norm(sqrt, b)) == Dot(a, b)
  {
    var denom := Norm(sqrt, a) * Norm(sqrt, b);
    NormProductZero(sqrt, a, b, denom);
    if denom == 0.0 then 0.0
    else
      var q := Dot(a, b) / denom;
      DivTimes(Dot(a, b), denom, q);
      q
  }

  /**
   The guard of `cosine_similarity`: the score is 0.0 exactly in the case the
   norm product vanishes, and that case is exactly "one vector is zero",
   whatever the other vector is.
   */
  lemma ZeroGuard(sqrt: real -> real, a: Vector, b: Vector)
    requires IsSqrt(sqrt)
    requires |a| == |b|
    ensures Norm(sqrt, a) * Norm(sqrt, b) == 0.0 <==> IsZero(a) || IsZero(b)
    ensures Norm(sqrt, a) * Norm(sqrt, b) == 0.0 ==> CosineSimilarity(sqrt, a, b) == 0.0
    ensures Norm(sqrt, a) * Norm(sqrt, b) == 0.0 ==> Dot(a, b) == 0.0
  {
    NormProductZero(sqrt, a, b, Norm(sqrt, a) * Norm(sqrt, b));
    if IsZero(a) {
      DotZero(a, b);
    } else if IsZero(b) {
      DotZero(b, a);
      DotComm(a, b);
    }
  }

  /** Cosine similarity is symmetric: both the dot product and the norm product commute. */
  lemma Symmetric(sqrt: real -> real, a: Vector, b: Vector)
    requires IsSqrt(sqrt)
    requires |a| == |b|
    ensures CosineSimilarity(sqrt, a, b) == CosineSimilarity(sqrt, b, a)
  {
    DotComm(a, b);
    var na, nb := Norm(sqrt, a), Norm(sqrt, b);
    assert na * nb == nb * na;
  }

  /** A nonzero vector has similarity exactly 1 with itself. */
  lemma SelfSimilarity(sqrt: real -> real, a: Vector)
    requires IsSqrt(sqrt)
    requires !IsZero(a)
    ensures CosineSimilarity(sqrt, a, a) == 1.0
  {
    NormProperties(sqrt, a);
    var na := Norm(sqrt, a);
    var d := Dot(a, a);
    DotSelf(a);
    assert na * na == d;
    assert d != 0.0;
    assert d / d == 1.0;
  }

  /**
   The score always lies in [-1, 1]: the Cauchy–Schwarz inequality bounds the
   dot product by the norm product, and the zero-guard case gives 0.0.
   */
  lemma Bounded(sqrt: real -> real, a: Vector, b: Vector)
    requires IsSqrt(sqrt)
    requires |a| == |b|
    ensures -1.0 <= CosineSimilarity(sqrt, a, b) <= 1.0
  {
    var denom := Norm(sqrt, a) * Norm(sqrt, b);
    if denom != 0.0 {
      QuotientInRange(sqrt, a, b, denom);
    }
  }

  /**
   The script's scoring loop: one triple per candidate `1..|sentences|-1`, in
   sentence order, scored against the reference vector `embs[0]`.
   */
  method ScoreCandidates(sqrt: real -> real, sentences: seq<string>, embs: seq<Vector>)
    returns (results: seq<Scored>)
    requires IsSqrt(sqrt)
    requires 0 < |sentences| && |embs| == |sentences|
    requires SameDimension(embs)
    ensures IsCandidateList(results, sentences)
    ensures forall k :: 0 <= k < |results| ==>
              results[k].score == CosineSimilarity(sqrt, embs[0], embs[k + 1])
  {
    var baseVec := embs[0];
    results := [];
    var idx := 1;
    while idx < |sentences|
      invariant 1 <= idx <= |sentences|
      invariant |results| == idx - 1
      invariant forall k :: 0 <= k < |results| ==>
                  results[k] == Scored(k + 1, sentences[k + 1], CosineSimilarity(sqrt, baseVec, embs[k + 1]))
    {
      var sim := CosineSimilarity(sqrt, baseVec, embs[idx]);
      results := results + [Scored(idx, sentences[idx], sim)];
      idx := idx + 1;
    }
  }

  /**
   The script's main body: scores the candidates (`results`), then sorts them
   by score, descending and stable (`resultsSorted`).
   */
  method RankSentences(sqrt: real -> real, sentences: seq<string>, embs: seq<Vector>)
    returns (results: seq<Scored>, resultsSorted: seq<Scored>)
    requires IsSqrt(sqrt)
    requires 0 < |sentences| && |embs| == |sentences|
    requires SameDimension(embs)
    ensures IsCandidateList(results, sentences)
    ensures forall k :: 0 <= k < |results| ==>
              results[k].score == CosineSimilarity(sqrt, embs[0], embs[k + 1])
    ensures resultsSorted == SortByScoreDesc(results)
    ensures |resultsSorted| == |sentences| - 1
    ensures multiset(resultsSorted) == multiset(results)
    ensures forall t :: t in resultsSorted ==>
              && 1 <= t.idx < |sentences|
              && t.text == sentences[t.idx]
              && t.score == CosineSimilarity(sqrt, embs[0], embs[t.idx])
    ensures forall k :: 0 <= k < |results| ==> results[k] in resultsSorted
    ensures DistinctIdx(resultsSorted)
    ensures Descending(resultsSorted)
    ensures TiesByIdx(resultsSorted)
  {
    results := ScoreCandidates(sqrt, sentences, embs);
    resultsSorted := SortByScoreDesc(results);
    RankCandidates(results, sentences);
  }

  /**
   A worked instance: against the reference `[1, 0]`, the candidates
   `[1, 0]`, `[0, 1]` and `[-1, 0]` score 1, 0 and -1.
   */
  lemma UnitVectorScores(sqrt: real -> real)
    requires IsSqrt(sqrt)
    ensures CosineSimilarity(sqrt, [1.0, 0.0], [1.0, 0.0]) == 1.0
    ensures CosineSimilarity(sqrt, [1.0, 0.0], [0.0, 1.0]) == 0.0
    ensures CosineSimilarity(sqrt, [1.0, 0.0], [-1.0, 0.0]) == -1.0
  {
    var e, f, g: Vector := [1.0, 0.0], [0.0, 1.0], [-1.0, 0.0];
    assert Dot(e, e) == 1.0 && Dot(f, f) == 1.0 && Dot(g, g) == 1.0;
    assert Dot(e, f) == 0.0 && Dot(e, g) == -1.0;
    var n := Norm(sqrt, e);
    assert n == 1.0 && Norm(sqrt, f) == 1.0 && Norm(sqrt, g) == 1.0;
    assert n * n == 1.0;
  }

  /** The scores of `UnitVectorScores`, already descending, stay in index order when ranked. */
  lemma UnitVectorRanking()
    ensures var results := [Scored(1, "A", 1.0), Scored(2, "B", 0.0), Scored(3, "C", -1.0)];
            SortByScoreDesc(results) == results
  {
    var results := [Scored(1, "A", 1.0), Scored(2, "B", 0.0), Scored(3, "C", -1.0)];
    assert SortByScoreDesc(results[3..]) == [];
    assert SortByScoreDesc(results[2..]) == results[2..];
    assert SortByScoreDesc(results[1..]) == results[1..];
  }

  /**
   The worked instance end to end: ranking the reference `[1, 0]` against
   `[1, 0]`, `[0, 1]` and `[-1, 0]` yields the candidates in the order 1, 2, 3
   with scores 1, 0 and -1.
   */
  method UnitVectorExample(sqrt: real -> real) returns (ranked: seq<Scored>)
    requires IsSqrt(sqrt)
    ensures ranked == [Scored(1, "A", 1.0), Scored(2, "B", 0.0), Scored(3, "C", -1.0)]
  {
    var embs: seq<Vector> := [[1.0, 0.0], [1.0, 0.0], [0.0, 1.0], [-1.0, 0.0]];
    var results;
    results, ranked := RankSentences(sqrt, ["r", "A", "B", "C"], embs);
    UnitVectorScores(sqrt);
    assert results[0] == Scored(1, "A", 1.0);
    assert results[1] == Scored(2, "B", 0.0);
    assert results[2] == Scored(3, "C", -1.0);
    assert results == [Scored(1, "A", 1.0), Scored(2, "B", 0.0), Scored(3, "C", -1.0)];
    UnitVectorRanking();
  }
}
