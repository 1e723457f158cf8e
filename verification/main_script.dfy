/**
 The script `main.py`: the same ranking as `simple_calc_cos.py`, run over
 `DEFAULT_SENTENCES` with the helpers of `embedding_utils.py`.
 */
module MainScript {
  import opened Vectors
  import opened Ranking
  import opened EmbeddingUtils

  /**
   The script's scoring loop over the default list: the ten candidates, in
   list order, scored against the reference vector `embs[0]`.
   */
  method ScoreDefaultSentences(sqrt: real -> real, embs: seq<Vector>) returns (results: seq<Scored>)
    requires IsSqrt(sqrt)
    requires |embs| == |DefaultSentences|
    requires SameDimension(embs)
    ensures |results| == 10
    ensures IsCandidateList(results, DefaultSentences)
    ensures forall k :: 0 <= k < |results| ==>
              results[k].score == CosineSimilarity(sqrt, embs[0], embs[k + 1])
  {
    var sentences := DefaultSentences;
    var baseVec := embs[0];
    results := [];
    var idx := 1;
    while idx < |sentences|
      invariant 1 <= idx <= |sentences|
      invariant |results| == idx - 1
      invariant forall k :: 0 <= k < |results| ==>
                  results[k] == Scored(k + 1, sentences[k + 1], CosineSimilarity(sqrt, baseVec, embs[k + 1]))
    {
      var sim := CosineSimilarity(sqrt, baseVec, embs[idx]);
      results := results + [Scored(idx, sentences[idx], sim)];
      idx := idx + 1;
    }
  }

  /**
   The script's body: scores the ten candidates of the default list
   (`results`), then sorts them by score, descending and stable
   (`resultsSorted`).
   */
  method RankDefaultSentences(sqrt: real -> real, embs: seq<Vector>)
    returns (results: seq<Scored>, resultsSorted: seq<Scored>)
    requires IsSqrt(sqrt)
    requires |embs| == |DefaultSentences|
    requires SameDimension(embs)
    ensures |results| == 10 && |resultsSorted| == 10
    ensures IsCandidateList(results, DefaultSentences)
    ensures forall k :: 0 <= k < |results| ==>
              results[k].score == CosineSimilarity(sqrt, embs[0], embs[k + 1])
    ensures resultsSorted == SortByScoreDesc(results)
    ensures multiset(resultsSorted) == multiset(results)
    ensures forall t :: t in resultsSorted ==>
              && 1 <= t.idx <= 10
              && t.text == DefaultSentences[t.idx]
              && t.score == CosineSimilarity(sqrt, embs[0], embs[t.idx])
    ensures forall k :: 0 <= k < |results| ==> results[k] in resultsSorted
    ensures DistinctIdx(resultsSorted)
    ensures Descending(resultsSorted)
    ensures TiesByIdx(resultsSorted)
  {
    results := ScoreDefaultSentences(sqrt, embs);
    resultsSorted := SortByScoreDesc(results);
    RankCandidates(results, DefaultSentences);
  }
}
