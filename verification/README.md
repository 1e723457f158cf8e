# Sentence similarity ranking — a Dafny model

The repository ranks a list of Japanese sentences by how close they are in
meaning to the first one. A remote embedding model turns every sentence into a
vector. Each candidate (index 1 to n-1) is then scored against the reference
sentence (index 0) with a zero-guarded cosine similarity. The collected
`(index, text, score)` triples are sorted by score, highest first, with
Python's stable `sorted(..., reverse=True)`. The ranking is written twice: once
in the standalone beginner script `simple_calc_cos.py`, and once in `main.py`,
which takes its sentence list and cosine function from `embedding_utils.py`.

This project models that ranking procedure and proves its properties.

- `vectors.dfy` (`Vectors`) holds the numeric layer the scripts take from
  numpy: the dot product, the Euclidean norm, and the Cauchy–Schwarz
  inequality. Vectors are `seq<real>`.
- `ranking.dfy` (`Ranking`) models `sorted(results, key=score, reverse=True)`
  as a stable insertion sort over `Scored(idx, text, score)` triples. It proves
  that the sort is a permutation, is non-increasing, and is stable. It also
  proves that the sort is the only arrangement with all three properties. The
  sort proofs hold for any real scores.
- `simple_calc_cos.dfy` (`SimpleCalcCos`) models `cosine_similarity` and the
  script's scoring loop and sort.
- `embedding_utils.dfy` (`EmbeddingUtils`) models `DEFAULT_SENTENCES` and the
  second `cosine_similarity`. It proves that, on reals, this one agrees with the
  first on every input.
- `main_script.dfy` (`MainScript`) models the scoring loop and sort of
  `main.py` over the default sentences.

Dafny's reals have no square root, and a square root of a real cannot be shown
to exist inside Dafny. So every operation that needs a norm takes the square
root as a parameter `sqrt: real -> real`, and requires `Vectors.IsSqrt(sqrt)`:
for `x >= 0`, `sqrt(x) >= 0` and `sqrt(x) * sqrt(x) == x`. From this,
`Vectors.SqrtZeroIff` derives that `sqrt(x) == 0` exactly when `x == 0`. Every
property is proved for every such function.

The embeddings are an input: one vector per sentence, all of one dimension.
The model does not call the embedding service.

Two situations the scripts never check for become preconditions:

- Vectors of unequal length. numpy raises only after the zero-norm check
  (`simple_calc_cos.py:73-76`), so a mismatched pair with a zero vector
  quietly scores 0.0. The model requires equal lengths instead.
- A vector count that differs from the sentence count. The scripts never
  compare the two (`simple_calc_cos.py:61-62`, `simple_calc_cos.py:89-92`).
  The model requires `|embs| == |sentences|`.

## Model

| member | source | states |
|---|---|---|
| Vectors.DotComm | simple_calc_cos.py:76 | the dot product is the same with its arguments swapped |
| Vectors.DotSelf | simple_calc_cos.py:73 | `a·a` is never negative and is zero exactly for the zero vector |
| Vectors.NormProperties | simple_calc_cos.py:73 | `‖a‖` is non-negative, squares to `a·a`, and is zero exactly for the zero vector |
| Vectors.NormProductZero | simple_calc_cos.py:73-74 | the norm product in the guard is non-negative and is zero exactly when one of the two vectors is the zero vector |
| Vectors.CauchySchwarz | simple_calc_cos.py:76 | `(a·b)² <= (a·a)(b·b)` for every pair of equal-length vectors |
| Vectors.QuotientInRange | simple_calc_cos.py:76 | when the norm product is nonzero, `a·b / (‖a‖·‖b‖)` lies in [-1, 1] |
| SimpleCalcCos.CosineSimilarity | simple_calc_cos.py:68-76 | if either vector is the zero vector the score is 0.0 whatever the other is; otherwise the score times `‖a‖·‖b‖` equals `a·b`, so it is the cosine of the angle |
| SimpleCalcCos.ZeroGuard | simple_calc_cos.py:72-75 | the guard fires exactly when one vector is zero, and then the result is exactly 0.0 and the dot product it skips is 0 as well |
| SimpleCalcCos.Symmetric | simple_calc_cos.py:73-76 | `cosine_similarity(a, b) == cosine_similarity(b, a)` |
| SimpleCalcCos.SelfSimilarity | simple_calc_cos.py:71-76 | a nonzero vector has similarity exactly 1 with itself |
| SimpleCalcCos.Bounded | simple_calc_cos.py:71-76 | every score lies in [-1, 1], including the 0.0 of the zero-vector case |
| SimpleCalcCos.ScoreCandidates | simple_calc_cos.py:86-92 | `results` holds one triple per candidate index 1..n-1, in index order, each carrying `sentences[idx]` and `cosine_similarity(embs[0], embs[idx])` |
| SimpleCalcCos.RankSentences | simple_calc_cos.py:86-95 | `results` has one triple per index 1..n-1, in order, carrying `sentences[idx]` and `cosine_similarity(embs[0], embs[idx])`; `results_sorted` is a permutation of `results` with n-1 entries, never index 0, each index once, each carrying its own sentence and score, every collected triple present, scores non-increasing, ties in ascending index order |
| SimpleCalcCos.UnitVectorScores | simple_calc_cos.py:68-76 | against `[1, 0]`, the vectors `[1, 0]`, `[0, 1]` and `[-1, 0]` score 1, 0 and -1 |
| SimpleCalcCos.UnitVectorExample | simple_calc_cos.py:86-95 | running the scoring loop and sort on the reference `[1, 0]` and candidates `[1, 0]`, `[0, 1]`, `[-1, 0]` ranks them 1, 2, 3 with scores 1, 0, -1 |
| SimpleCalcCos.UnitVectorRanking | simple_calc_cos.py:95 | scores 1, 0 and -1 for indices 1, 2 and 3 rank in that order |
| Ranking.SortByScoreDesc | simple_calc_cos.py:95 | the sorted list has the same length and the same multiset of triples as its input, and its scores never increase |
| Ranking.InsertWithScore | simple_calc_cos.py:95 | inserting a triple puts it before the entries it ties with and changes no other score's entries |
| Ranking.SortStable | main.py:36 | for every score value, the sorted list holds the triples with that score in their input order |
| Ranking.SortKeepsTies | main.py:36 | when the input's indices increase, the sorted list puts tied triples in ascending index order and never repeats an index |
| Ranking.DescendingDeterminedByScores | main.py:36 | two non-increasing lists that hold the same triples in the same order for every score are equal |
| Ranking.SortIsUnique | main.py:36 | any non-increasing list that keeps tied triples in input order is exactly the sorted list |
| Ranking.RankCandidates | main.py:30-36 | sorting the collected triples gives n-1 entries, a permutation of them, none for index 0, each candidate index exactly once, each entry equal to the collected triple for its index (same text and score), scores non-increasing, ties in index order |
| Ranking.ReverseKeepsTieOrder | main.py:36 | with `reverse=True`, scores 0.5, 0.9, 0.5 for indices 1, 2, 3 rank as 2, 1, 3 |
| EmbeddingUtils.DefaultSentencesCount | embedding_utils.py:18-30 | the default list has 11 sentences: the reference and ten candidates |
| EmbeddingUtils.CosineSimilarity | embedding_utils.py:46-54 | zero vector on either side gives exactly 0.0; otherwise the score times the norm product equals the dot product |
| EmbeddingUtils.ZeroGuard | embedding_utils.py:51-53 | the guard fires exactly when the norm product is zero, i.e. when one vector is zero, and then returns 0.0; the dot product it skips is 0 as well |
| EmbeddingUtils.AgreesWithSimpleCalcCos | embedding_utils.py:46-54 | this `cosine_similarity` returns the same value as the one in `simple_calc_cos.py` on every pair of equal-length vectors |
| EmbeddingUtils.Symmetric | embedding_utils.py:51-54 | the result is the same with `a` and `b` swapped |
| EmbeddingUtils.Bounded | embedding_utils.py:51-54 | every result lies in [-1, 1] |
| MainScript.ScoreDefaultSentences | main.py:28-33 | over the 11 default sentences, `results` holds exactly 10 triples, one per index 1..10 in order, each with `DEFAULT_SENTENCES[idx]` and `cosine_similarity(embs[0], embs[idx])` |
| MainScript.RankDefaultSentences | main.py:25-36 | over the 11 default sentences there are exactly 10 results, each with its index, `DEFAULT_SENTENCES[idx]` and `cosine_similarity(embs[0], embs[idx])`; the sorted list is a permutation of them, non-increasing, each index once, ties in index order |

## Left out

- `get_embeddings` (`simple_calc_cos.py:50-62`, `embedding_utils.py:33-43`) is a call to a remote service through a foreign client. The embeddings are a parameter: one vector per sentence, all of the same dimension. The service's promise about order and count cannot be checked here, so it is a precondition.
- The API key lookup and the `sys.exit` when it is missing (`simple_calc_cos.py:18-25`), and the module-level client (`embedding_utils.py:15`), are environment and I/O.
- All printing and the `.3f` formatting (`simple_calc_cos.py:101-107`, `main.py:41-46`) are console output.
- `print_embeddings.py` is not part of this model. It only formats vectors with numpy and prints them.
- Floating-point behaviour is not modelled. Vectors and scores are reals, so float32 rounding, a nonzero vector whose norm underflows to 0, NaN or infinite scores, and a self-similarity only close to 1 do not arise. The two `cosine_similarity` functions agree on reals only: `embedding_utils.py:51` converts the denominator with `float(...)`, which can change the precision of the division at line 54 compared with `simple_calc_cos.py:76`.
- Vectors of unequal length: numpy raises only after the zero check, so a mismatched pair with a zero vector returns 0.0. The model requires equal lengths instead.
- An empty sentence list gives no reference vector and is excluded by a precondition; both scripts only ever pass their eleven-sentence literal. A list with only the reference sentence is modelled and gives no results.
- The square root is a parameter constrained by `Vectors.IsSqrt`. It is not a fixed function, because Dafny's reals provide none.
- `simple_calc_cos.py:32-44` repeats the eleven sentences of `DEFAULT_SENTENCES` word for word. `SimpleCalcCos.RankSentences` takes the sentence list as a parameter, so it covers that list and any other.
