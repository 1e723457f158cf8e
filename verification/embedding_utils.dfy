/**
 The shared helper module `embedding_utils.py`: the sample sentence list used
 by `main.py` (index 0 is the reference sentence) and a second, separately
 written zero-guarded cosine similarity.

 The module's `float(...)` conversions are the identity on reals, so this
 `CosineSimilarity` computes the same value as the one in `simple_calc_cos.py`;
 `AgreesWithSimpleCalcCos` proves it on every input.
 */
module EmbeddingUtils {
  import opened Vectors
  import SimpleCalcCos

  /** `DEFAULT_SENTENCES`: the reference sentence followed by ten paraphrases. */
  const DefaultSentences: seq<string> := [
    "今朝、わたしはとても機嫌よく起床しました。",
    "今朝は、気分爽快で目を覚ますことができました。",
    "今朝の目覚めはとてもよく、すっきりと起きられました。",
    "今日は朝から気持ちよく起床できました。",
    "目が覚めた瞬間から、今朝はとても晴れやかな気分でした。",
    "今朝は、心が軽くなるような良い気分で起きました。",
    "今日は、いつもより機嫌よく朝を迎えました。",
    "今朝の私は、とても清々しい気持ちで布団から出られました。",
    "朝起きたとき、自然と笑顔になるくらい気分がよかったです。",
    "今朝は、とても快適な気分で目を覚ましました。",
    "今日は、気持ちが明るいまま心地よく起床しました。"
  ]

  /** The default list holds the reference sentence and ten candidates. */
  lemma DefaultSentencesCount()
    ensures |DefaultSentences| == 11
  {
  }

  /**
   `cosine_similarity(a, b)`: 0.0 when the norm product is zero (no division
   happens), otherwise the cosine of the angle between `a` and `b`.
   */
  function CosineSimilarity(sqrt: real -> real, a: Vector, b: Vector): (r: real)
    requires IsSqrt(sqrt)
    requires |a| == |b|
    ensures IsZero(a) || IsZero(b) ==> r == 0.0
    ensures !IsZero(a) && !IsZero(b) ==> r * (Norm(sqrt, a) * Norm(sqrt, b)) == Dot(a, b)
  {
    var denom := Norm(sqrt, a) * Norm(sqrt, b);
    NormProductZero(sqrt, a, b, denom);
    if denom == 0.0 then 0.0
    else
      var q := Dot(a, b) / denom;
      DivTimes(Dot(a, b), denom, q);
      q
  }

  /** The guard returns 0.0 exactly in the case the norm product is zero, i.e. one vector is zero. */
  lemma ZeroGuard(sqrt: real -> real, a: Vector, b: Vector)
    requires IsSqrt(sqrt)
    requires |a| == |b|
    ensures Norm(sqrt, a) * Norm(sqrt, b) == 0.0 <==> IsZero(a) || IsZero(b)
    ensures Norm(sqrt, a) * Norm(sqrt, b) == 0.0 ==> CosineSimilarity(sqrt, a, b) == 0.0
    ensures Norm(sqrt, a) * Norm(sqrt, b) == 0.0 ==> Dot(a, b) == 0.0
  {
    NormProductZero(sqrt, a, b, Norm(sqrt, a) * Norm(sqrt, b));
    if IsZero(a) {
      DotZero(a, b);
    } else if IsZero(b) {
      DotZero(b, a);
      DotComm(a, b);
    }
  }

  /** On reals, both definitions of cosine similarity agree on every pair of equal-length vectors. */
  lemma AgreesWithSimpleCalcCos(sqrt: real -> real, a: Vector, b: Vector)
    requires IsSqrt(sqrt)
    requires |a| == |b|
    ensures CosineSimilarity(sqrt, a, b) == SimpleCalcCos.CosineSimilarity(sqrt, a, b)
  {
  }

  /** Symmetry, inherited from the other definition through their agreement. */
  lemma Symmetric(sqrt: real -> real, a: Vector, b: Vector)
    requires IsSqrt(sqrt)
    requires |a| == |b|
    ensures CosineSimilarity(sqrt, a, b) == CosineSimilarity(sqrt, b, a)
  {
    AgreesWithSimpleCalcCos(sqrt, a, b);
    AgreesWithSimpleCalcCos(sqrt, b, a);
    SimpleCalcCos.Symmetric(sqrt, a, b);
  }

  /** Scores stay within [-1, 1], as for the other definition. */
  lemma Bounded(sqrt: real -> real, a: Vector, b: Vector)
    requires IsSqrt(sqrt)
    requires |a| == |b|
    ensures -1.0 <= CosineSimilarity(sqrt, a, b) <= 1.0
  {
    AgreesWithSimpleCalcCos(sqrt, a, b);
    SimpleCalcCos.Bounded(sqrt, a, b);
  }
}
