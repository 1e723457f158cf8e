/**
 The numeric layer the similarity scripts borrow from numpy: the dot product
 (`np.dot`) and the Euclidean norm (`np.linalg.norm`) of embedding vectors.

 Vectors are sequences of mathematical reals rather than float32 values.
 Dafny's reals have no square root, so every operation that needs one takes it
 as a parameter `sqrt`, and the properties are proved for every function that
 satisfies `IsSqrt`.
 */
module Vectors {

  /** An embedding vector: one coordinate per model dimension. */
  type Vector = seq<real>

  /** The inner product of two vectors of the same dimension. */
  function Dot(a: Vector, b: Vector): real
    requires |a| == |b|
  {
    if |a| == 0 then 0.0 else a[0] * b[0] + Dot(a[1..], b[1..])
  }

  /** Every coordinate is zero. */
  predicate IsZero(a: Vector) {
    forall i :: 0 <= i < |a| ==> a[i] == 0.0
  }

  /** All vectors of a batch share one dimension. */
  predicate SameDimension(vs: seq<Vector>) {
    forall i :: 0 <= i < |vs| ==> |vs[i]| == |vs[0]|
  }

  /** `sqrt` behaves as the non-negative square root on the non-negative reals. */
  ghost predicate IsSqrt(sqrt: real -> real) {
    forall x: real :: 0.0 <= x ==> 0.0 <= sqrt(x) && sqrt(x) * sqrt(x) == x
  }

  /** The Euclidean length `‖a‖`. */
  function Norm(sqrt: real -> real, a: Vector): real {
    sqrt(Dot(a, a))
  }

  /** The square root of a non-negative real is zero exactly at zero. */
  lemma SqrtZeroIff(sqrt: real -> real, x: real)
    requires IsSqrt(sqrt)
    requires 0.0 <= x
    ensures sqrt(x) == 0.0 <==> x == 0.0
  {
    SquareSign(sqrt(x), x);
  }

  /** The product of two positive reals is positive. */
  lemma PosTimesPos(x: real, y: real, p: real)
    requires 0.0 < x && 0.0 < y
    requires p == x * y
    ensures 0.0 < p
  {
  }

  /** A square `p == x * x` is never negative, and zero exactly when `x` is. */
  lemma SquareSign(x: real, p: real)
    requires p == x * x
    ensures 0.0 <= p
    ensures p == 0.0 <==> x == 0.0
  {
    if x > 0.0 {
      PosTimesPos(x, x, p);
    } else if x < 0.0 {
      PosTimesPos(-x, -x, p);
    }
  }

  /** The dot product does not depend on the order of its arguments. */
  lemma {:induction false} DotComm(a: Vector, b: Vector)
    requires |a| == |b|
    ensures Dot(a, b) == Dot(b, a)
  {
    if |a| != 0 {
      DotComm(a[1..], b[1..]);
    }
  }

  /** `Dot(a, a)` is a sum of squares: never negative, and zero only for the zero vector. */
  lemma {:induction false} DotSelf(a: Vector)
    ensures 0.0 <= Dot(a, a)
    ensures Dot(a, a) == 0.0 <==> IsZero(a)
  {
    if |a| != 0 {
      DotSelf(a[1..]);
      var sq := a[0] * a[0];
      SquareSign(a[0], sq);
      assert Dot(a, a) == sq + Dot(a[1..], a[1..]);
      if Dot(a, a) == 0.0 {
        assert a[0] == 0.0;
        forall i | 0 <= i < |a|
          ensures a[i] == 0.0
        {
          if i > 0 {
            assert a[i] == a[1..][i - 1];
          }
        }
      }
      if IsZero(a) {
        assert a[0] == 0.0;
        assert IsZero(a[1..]) by {
          forall i | 0 <= i < |a[1..]|
            ensures a[1..][i] == 0.0
          {
            assert a[1..][i] == a[i + 1];
          }
        }
      }
    }
  }

  /** `Dot(a, a)` is never negative. */
  lemma DotSelfNonneg(a: Vector)
    ensures 0.0 <= Dot(a, a)
  {
    DotSelf(a);
  }

  /** A zero vector is orthogonal to every vector of its dimension. */
  lemma {:induction false} DotZero(a: Vector, b: Vector)
    requires |a| == |b|
    requires IsZero(a)
    ensures Dot(a, b) == 0.0
  {
    if |a| != 0 {
      assert a[0] == 0.0;
      assert IsZero(a[1..]) by {
        forall i | 0 <= i < |a[1..]|
          ensures a[1..][i] == 0.0
        {
          assert a[1..][i] == a[i + 1];
        }
      }
      DotZero(a[1..], b[1..]);
    }
  }

  /**
   The norm is a non-negative length whose square is `Dot(a, a)`, and it is
   zero exactly for the zero vector.
   */
  lemma NormProperties(sqrt: real -> real, a: Vector)
    requires IsSqrt(sqrt)
    ensures 0.0 <= Norm(sqrt, a)
    ensures Norm(sqrt, a) * Norm(sqrt, a) == Dot(a, a)
    ensures Norm(sqrt, a) == 0.0 <==> IsZero(a)
  {
    DotSelf(a);
    SqrtZeroIff(sqrt, Dot(a, a));
  }

  /**
   A non-negative quadratic form: when `c * c <= p * q` with `p, q >= 0`,
   `p*y*y + q*x*x - 2*c*x*y` is never negative.
   */
  lemma QuadraticFormNonneg(p: real, q: real, c: real, x: real, y: real)
    requires 0.0 <= p && 0.0 <= q
    requires c * c <= p * q
    ensures 2.0 * c * x * y <= p * y * y + q * x * x
  {
    SquareSign(c, c * c);
    if p == 0.0 {
      assert c * c <= 0.0;
      assert c == 0.0;
      assert 0.0 <= q * (x * x);
    } else {
      var e := p * y - c * x;
      assert 0.0 <= e * e;
      assert 0.0 <= (p * q - c * c) * (x * x);
      assert p * (p * y * y + q * x * x - 2.0 * c * x * y) == e * e + (p * q - c * c) * (x * x);
      assert 0.0 <= p * (p * y * y + q * x * x - 2.0 * c * x * y);
    }
  }

  /** The Cauchy–Schwarz inequality, squared form: `(a·b)² <= (a·a)(b·b)`. */
  lemma {:induction false} CauchySchwarz(a: Vector, b: Vector)
    requires |a| == |b|
    ensures Dot(a, b) * Dot(a, b) <= Dot(a, a) * Dot(b, b)
  {
    if |a| != 0 {
      var a', b' := a[1..], b[1..];
      CauchySchwarz(a', b');
      DotSelfNonneg(a');
      DotSelfNonneg(b');
      CauchySchwarzStep(Dot(a', a'), Dot(b', b'), Dot(a', b'), a[0], b[0],
                        Dot(a, a), Dot(b, b), Dot(a, b));
    }
  }

  /**
   One coordinate `(x, y)` more keeps the Cauchy–Schwarz inequality: `p`, `q`
   and `c` are the sums before it, `pp`, `qq` and `cc` the sums after it.
   */
  lemma CauchySchwarzStep(p: real, q: real, c: real, x: real, y: real, pp: real, qq: real, cc: real)
    requires 0.0 <= p && 0.0 <= q
    requires c * c <= p * q
    requires pp == x * x + p && qq == y * y + q && cc == x * y + c
    ensures cc * cc <= pp * qq
  {
    QuadraticFormNonneg(p, q, c, x, y);
    assert (x * y + c) * (x * y + c) == x * x * (y * y) + 2.0 * c * x * y + c * c;
    assert (x * x + p) * (y * y + q) == x * x * (y * y) + p * y * y + q * x * x + p * q;
  }

  /** Dividing and multiplying back by a nonzero real gives the dividend. */
  lemma DivTimes(c: real, d: real, q: real)
    requires d != 0.0 && q == c / d
    ensures q * d == c
  {
  }

  /**
   The zero-denominator guard fires exactly when one of the vectors is the
   zero vector.
   */
  lemma NormProductZero(sqrt: real -> real, a: Vector, b: Vector, denom: real)
    requires IsSqrt(sqrt)
    requires denom == Norm(sqrt, a) * Norm(sqrt, b)
    ensures 0.0 <= denom
    ensures denom == 0.0 <==> IsZero(a) || IsZero(b)
  {
    NormProperties(sqrt, a);
    NormProperties(sqrt, b);
    ProductOfNonnegatives(Norm(sqrt, a), Norm(sqrt, b), denom);
  }

  /** A product of non-negative reals is non-negative, and zero exactly when a factor is. */
  lemma ProductOfNonnegatives(x: real, y: real, p: real)
    requires 0.0 <= x && 0.0 <= y
    requires p == x * y
    ensures 0.0 <= p
    ensures p == 0.0 <==> x == 0.0 || y == 0.0
  {
    if 0.0 < x && 0.0 < y {
      PosTimesPos(x, y, p);
    }
  }

  /** Cauchy–Schwarz, restated for the quotient `dot / (‖a‖·‖b‖)`: it lies in [-1, 1]. */
  lemma QuotientInRange(sqrt: real -> real, a: Vector, b: Vector, denom: real)
    requires IsSqrt(sqrt)
    requires |a| == |b|
    requires denom == Norm(sqrt, a) * Norm(sqrt, b) && denom != 0.0
    ensures -1.0 <= Dot(a, b) / denom <= 1.0
  {
    NormProperties(sqrt, a);
    NormProperties(sqrt, b);
    CauchySchwarz(a, b);
    QuotientOfNorms(Norm(sqrt, a), Norm(sqrt, b), Dot(a, a), Dot(b, b), Dot(a, b), denom);
  }

  /**
   The arithmetic behind `QuotientInRange`: with `na² = pa`, `nb² = pb` and
   `c² <= pa * pb`, the quotient `c / (na * nb)` lies in [-1, 1].
   */
  lemma QuotientOfNorms(na: real, nb: real, pa: real, pb: real, c: real, denom: real)
    requires 0.0 <= na && 0.0 <= nb
    requires na * na == pa && nb * nb == pb
    requires c * c <= pa * pb
    requires denom == na * nb && denom != 0.0
    ensures -1.0 <= c / denom <= 1.0
  {
    ProductOfNonnegatives(na, nb, denom);
    SquareOfProduct(na, nb, pa, pb, denom);
    AbsBound(c, denom);
    QuotientBound(c, denom, c / denom);
  }

  /** `(x*y)² == (x*x)*(y*y)`, with the squares given by name. */
  lemma SquareOfProduct(x: real, y: real, xx: real, yy: real, p: real)
    requires xx == x * x && yy == y * y && p == x * y
    ensures p * p == xx * yy
  {
  }

  /** A real whose square is at most `d * d`, for positive `d`, lies in [-d, d]. */
  lemma AbsBound(c: real, d: real)
    requires 0.0 < d
    requires c * c <= d * d
    ensures -d <= c <= d
  {
    var cc, dd := c * c, d * d;
    if d < c {
      PosTimesPos(c - d, c + d, cc - dd);
    } else if c < -d {
      PosTimesPos(-d - c, d - c, cc - dd);
    }
  }

  /** A quotient `c / d` with `-d <= c <= d` and positive `d` lies in [-1, 1]. */
  lemma QuotientBound(c: real, d: real, q: real)
    requires 0.0 < d && -d <= c <= d
    requires q == c / d
    ensures -1.0 <= q <= 1.0
  {
    DivTimes(c, d, q);
    if 1.0 < q {
      PosTimesPos(q - 1.0, d, c - d);
    } else if q < -1.0 {
      PosTimesPos(-1.0 - q, d, -d - c);
    }
  }
}
