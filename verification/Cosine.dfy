/** Cosine similarity of embedding vectors, over the reals and with an exact square root. */
module Cosine {

  datatype Result<+T> = Ok(value: T) | DimensionMismatch

  ghost predicate IsSqrt(sqrt: real -> real) {
    forall x :: x >= 0.0 ==> sqrt(x) >= 0.0 && sqrt(x) * sqrt(x) == x
  }

  function Dot(a: seq<real>, b: seq<real>): real
    requires |a| == |b|
  {
    if a == [] then 0.0 else a[0] * b[0] + Dot(a[1..], b[1..])
  }

  function Quotient(dot: real, norm: real): real {
    if norm > 0.0 then dot / norm else 0.0
  }

  function Norm(sqrt: real -> real, a: seq<real>): real {
    sqrt(Dot(a, a))
  }

  function CosineSimilarity(sqrt: real -> real, a: seq<real>, b: seq<real>): Result<real> {
    if |a| != |b| then DimensionMismatch
    else
      Ok(Quotient(Dot(a, b), Norm(sqrt, a) * Norm(sqrt, b)))
  }

  function Scale(c: real, a: seq<real>): (r: seq<real>)
    ensures |r| == |a| && forall i | 0 <= i < |a| :: r[i] == c * a[i]
  {
    if a == [] then [] else [c * a[0]] + Scale(c, a[1..])
  }

  ghost predicate IsZero(a: seq<real>) {
    forall i | 0 <= i < |a| :: a[i] == 0.0
  }

  lemma {:induction false} DotSymmetric(a: seq<real>, b: seq<real>)
    requires |a| == |b|
    ensures Dot(a, b) == Dot(b, a)
  {
    if a == [] {
    } else {
      DotSymmetric(a[1..], b[1..]);
    }
  }

  lemma {:induction false} DotScale(c: real, a: seq<real>, b: seq<real>)
    requires |a| == |b|
    ensures Dot(Scale(c, a), b) == c * Dot(a, b)
  {
    if a == [] {
    } else {
      DotScale(c, a[1..], b[1..]);
      assert Scale(c, a)[1..] == Scale(c, a[1..]);
      var x, y, d := a[0], b[0], Dot(a[1..], b[1..]);
      assert (c * x) * y + c * d == c * (x * y + d);
    }
  }

  /** A non-negative factor, when positive, keeps the sign. */
  lemma {:induction false} Sign(x: real, n: real, m: real)
    requires n >= 0.0 && m == x * n
    ensures n > 0.0 ==> (m > 0.0 <==> x > 0.0) && (m == 0.0 <==> x == 0.0)
    ensures n == 0.0 ==> m == 0.0
  {
    if n > 0.0 {
      var q := m / n;
      assert q * n == m;
      if x > 0.0 {
        assert x * n > 0.0;
      } else if x < 0.0 {
        assert (-x) * n > 0.0;
      }
    }
  }

  lemma {:induction false} Square(x: real, s: real)
    requires s == x * x
    ensures s >= 0.0 && (s == 0.0 <==> x == 0.0)
  {
    if x >= 0.0 {
      Sign(x, x, s);
    } else {
      Sign(-x, -x, s);
    }
  }

  /** A vector's product with itself is never negative, and zero only for the zero vector. */
  lemma {:induction false} DotSelf(a: seq<real>)
    ensures Dot(a, a) >= 0.0
    ensures Dot(a, a) == 0.0 <==> IsZero(a)
  {
    if a == [] {
    } else {
      DotSelf(a[1..]);
      var s := a[0] * a[0];
      Square(a[0], s);
      assert Dot(a, a) == s + Dot(a[1..], a[1..]);
      assert IsZero(a) <==> a[0] == 0.0 && IsZero(a[1..]) by {
        assert a == [a[0]] + a[1..];
      }
    }
  }

  lemma {:induction false} DotZero(a: seq<real>, b: seq<real>)
    requires |a| == |b| && IsZero(a)
    ensures Dot(a, b) == 0.0
  {
    if a == [] {
    } else {
      DotZero(a[1..], b[1..]);
    }
  }

  function Minus(a: seq<real>, t: real, b: seq<real>): (r: seq<real>)
    requires |a| == |b|
    ensures |r| == |a| && forall i | 0 <= i < |a| :: r[i] == a[i] - t * b[i]
  {
    if a == [] then [] else [a[0] - t * b[0]] + Minus(a[1..], t, b[1..])
  }

  /** A square multiplied out, from its parts. */
  function Expanded(t: real, p: real, q: real, r: real): real {
    p - 2.0 * t * q + t * t * r
  }

  function Times(x: real, y: real): real { x * y }

  lemma {:induction false} DotFirst(a: seq<real>, b: seq<real>)
    requires |a| == |b| && a != []
    ensures Dot(a, b) == Times(a[0], b[0]) + Dot(a[1..], b[1..])
  {
  }

  lemma NothingToExpand(t: real)
    ensures Dot([], []) == 0.0 && Expanded(t, 0.0, 0.0, 0.0) == 0.0
  {
  }

  lemma {:induction false} MinusTail(a: seq<real>, t: real, b: seq<real>)
    requires |a| == |b| && a != []
    ensures Minus(a, t, b)[0] == a[0] - t * b[0]
    ensures Minus(a, t, b)[1..] == Minus(a[1..], t, b[1..])
  {
  }

  lemma {:induction false} MinusStep(
    t: real, x: real, y: real, d: real, p: real, q: real, r: real, xp: real, xq: real, yr: real)
    requires d == x - t * y && xp == Times(x, x) + p && xq == Times(x, y) + q && yr == Times(y, y) + r
    ensures Times(d, d) + Expanded(t, p, q, r) == Expanded(t, xp, xq, yr)
  {
    assert (x - t * y) * (x - t * y) == x * x - 2.0 * t * (x * y) + t * t * (y * y);
    assert 2.0 * t * (x * y + q) == 2.0 * t * (x * y) + 2.0 * t * q;
    assert t * t * (y * y + r) == t * t * (y * y) + t * t * r;
  }

  /** The squared length of a - t b, multiplied out. */
  lemma {:induction false} DotMinus(a: seq<real>, t: real, b: seq<real>)
    requires |a| == |b|
    ensures var d := Minus(a, t, b); Dot(d, d) == Expanded(t, Dot(a, a), Dot(a, b), Dot(b, b))
  {
    hide Dot, Expanded, Times, Minus;
    var d := Minus(a, t, b);
    if a == [] {
      assert b == [] && d == [];
      NothingToExpand(t);
    } else {
      DotMinus(a[1..], t, b[1..]);
      MinusTail(a, t, b);
      DotFirst(d, d);
      DotFirst(a, a);
      DotFirst(a, b);
      DotFirst(b, b);
      MinusStep(t, a[0], b[0], d[0], Dot(a[1..], a[1..]), Dot(a[1..], b[1..]), Dot(b[1..], b[1..]),
                Dot(a, a), Dot(a, b), Dot(b, b));
    }
  }

  /** One vector is a multiple of the other. */
  ghost predicate OnLine(a: seq<real>, b: seq<real>) {
    exists c: real :: a == Scale(c, b)
  }

  lemma {:induction false} Discriminant(p: real, q: real, r: real, t: real, g: real)
    requires r > 0.0 && t == q / r && g >= 0.0
    requires g == p - 2.0 * t * q + t * t * r
    ensures q * q <= p * r && (q * q == p * r <==> g == 0.0)
  {
    assert t * r == q;
    assert t * t * r == t * (t * r) == t * q;
    assert g == p - t * q;
    assert g * r == p * r - (t * r) * q;
    Sign(g, r, p * r - q * q);
  }

  /** Cauchy-Schwarz; where it is an equality, a is t times b. */
  lemma {:induction false} CauchySchwarz(a: seq<real>, b: seq<real>) returns (t: real)
    requires |a| == |b| && !IsZero(b)
    ensures Dot(a, b) * Dot(a, b) <= Dot(a, a) * Dot(b, b)
    ensures Dot(a, b) * Dot(a, b) == Dot(a, a) * Dot(b, b) ==> a == Scale(t, b)
  {
    hide Dot;
    DotSelf(b);
    t := Dot(a, b) / Dot(b, b);
    var d := Minus(a, t, b);
    var g := Dot(d, d);
    DotMinus(a, t, b);
    DotSelf(d);
    Discriminant(Dot(a, a), Dot(a, b), Dot(b, b), t, g);
    if g == 0.0 {
      assert a == Scale(t, b);
    }
  }

  lemma {:induction false} OnLineDots(c: real, a: seq<real>, b: seq<real>)
    requires a == Scale(c, b)
    ensures Dot(a, b) == c * Dot(b, b) && Dot(a, a) == c * Dot(a, b)
  {
    hide Dot;
    DotScale(c, b, b);
    DotScale(c, b, a);
    DotSymmetric(a, b);
  }

  lemma {:induction false} OnLineProducts(c: real, p: real, q: real, r: real)
    requires q == c * r && p == c * q
    ensures q * q == p * r
  {
    assert q * q == (c * r) * q == (c * q) * r;
  }

  /** On one line, Cauchy-Schwarz is an equality. */
  lemma {:induction false} OnLineEqual(c: real, a: seq<real>, b: seq<real>)
    requires a == Scale(c, b)
    ensures Dot(a, b) * Dot(a, b) == Dot(a, a) * Dot(b, b)
  {
    hide Dot;
    OnLineDots(c, a, b);
    OnLineProducts(c, Dot(a, a), Dot(a, b), Dot(b, b));
  }

  /** A number whose square is at most that of n lies within n of zero. */
  lemma {:induction false} SquareOrder(x: real, n: real, x2: real, n2: real)
    requires n >= 0.0 && x2 == x * x && n2 == n * n
    ensures x2 <= n2 ==> -n <= x <= n
    ensures x2 == n2 <==> x == n || x == -n
  {
    var d, s := n - x, n + x;
    assert d * s == n2 - x2;
    if x > n {
      Sign(-d, s, x2 - n2);
    } else if x < -n {
      Sign(-s, d, x2 - n2);
    } else {
      Sign(d, s, n2 - x2);
    }
  }

  /** The norm product, and when it is positive. */
  lemma {:induction false} NormFacts(sqrt: real -> real, a: seq<real>, b: seq<real>)
    requires IsSqrt(sqrt) && |a| == |b|
    ensures var x, y := Norm(sqrt, a), Norm(sqrt, b);
            && x >= 0.0 && y >= 0.0 && x * x == Dot(a, a) && y * y == Dot(b, b)
            && (x > 0.0 <==> !IsZero(a)) && (y > 0.0 <==> !IsZero(b))
  {
    hide Dot;
    DotSelf(a);
    DotSelf(b);
    Square(Norm(sqrt, a), Dot(a, a));
    Square(Norm(sqrt, b), Dot(b, b));
  }

  /** The quotient of a dot product by the norms, as far as Cauchy-Schwarz determines it. */
  lemma {:induction false} QuotientBounds(p: real, q: real, r: real, x: real, y: real, n: real)
    requires x >= 0.0 && y >= 0.0 && x * x == p && y * y == r && n == x * y
    requires x > 0.0 && y > 0.0 ==> q * q <= p * r
    ensures var s := Quotient(q, n);
            -1.0 <= s <= 1.0 && (s == 1.0 || s == -1.0 <==> x > 0.0 && y > 0.0 && q * q == p * r)
  {
    Sign(x, y, n);
    if n > 0.0 {
      assert n * n == (x * x) * (y * y);
      SquareOrder(q, n, q * q, p * r);
      var s := q / n;
      assert s * n == q;
      Sign(1.0 - s, n, n - q);
      Sign(1.0 + s, n, n + q);
    }
  }

  lemma {:induction false} SimilarityIs(sqrt: real -> real, a: seq<real>, b: seq<real>, n: real)
    requires |a| == |b| && n == Norm(sqrt, a) * Norm(sqrt, b)
    ensures CosineSimilarity(sqrt, a, b).Ok?
    ensures CosineSimilarity(sqrt, a, b).value == Quotient(Dot(a, b), n)
  {
  }

  /** Similarity lies in [-1, 1]; it is an end point exactly for non-zero vectors on one line. */
  lemma {:induction false} SimilarityBounds(sqrt: real -> real, a: seq<real>, b: seq<real>)
    requires IsSqrt(sqrt) && |a| == |b|
    ensures var s := CosineSimilarity(sqrt, a, b).value;
            && -1.0 <= s <= 1.0
            && (s == 1.0 || s == -1.0 <==> !IsZero(a) && !IsZero(b) && OnLine(a, b))
  {
    hide Dot, Quotient;
    NormFacts(sqrt, a, b);
    if !IsZero(b) {
      var t := CauchySchwarz(a, b);
      if OnLine(a, b) {
        var c :| a == Scale(c, b);
        OnLineEqual(c, a, b);
      }
    }
    QuotientBounds(Dot(a, a), Dot(a, b), Dot(b, b), Norm(sqrt, a), Norm(sqrt, b), Norm(sqrt, a) * Norm(sqrt, b));
    SimilarityIs(sqrt, a, b, Norm(sqrt, a) * Norm(sqrt, b));
  }

  lemma {:induction false} SimilaritySymmetric(sqrt: real -> real, a: seq<real>, b: seq<real>)
    ensures CosineSimilarity(sqrt, a, b) == CosineSimilarity(sqrt, b, a)
  {
    hide Dot, Quotient;
    if |a| == |b| {
      DotSymmetric(a, b);
      assert Norm(sqrt, a) * Norm(sqrt, b) == Norm(sqrt, b) * Norm(sqrt, a);
    }
  }

  lemma {:induction false} RootScale(sqrt: real -> real, c: real, p: real, m: real)
    requires IsSqrt(sqrt) && c > 0.0 && p >= 0.0 && m == c * (c * p)
    ensures sqrt(m) == c * sqrt(p)
  {
    var x, y := sqrt(p), sqrt(m);
    assert c * p >= 0.0 && m >= 0.0;
    assert x * x == p && y * y == m;
    assert (c * x) * (c * x) == c * (c * (x * x));
    assert c * x >= 0.0;
    SquareOrder(y, c * x, m, m);
  }

  lemma {:induction false} SameProduct(c: real, x: real, y: real)
    requires x == y
    ensures c * x == c * y
  {
  }

  lemma {:induction false} ScaledNorms(sqrt: real -> real, c: real, a: seq<real>)
    requires IsSqrt(sqrt) && c > 0.0
    ensures var ca := Scale(c, a); Norm(sqrt, ca) == c * Norm(sqrt, a)
  {
    hide Dot;
    var ca := Scale(c, a);
    OnLineDots(c, ca, a);
    SameProduct(c, Dot(ca, a), c * Dot(a, a));
    DotSelf(a);
    RootScale(sqrt, c, Dot(a, a), Dot(ca, ca));
  }

  lemma {:induction false} ScaledProduct(c: real, x: real, cx: real, z: real, n: real, cn: real)
    requires x >= 0.0 && z >= 0.0 && cx == c * x && n == x * z && cn == cx * z
    ensures n >= 0.0 && cn == c * n
  {
    Sign(x, z, n);
    assert (c * x) * z == c * (x * z);
  }

  lemma {:induction false} ScaledQuotient(c: real, q: real, cq: real, n: real, cn: real)
    requires c > 0.0 && n >= 0.0 && cq == c * q && cn == c * n
    ensures Quotient(cq, cn) == Quotient(q, n)
  {
    Sign(c, n, cn);
    if n > 0.0 {
      var s := q / n;
      assert s * n == q;
      assert s * cn == cq;
    }
  }

  /** Only direction counts: a positive factor on a vector changes nothing. */
  lemma {:induction false} SimilarityScaleFree(sqrt: real -> real, c: real, a: seq<real>, b: seq<real>)
    requires IsSqrt(sqrt) && c > 0.0
    ensures CosineSimilarity(sqrt, Scale(c, a), b) == CosineSimilarity(sqrt, a, b)
    ensures CosineSimilarity(sqrt, b, Scale(c, a)) == CosineSimilarity(sqrt, b, a)
  {
    hide Dot, Quotient;
    SimilaritySymmetric(sqrt, Scale(c, a), b);
    SimilaritySymmetric(sqrt, a, b);
    if |a| == |b| {
      ScaledNorms(sqrt, c, a);
      NormFacts(sqrt, a, b);
      DotScale(c, a, b);
      var n, cn := Norm(sqrt, a) * Norm(sqrt, b), Norm(sqrt, Scale(c, a)) * Norm(sqrt, b);
      SimilarityIs(sqrt, a, b, n);
      SimilarityIs(sqrt, Scale(c, a), b, cn);
      ScaledProduct(c, Norm(sqrt, a), Norm(sqrt, Scale(c, a)), Norm(sqrt, b), n, cn);
      ScaledQuotient(c, Dot(a, b), Dot(Scale(c, a), b), n, cn);
    }
  }

  lemma {:induction false} SelfQuotient(p: real, n: real)
    requires n == p && p >= 0.0
    ensures Quotient(p, n) == if p == 0.0 then 0.0 else 1.0
  {
  }

  lemma {:induction false} SimilaritySelf(sqrt: real -> real, a: seq<real>)
    requires IsSqrt(sqrt)
    ensures CosineSimilarity(sqrt, a, a) == Ok(if IsZero(a) then 0.0 else 1.0)
  {
    hide Dot, Quotient;
    NormFacts(sqrt, a, a);
    DotSelf(a);
    SelfQuotient(Dot(a, a), Norm(sqrt, a) * Norm(sqrt, a));
  }

  lemma {:induction false} ZeroQuotient(q: real, x: real, y: real, n: real)
    requires (x == 0.0 || y == 0.0) && n == x * y
    ensures Quotient(q, n) == 0.0
  {
  }

  lemma {:induction false} SimilarityOfZero(sqrt: real -> real, a: seq<real>, b: seq<real>)
    requires IsSqrt(sqrt) && |a| == |b| && (IsZero(a) || IsZero(b))
    ensures CosineSimilarity(sqrt, a, b) == Ok(0.0)
  {
    hide Dot, Quotient;
    NormFacts(sqrt, a, b);
    ZeroQuotient(Dot(a, b), Norm(sqrt, a), Norm(sqrt, b), Norm(sqrt, a) * Norm(sqrt, b));
  }

  // ---------- What the number is ----------

  function SumSquares(a: seq<real>): real {
    if a == [] then 0.0 else a[0] * a[0] + SumSquares(a[1..])
  }

  /** The square of the distance between two points. */
  function SquaredDistance(a: seq<real>, b: seq<real>): real
    requires |a| == |b|
  {
    if a == [] then 0.0 else (a[0] - b[0]) * (a[0] - b[0]) + SquaredDistance(a[1..], b[1..])
  }

  lemma {:induction false} DotIsSumSquares(a: seq<real>)
    ensures Dot(a, a) == SumSquares(a)
  {
    if a == [] {
    } else {
      DotIsSumSquares(a[1..]);
    }
  }

  lemma {:induction false} DistanceIsDot(a: seq<real>, b: seq<real>)
    requires |a| == |b|
    ensures SquaredDistance(a, b) == Dot(Minus(a, 1.0, b), Minus(a, 1.0, b))
  {
    if a == [] {
    } else {
      DistanceIsDot(a[1..], b[1..]);
      MinusTail(a, 1.0, b);
      var d := Minus(a, 1.0, b);
      assert d[0] == a[0] - b[0];
      assert Dot(d, d) == d[0] * d[0] + Dot(d[1..], d[1..]);
    }
  }

  /** The quotient times the norms is the dot product, also for the zero vector. */
  lemma {:induction false} QuotientTimes(q: real, n: real)
    requires n >= 0.0 && (n == 0.0 ==> q == 0.0)
    ensures Times(Quotient(q, n), n) == q
  {
  }

  lemma {:induction false} ZeroProduct(x: real, y: real, n: real)
    requires x >= 0.0 && y >= 0.0 && n == x * y
    ensures n >= 0.0 && (n == 0.0 <==> x == 0.0 || y == 0.0)
  {
    Sign(x, y, n);
  }

  /**
   The law of cosines, for vectors of one length: their squared distance is the sum of their squared
   lengths, less twice the similarity times their lengths.
   */
  lemma {:induction false} CosineLaw(sqrt: real -> real, a: seq<real>, b: seq<real>)
    requires IsSqrt(sqrt)
    ensures CosineSimilarity(sqrt, a, b).Ok? <==> |a| == |b|
    ensures |a| == |b| ==>
      var s, n := CosineSimilarity(sqrt, a, b).value, Times(sqrt(SumSquares(a)), sqrt(SumSquares(b)));
      SquaredDistance(a, b) == SumSquares(a) + SumSquares(b) - 2.0 * Times(s, n)
  {
    hide Dot, Quotient, SumSquares, SquaredDistance;
    if |a| != |b| {
      return;
    }
    DotIsSumSquares(a);
    DotIsSumSquares(b);
    DistanceIsDot(a, b);
    DotMinus(a, 1.0, b);
    NormFacts(sqrt, a, b);
    var n := Norm(sqrt, a) * Norm(sqrt, b);
    SimilarityIs(sqrt, a, b, n);
    ZeroProduct(Norm(sqrt, a), Norm(sqrt, b), n);
    if IsZero(a) {
      DotZero(a, b);
    }
    if IsZero(b) {
      DotSymmetric(a, b);
      DotZero(b, a);
    }
    QuotientTimes(Dot(a, b), n);
  }

  lemma {:induction false} NegatedQuotient(q: real, n: real)
    ensures Quotient(-q, n) == -Quotient(q, n)
  {
    if n > 0.0 {
      var s := q / n;
      assert s * n == q;
      assert (-s) * n == -q;
    }
  }

  lemma {:induction false} Reversed(sqrt: real -> real, a: seq<real>, b: seq<real>)
    requires IsSqrt(sqrt) && |a| == |b|
    ensures CosineSimilarity(sqrt, Scale(-1.0, a), b) == Ok(-CosineSimilarity(sqrt, a, b).value)
  {
    hide Dot, Quotient;
    var m := Scale(-1.0, a);
    DotScale(-1.0, a, b);
    OnLineDots(-1.0, m, a);
    assert Norm(sqrt, m) == Norm(sqrt, a);
    var n := Norm(sqrt, a) * Norm(sqrt, b);
    SimilarityIs(sqrt, a, b, n);
    SimilarityIs(sqrt, m, b, n);
    NegatedQuotient(Dot(a, b), n);
  }

  lemma TwoFactors(c: real, d: real, x: real, y: real)
    requires d == -c && y == -1.0 * x
    ensures c * x == d * y
  {
    assert y == -x;
    assert d * y == (-c) * (-x);
  }

  lemma ScaleFirst(c: real, a: seq<real>)
    requires a != []
    ensures Scale(c, a) == [c * a[0]] + Scale(c, a[1..])
  {
  }

  lemma {:induction false} TwiceScaled(c: real, d: real, a: seq<real>)
    requires d == -c
    ensures Scale(c, a) == Scale(d, Scale(-1.0, a))
  {
    if a == [] {
    } else {
      hide Scale;
      var m := Scale(-1.0, a);
      TwiceScaled(c, d, a[1..]);
      ScaleFirst(-1.0, a);
      assert m[1..] == Scale(-1.0, a[1..]);
      TwoFactors(c, d, a[0], m[0]);
      ScaleFirst(c, a);
      ScaleFirst(d, m);
      assert c * a[0] == d * m[0];
      assert Scale(c, a) == Scale(d, m);
    }
  }

  /** A negative factor on a vector turns the sign round, and does nothing else. */
  lemma {:induction false} SimilarityNegated(sqrt: real -> real, c: real, a: seq<real>, b: seq<real>)
    requires IsSqrt(sqrt) && c < 0.0 && |a| == |b|
    ensures CosineSimilarity(sqrt, Scale(c, a), b) == Ok(-CosineSimilarity(sqrt, a, b).value)
    ensures CosineSimilarity(sqrt, b, Scale(c, a)) == Ok(-CosineSimilarity(sqrt, b, a).value)
  {
    hide Dot, Quotient;
    TwiceScaled(c, -c, a);
    SimilarityScaleFree(sqrt, -c, Scale(-1.0, a), b);
    Reversed(sqrt, a, b);
    SimilaritySymmetric(sqrt, Scale(c, a), b);
    SimilaritySymmetric(sqrt, a, b);
  }

  ghost predicate SameDirection(a: seq<real>, b: seq<real>) {
    exists c: real :: c > 0.0 && a == Scale(c, b)
  }

  ghost predicate OppositeDirection(a: seq<real>, b: seq<real>) {
    exists c: real :: c < 0.0 && a == Scale(c, b)
  }

  lemma {:induction false} EndOf(sqrt: real -> real, c: real, a: seq<real>, b: seq<real>)
    requires IsSqrt(sqrt) && !IsZero(b) && c != 0.0 && a == Scale(c, b)
    ensures CosineSimilarity(sqrt, a, b) == Ok(if c > 0.0 then 1.0 else -1.0)
  {
    hide Dot, Quotient;
    SimilaritySelf(sqrt, b);
    if c > 0.0 {
      SimilarityScaleFree(sqrt, c, b, b);
    } else {
      SimilarityNegated(sqrt, c, b, b);
    }
  }

  lemma NothingScaled(b: seq<real>)
    ensures IsZero(Scale(0.0, b))
  {
  }

  /** The similarity is 1 exactly for vectors of one direction, and -1 exactly for opposite ones. */
  lemma {:induction false} SimilarityEnds(sqrt: real -> real, a: seq<real>, b: seq<real>)
    requires IsSqrt(sqrt) && |a| == |b|
    ensures CosineSimilarity(sqrt, a, b) == Ok(1.0) <==> !IsZero(b) && SameDirection(a, b)
    ensures CosineSimilarity(sqrt, a, b) == Ok(-1.0) <==> !IsZero(b) && OppositeDirection(a, b)
  {
    hide Dot, Quotient, Scale;
    SimilarityBounds(sqrt, a, b);
    if !IsZero(b) {
      forall c: real | c != 0.0 && a == Scale(c, b)
        ensures CosineSimilarity(sqrt, a, b) == Ok(if c > 0.0 then 1.0 else -1.0)
      {
        EndOf(sqrt, c, a, b);
      }
      if !IsZero(a) && OnLine(a, b) {
        var c :| a == Scale(c, b);
        if c == 0.0 {
          NothingScaled(b);
        }
      }
    }
  }
}
