/** Feature vectors and their cosine scores, in exact real arithmetic. */
module Similarity {
  import opened Results

  /** A vector with its Euclidean norm, the square root the code takes of the sum of squares. */
  datatype Vector = Vector(values: seq<real>, norm: real)

  function Dot(x: seq<real>, y: seq<real>): real
    requires |x| == |y|
  {
    if x == [] then 0.0 else Dot(x[..|x| - 1], y[..|y| - 1]) + x[|x| - 1] * y[|y| - 1]
  }

  predicate HasNorm(v: Vector) {
    v.norm >= 0.0 && v.norm * v.norm == Dot(v.values, v.values)
  }

  /** The feature vectors of one photo. */
  datatype Embedding = Embedding(scene: Vector, objectAction: Vector, composition: Vector, color: Vector, mood: Vector)

  function Clamp(x: real): real {
    if x < 0.0 then 0.0 else if x > 1.0 then 1.0 else x
  }

  function Denominator(left: Vector, right: Vector): real { left.norm * right.norm }

  function Cosine(left: Vector, right: Vector): real {
    if |left.values| != |right.values| || left.values == [] then 0.0 else
      var denominator := Denominator(left, right);
      if denominator == 0.0 then 0.0
      else Clamp(Dot(left.values, right.values) / denominator)
  }

  datatype FeatureScores = FeatureScores(scene: real, semantic: real, objects: real,
                                         composition: real, color: real, mood: real)

  predicate Unit(x: real) { 0.0 <= x <= 1.0 }

  predicate InRange(s: FeatureScores) {
    Unit(s.scene) && Unit(s.semantic) && Unit(s.objects) && Unit(s.composition) && Unit(s.color) && Unit(s.mood)
  }

  /** The FeatureScores constructor, which refuses scores outside [0, 1]. */
  function MakeScores(s: FeatureScores): Result<FeatureScores> {
    if InRange(s) then Ok(s) else Err(InvalidArgument)
  }

  function ScoreEmbeddings(source: Embedding, candidate: Embedding): Result<FeatureScores> {
    var scene := Cosine(source.scene, candidate.scene);
    var objects := Cosine(source.objectAction, candidate.objectAction);
    var mood := Cosine(source.mood, candidate.mood);
    MakeScores(FeatureScores(scene, (scene + objects + mood) / 3.0, objects,
                             Cosine(source.composition, candidate.composition),
                             Cosine(source.color, candidate.color), mood))
  }

  // The dot product.

  function Unit1(n: nat, i: nat): seq<real>
    requires i < n
  {
    seq(n, k => if k == i then 1.0 else 0.0)
  }

  lemma {:induction false} DotZero(x: seq<real>, y: seq<real>)
    requires |x| == |y| && forall i :: 0 <= i < |y| ==> y[i] == 0.0
    ensures Dot(x, y) == 0.0
  {
    if x != [] { DotZero(x[..|x| - 1], y[..|y| - 1]); }
  }

  /** Against a vector of one 1 it picks an entry ... */
  lemma {:induction false} DotPicks(x: seq<real>, i: nat)
    requires i < |x|
    ensures Dot(x, Unit1(|x|, i)) == x[i]
  {
    var n := |x| - 1;
    if i == n {
      DotZero(x[..n], Unit1(|x|, i)[..n]);
    } else {
      assert Unit1(|x|, i)[..n] == Unit1(n, i);
      DotPicks(x[..n], i);
    }
  }

  function Mix(y: seq<real>, z: seq<real>, c: real, d: real): (w: seq<real>)
    requires |y| == |z|
    ensures |w| == |y| && forall i :: 0 <= i < |y| ==> w[i] == c * y[i] + d * z[i]
  {
    seq(|y|, i requires 0 <= i < |y| => c * y[i] + d * z[i])
  }

  /** ... and it is linear: so it is the sum of the products of the entries. */
  lemma {:induction false} DotLinear(x: seq<real>, y: seq<real>, z: seq<real>, c: real, d: real)
    requires |x| == |y| == |z|
    ensures Dot(x, Mix(y, z, c, d)) == c * Dot(x, y) + d * Dot(x, z)
  {
    if x != [] {
      var n := |x| - 1;
      forall i | 0 <= i < n ensures Mix(y, z, c, d)[i] == Mix(y[..n], z[..n], c, d)[i] {
        assert y[..n][i] == y[i] && z[..n][i] == z[i];
      }
      assert Mix(y, z, c, d)[..n] == Mix(y[..n], z[..n], c, d);
      DotLinear(x[..n], y[..n], z[..n], c, d);
      Combine(x[n], y[n], z[n], c, d);
      Distribute(c, Dot(x[..n], y[..n]), x[n] * y[n]);
      Distribute(d, Dot(x[..n], z[..n]), x[n] * z[n]);
    }
  }

  lemma Combine(x: real, y: real, z: real, c: real, d: real)
    ensures x * (c * y + d * z) == c * (x * y) + d * (x * z)
  {
    assert x * (c * y) == c * (x * y) && x * (d * z) == d * (x * z);
  }

  // Cauchy-Schwarz.

  lemma {:induction false} DotCommutes(x: seq<real>, y: seq<real>)
    requires |x| == |y|
    ensures Dot(x, y) == Dot(y, x)
  {
    if x != [] { DotCommutes(x[..|x| - 1], y[..|y| - 1]); }
  }

  /** The squared length of `m * x - n * y`. */
  function Spread(x: seq<real>, y: seq<real>, m: real, n: real): (s: real)
    requires |x| == |y|
    ensures s >= 0.0
  {
    if x == [] then 0.0 else
      var d := m * x[|x| - 1] - n * y[|y| - 1];
      Spread(x[..|x| - 1], y[..|y| - 1], m, n) + d * d
  }

  lemma SquareOfDifference(m: real, n: real, a: real, b: real)
    ensures (m * a - n * b) * (m * a - n * b)
            == (m * m) * (a * a) - 2.0 * ((m * n) * (a * b)) + (n * n) * (b * b)
  {
    var p, q := m * a, n * b;
    assert (p - q) * (p - q) == p * p - 2.0 * (p * q) + q * q;
    assert p * p == (m * m) * (a * a);
    assert q * q == (n * n) * (b * b);
    assert p * q == (m * n) * (a * b);
  }

  lemma {:induction false} SpreadExpands(x: seq<real>, y: seq<real>, m: real, n: real)
    requires |x| == |y|
    ensures Spread(x, y, m, n)
            == (m * m) * Dot(x, x) - 2.0 * ((m * n) * Dot(x, y)) + (n * n) * Dot(y, y)
  {
    if x != [] {
      var x', y' := x[..|x| - 1], y[..|y| - 1];
      var a, b := x[|x| - 1], y[|y| - 1];
      SpreadExpands(x', y', m, n);
      SquareOfDifference(m, n, a, b);
      Distribute(m * m, Dot(x', x'), a * a);
      Distribute(m * n, Dot(x', y'), a * b);
      Distribute(n * n, Dot(y', y'), b * b);
    }
  }

  lemma Distribute(c: real, x: real, y: real)
    ensures c * (x + y) == c * x + c * y
  {}

  lemma QuotientAtMostOne(d: real, m: real, n: real)
    requires m > 0.0 && n > 0.0
    requires (m * m) * (n * n) - 2.0 * ((m * n) * d) + (n * n) * (m * m) >= 0.0
    ensures d <= m * n
  {
    var p := m * n;
    assert (m * m) * (n * n) == p * p;
    assert p > 0.0;
    assert 2.0 * (p * (p - d)) >= 0.0;
    if d > p { assert p * (d - p) > 0.0; }
  }

  /** The Cauchy-Schwarz inequality for vectors of any length. */
  lemma CauchySchwarz(left: Vector, right: Vector, m: real, n: real)
    requires HasNorm(left) && HasNorm(right) && m == left.norm && n == right.norm && m > 0.0 && n > 0.0
    requires |left.values| == |right.values|
    ensures Dot(left.values, right.values) <= m * n
  {
    // The vector n * left - m * right has a non-negative squared length.
    SpreadExpands(left.values, right.values, n, m);
    assert (n * m) * Dot(left.values, right.values) == (m * n) * Dot(left.values, right.values);
    QuotientAtMostOne(Dot(left.values, right.values), n, m);
  }

  /** So the quotient never exceeds 1, and the upper clamp of the cosine never acts: the cosine is the quotient
      itself, unless that is negative. */
  lemma CosineNeverClampedAbove(left: Vector, right: Vector, d: real, p: real)
    requires HasNorm(left) && HasNorm(right) && left.norm > 0.0 && right.norm > 0.0
    requires |left.values| == |right.values| && left.values != []
    requires d == Dot(left.values, right.values) && p == left.norm * right.norm
    ensures p > 0.0 && d <= p && d / p <= 1.0
    ensures Cosine(left, right) == if d < 0.0 then 0.0 else d / p
  {
    ProductPositive(left.norm, right.norm, p);
    CauchySchwarz(left, right, left.norm, right.norm);
    CosineClamps(left, right, d, p);
    ClampedQuotient(d, p);
  }

  lemma CosineClamps(left: Vector, right: Vector, d: real, p: real)
    requires |left.values| == |right.values| && left.values != []
    requires d == Dot(left.values, right.values) && p == Denominator(left, right) && p != 0.0
    ensures Cosine(left, right) == Clamp(d / p)
  {}

  lemma ClampedQuotient(d: real, p: real)
    requires p > 0.0 && d <= p
    ensures d / p <= 1.0 && Clamp(d / p) == if d < 0.0 then 0.0 else d / p
  {
    QuotientSign(d, p);
    DivideMonotone(d, p, p);
  }

  lemma QuotientSign(d: real, p: real)
    requires p > 0.0
    ensures d < 0.0 <==> d / p < 0.0
  {}

  lemma DivideMonotone(a: real, b: real, p: real)
    requires p > 0.0 && a <= b
    ensures a / p <= b / p
  {}

  /** The cosine of two vectors, without a division: 0 if there is none or it is negative. */
  predicate IsCosine(left: Vector, right: Vector, x: real) {
    if |left.values| != |right.values| || left.values == [] || left.norm == 0.0 || right.norm == 0.0 then x == 0.0
    else if Dot(left.values, right.values) < 0.0 then x == 0.0
    else x * (left.norm * right.norm) == Dot(left.values, right.values)
  }

  lemma CosineIs(left: Vector, right: Vector)
    requires HasNorm(left) && HasNorm(right)
    ensures IsCosine(left, right, Cosine(left, right))
    ensures forall x :: IsCosine(left, right, x) ==> x == Cosine(left, right)
  {
    var p := left.norm * right.norm;
    if |left.values| == |right.values| && left.values != [] && left.norm != 0.0 && right.norm != 0.0 {
      var d := Dot(left.values, right.values);
      CosineNeverClampedAbove(left, right, d, p);
      QuotientTimes(d, p);
      forall x | IsCosine(left, right, x) ensures x == Cosine(left, right) {
        if d >= 0.0 { SameQuotient(x, d, p); }
      }
    }
  }

  lemma QuotientTimes(d: real, p: real)
    requires p > 0.0
    ensures d / p * p == d
  {}

  lemma SameQuotient(x: real, d: real, p: real)
    requires p > 0.0 && x * p == d
    ensures x == d / p
  {}

  /** Every score comes from the vectors of its own feature, and the semantic score is the average of scene,
      objects and mood. */
  lemma ScoresOfOwnFeatures(source: Embedding, candidate: Embedding)
    requires HasNorm(source.scene) && HasNorm(source.objectAction) && HasNorm(source.composition)
    requires HasNorm(source.color) && HasNorm(source.mood)
    requires HasNorm(candidate.scene) && HasNorm(candidate.objectAction) && HasNorm(candidate.composition)
    requires HasNorm(candidate.color) && HasNorm(candidate.mood)
    ensures ScoreEmbeddings(source, candidate).Ok?
    ensures var s := ScoreEmbeddings(source, candidate).value;
      && IsCosine(source.scene, candidate.scene, s.scene)
      && IsCosine(source.objectAction, candidate.objectAction, s.objects)
      && IsCosine(source.composition, candidate.composition, s.composition)
      && IsCosine(source.color, candidate.color, s.color)
      && IsCosine(source.mood, candidate.mood, s.mood)
      && 3.0 * s.semantic == s.scene + s.objects + s.mood
  {
    CosineIs(source.scene, candidate.scene);
    CosineIs(source.objectAction, candidate.objectAction);
    CosineIs(source.composition, candidate.composition);
    CosineIs(source.color, candidate.color);
    CosineIs(source.mood, candidate.mood);
  }

  lemma CosineSymmetric(left: Vector, right: Vector)
    ensures Cosine(left, right) == Cosine(right, left)
  {
    if |left.values| == |right.values| {
      DotCommutes(left.values, right.values);
      assert left.norm * right.norm == right.norm * left.norm;
    }
  }

  lemma QuotientOfEqual(d: real, p: real)
    requires p > 0.0 && d == p
    ensures d / p == 1.0
  {}

  lemma ProductPositive(a: real, b: real, p: real)
    requires a > 0.0 && b > 0.0 && p == a * b
    ensures p > 0.0
  {}

  /** A nonzero vector scores exactly 1 against itself. */
  lemma CosineOfEqual(v: Vector)
    requires HasNorm(v) && v.values != [] && v.norm != 0.0
    ensures Cosine(v, v) == 1.0
  {
    var d, p := Dot(v.values, v.values), v.norm * v.norm;
    ProductPositive(v.norm, v.norm, p);
    QuotientOfEqual(d, p);
  }

  /** Scoring always yields scores that the FeatureScores constructor accepts, and it does not matter
      which photo is the source. */
  lemma ScoresAcceptedAndSymmetric(source: Embedding, candidate: Embedding)
    ensures ScoreEmbeddings(source, candidate).Ok?
    ensures ScoreEmbeddings(source, candidate) == ScoreEmbeddings(candidate, source)
  {
    CosineSymmetric(source.scene, candidate.scene);
    CosineSymmetric(source.objectAction, candidate.objectAction);
    CosineSymmetric(source.mood, candidate.mood);
    CosineSymmetric(source.composition, candidate.composition);
    CosineSymmetric(source.color, candidate.color);
  }

  predicate Nonzero(v: Vector) { HasNorm(v) && v.values != [] && v.norm != 0.0 }

  lemma EqualEmbeddingsScoreOne(e: Embedding)
    requires Nonzero(e.scene) && Nonzero(e.objectAction) && Nonzero(e.composition) && Nonzero(e.color)
    requires Nonzero(e.mood)
    ensures ScoreEmbeddings(e, e) == Ok(FeatureScores(1.0, 1.0, 1.0, 1.0, 1.0, 1.0))
  {
    CosineOfEqual(e.scene);
    CosineOfEqual(e.objectAction);
    CosineOfEqual(e.composition);
    CosineOfEqual(e.color);
    CosineOfEqual(e.mood);
  }
}
