/** Scoring a note against a question: cosine similarity over the common
    prefix of the two vectors, multiplied by a recency weight. */
module Similarity {

  /** A non-negative square root on the non-negative reals. */
  ghost predicate IsSqrt(sqrt: real -> real)
  {
    forall x: real :: 0.0 <= x ==> 0.0 <= sqrt(x) && sqrt(x) * sqrt(x) == x
  }

  function Min(a: int, b: int): int
  {
    if a <= b then a else b
  }

  function Max(a: int, b: int): int
  {
    if a >= b then a else b
  }

  /** The number of positions both vectors have. */
  function Overlap(a: seq<real>, b: seq<real>): nat
  {
    Min(|a|, |b|)
  }

  /** Sum of `a[i] * b[i]` over the first `n` positions. */
  function Dot(a: seq<real>, b: seq<real>, n: nat): real
    requires n <= |a| && n <= |b|
  {
    if n == 0 then 0.0 else Dot(a, b, n - 1) + a[n - 1] * b[n - 1]
  }

  lemma {:induction false} DotSelfNonNegative(a: seq<real>, n: nat)
    requires n <= |a|
    ensures Dot(a, a, n) >= 0.0
  {
    if n > 0 {
      DotSelfNonNegative(a, n - 1);
    }
  }

  /** A square root of a positive number is non-zero. */
  lemma SqrtOfPositive(sqrt: real -> real, x: real)
    requires IsSqrt(sqrt) && x > 0.0
    ensures sqrt(x) > 0.0
  {
    assert 0.0 <= sqrt(x) && sqrt(x) * sqrt(x) == x;
  }

  /** `dot / (sqrt(normA) * sqrt(normB))` for positive norms. */
  function Ratio(sqrt: real -> real, dot: real, normA: real, normB: real): real
    requires IsSqrt(sqrt) && normA > 0.0 && normB > 0.0
  {
    SqrtOfPositive(sqrt, normA);
    SqrtOfPositive(sqrt, normB);
    dot / (sqrt(normA) * sqrt(normB))
  }

  /** With both norms equal to `x`, the ratio is `dot / x`. */
  lemma RatioEqualNorms(sqrt: real -> real, x: real)
    requires IsSqrt(sqrt) && x > 0.0
    ensures Ratio(sqrt, x, x, x) == 1.0
    ensures Ratio(sqrt, -x, x, x) == -1.0
  {
    var d := sqrt(x) * sqrt(x);
    assert d == x;
    DivideBySelf(x);
  }

  /** `cosineSimilarity`: the dot product over the overlap divided by the
      product of the overlap's norms, and 0 when either norm vanishes. */
  function Cosine(sqrt: real -> real, a: seq<real>, b: seq<real>): (r: real)
    requires IsSqrt(sqrt)
    ensures Dot(a, a, Overlap(a, b)) == 0.0 || Dot(b, b, Overlap(a, b)) == 0.0 ==> r == 0.0
  {
    var n := Overlap(a, b);
    var normA := Dot(a, a, n);
    var normB := Dot(b, b, n);
    if normA == 0.0 || normB == 0.0 then 0.0
    else
      DotSelfNonNegative(a, n);
      DotSelfNonNegative(b, n);
      Ratio(sqrt, Dot(a, b, n), normA, normB)
  }

  /** The loop of `cosineSimilarity`, accumulating the three sums over the
      overlap and applying the zero-norm guard; it computes `Cosine`. */
  method CosineSimilarity(sqrt: real -> real, a: seq<real>, b: seq<real>) returns (r: real)
    requires IsSqrt(sqrt)
    ensures r == Cosine(sqrt, a, b)
  {
    var dot, normA, normB := 0.0, 0.0, 0.0;
    var len := Min(|a|, |b|);
    var i := 0;
    while i < len
      invariant 0 <= i <= len
      invariant dot == Dot(a, b, i)
      invariant normA == Dot(a, a, i)
      invariant normB == Dot(b, b, i)
    {
      dot := dot + a[i] * b[i];
      normA := normA + a[i] * a[i];
      normB := normB + b[i] * b[i];
      i := i + 1;
    }
    if normA == 0.0 || normB == 0.0 {
      return 0.0;
    }
    DotSelfNonNegative(a, len);
    DotSelfNonNegative(b, len);
    SqrtOfPositive(sqrt, normA);
    SqrtOfPositive(sqrt, normB);
    r := dot / (sqrt(normA) * sqrt(normB));
    assert r == Ratio(sqrt, dot, normA, normB);
  }

  lemma {:induction false} DotCommutes(a: seq<real>, b: seq<real>, n: nat)
    requires n <= |a| && n <= |b|
    ensures Dot(a, b, n) == Dot(b, a, n)
  {
    if n > 0 {
      DotCommutes(a, b, n - 1);
    }
  }

  /** The dot product only looks at the first `n` positions. */
  lemma {:induction false} DotAgrees(a: seq<real>, b: seq<real>, a': seq<real>, b': seq<real>, n: nat)
    requires n <= |a| && n <= |b| && n <= |a'| && n <= |b'|
    requires a[..n] == a'[..n] && b[..n] == b'[..n]
    ensures Dot(a, b, n) == Dot(a', b', n)
  {
    if n > 0 {
      assert a[n - 1] == a[..n][n - 1] && a'[n - 1] == a'[..n][n - 1];
      assert b[n - 1] == b[..n][n - 1] && b'[n - 1] == b'[..n][n - 1];
      assert a[..n - 1] == a[..n][..n - 1] && a'[..n - 1] == a'[..n][..n - 1];
      assert b[..n - 1] == b[..n][..n - 1] && b'[..n - 1] == b'[..n][..n - 1];
      DotAgrees(a, b, a', b', n - 1);
    }
  }

  /** Cosine similarity is symmetric. */
  lemma CosineSymmetric(sqrt: real -> real, a: seq<real>, b: seq<real>)
    requires IsSqrt(sqrt)
    ensures Cosine(sqrt, a, b) == Cosine(sqrt, b, a)
  {
    var n := Overlap(a, b);
    assert n == Overlap(b, a);
    DotCommutes(a, b, n);
    var na, nb := Dot(a, a, n), Dot(b, b, n);
    if na != 0.0 && nb != 0.0 {
      DotSelfNonNegative(a, n);
      DotSelfNonNegative(b, n);
      assert sqrt(na) * sqrt(nb) == sqrt(nb) * sqrt(na);
      assert Ratio(sqrt, Dot(a, b, n), na, nb) == Ratio(sqrt, Dot(b, a, n), nb, na);
    }
  }

  /** Only positions below `min(|a|, |b|)` matter: vectors that agree on
      the overlap (and have the same overlap length) have the same cosine;
      in particular extra trailing components of the longer vector are
      ignored. */
  lemma CosineReadsOverlapOnly(sqrt: real -> real, a: seq<real>, b: seq<real>, a': seq<real>, b': seq<real>)
    requires IsSqrt(sqrt)
    requires Overlap(a, b) == Overlap(a', b')
    requires a[..Overlap(a, b)] == a'[..Overlap(a, b)]
    requires b[..Overlap(a, b)] == b'[..Overlap(a, b)]
    ensures Cosine(sqrt, a, b) == Cosine(sqrt, a', b')
  {
    var n := Overlap(a, b);
    DotAgrees(a, b, a', b', n);
    DotAgrees(a, a, a', a', n);
    DotAgrees(b, b, b', b', n);
  }

  /** A vector with non-zero norm has cosine 1 with itself. */
  lemma CosineSelf(sqrt: real -> real, a: seq<real>)
    requires IsSqrt(sqrt)
    requires Dot(a, a, |a|) != 0.0
    ensures Cosine(sqrt, a, a) == 1.0
  {
    assert Overlap(a, a) == |a|;
    DotSelfNonNegative(a, |a|);
    RatioEqualNorms(sqrt, Dot(a, a, |a|));
  }

  lemma DivideBySelf(x: real)
    requires x != 0.0
    ensures x / x == 1.0 && (-x) / x == -1.0
  {
    assert (-x) / x == -(x / x);
  }

  function Negate(a: seq<real>): (r: seq<real>)
    ensures |r| == |a|
    ensures forall i :: 0 <= i < |a| ==> r[i] == -a[i]
  {
    seq(|a|, i requires 0 <= i < |a| => -a[i])
  }

  lemma {:induction false} DotNegate(a: seq<real>, n: nat)
    requires n <= |a|
    ensures Dot(a, Negate(a), n) == -Dot(a, a, n)
    ensures Dot(Negate(a), Negate(a), n) == Dot(a, a, n)
  {
    if n > 0 {
      DotNegate(a, n - 1);
    }
  }

  /** A vector with non-zero norm has cosine -1 with its negation. */
  lemma CosineNegation(sqrt: real -> real, a: seq<real>)
    requires IsSqrt(sqrt)
    requires Dot(a, a, |a|) != 0.0
    ensures Cosine(sqrt, a, Negate(a)) == -1.0
  {
    var n := |a|;
    var b := Negate(a);
    assert Overlap(a, b) == n;
    DotNegate(a, n);
    DotSelfNonNegative(a, n);
    RatioEqualNorms(sqrt, Dot(a, a, n));
  }

  function Zeros(n: nat): (r: seq<real>)
    ensures |r| == n
    ensures forall i :: 0 <= i < n ==> r[i] == 0.0
  {
    seq(n, i => 0.0)
  }

  lemma {:induction false} DotZeros(b: seq<real>, n: nat, m: nat)
    requires m <= n && m <= |b|
    ensures Dot(Zeros(n), Zeros(n), m) == 0.0
    ensures Dot(Zeros(n), b, m) == 0.0
  {
    if m > 0 {
      DotZeros(b, n, m - 1);
    }
  }

  /** The zero vector has cosine 0 with every vector. */
  lemma CosineWithZero(sqrt: real -> real, b: seq<real>, n: nat)
    requires IsSqrt(sqrt)
    ensures Cosine(sqrt, Zeros(n), b) == 0.0
  {
    DotZeros(b, n, Overlap(Zeros(n), b));
  }

  /** The recency weight: 1 for "today" questions; otherwise
      `1 / (1 + max(0, daysOld) / 7)`, which is `7 / (7 + d)` with d the
      clamped age: in (0, 1], 1 for notes not older than today. */
  function RecencyWeight(aboutToday: bool, daysOld: int): (w: real)
    ensures 0.0 < w <= 1.0
    ensures aboutToday || daysOld <= 0 ==> w == 1.0
    ensures !aboutToday ==> w == 7.0 / (7.0 + Max(0, daysOld) as real)
  {
    if aboutToday then 1.0
    else
      var d := Max(0, daysOld) as real;
      assert 1.0 / (1.0 + d / 7.0) == 7.0 / (7.0 + d);
      1.0 / (1.0 + d / 7.0)
  }

  /** The weight depends on the clamped age only, never increases with it,
      and strictly decreases when the clamped age grows. A week-old note
      weighs one half. */
  lemma RecencyMonotone(d1: int, d2: int)
    requires Max(0, d1) <= Max(0, d2)
    ensures RecencyWeight(false, d2) <= RecencyWeight(false, d1)
    ensures Max(0, d1) < Max(0, d2) ==> RecencyWeight(false, d2) < RecencyWeight(false, d1)
    ensures RecencyWeight(false, 7) == 0.5
  {
    var a, b := Max(0, d1) as real, Max(0, d2) as real;
    assert 7.0 / (7.0 + b) <= 7.0 / (7.0 + a);
    if a < b {
      assert 7.0 / (7.0 + b) < 7.0 / (7.0 + a);
    }
  }

  /** `score = sim * weight`: the similarity itself for "today" questions;
      otherwise it keeps the similarity's sign and is pulled toward 0, so a
      negative similarity is raised, not lowered, by age. */
  function Score(sim: real, aboutToday: bool, daysOld: int): (s: real)
    ensures aboutToday || daysOld <= 0 ==> s == sim
    ensures sim >= 0.0 ==> 0.0 <= s <= sim
    ensures sim < 0.0 ==> sim <= s < 0.0
  {
    sim * RecencyWeight(aboutToday, daysOld)
  }

  /** Two notes with the same positive similarity to a generic question:
      the first scores at least as high iff its clamped age is not larger. */
  lemma ScorePrefersRecent(sim: real, age1: int, age2: int)
    requires sim > 0.0
    ensures Score(sim, false, age1) >= Score(sim, false, age2) <==> Max(0, age1) <= Max(0, age2)
  {
    var w1, w2 := RecencyWeight(false, age1), RecencyWeight(false, age2);
    if Max(0, age1) <= Max(0, age2) {
      RecencyMonotone(age1, age2);
    } else {
      RecencyMonotone(age2, age1);
    }
    ScaleByPositive(sim, w2, w1, Score(sim, false, age2), Score(sim, false, age1));
  }

  /** For a negative similarity the order reverses: the first note scores
      at least as high iff its clamped age is not smaller, so among equally
      dissimilar notes the older one ranks first. */
  lemma ScorePrefersOlderWhenNegative(sim: real, age1: int, age2: int)
    requires sim < 0.0
    ensures Score(sim, false, age1) >= Score(sim, false, age2) <==> Max(0, age1) >= Max(0, age2)
  {
    var w1, w2 := RecencyWeight(false, age1), RecencyWeight(false, age2);
    if Max(0, age2) <= Max(0, age1) {
      RecencyMonotone(age2, age1);
    } else {
      RecencyMonotone(age1, age2);
    }
    ScaleByPositive(-sim, w1, w2, -Score(sim, false, age1), -Score(sim, false, age2));
  }

  /** Multiplying by a positive factor keeps the order of two numbers. */
  lemma ScaleByPositive(k: real, x: real, y: real, kx: real, ky: real)
    requires k > 0.0 && kx == k * x && ky == k * y
    ensures x <= y <==> kx <= ky
  {
    if x <= y {
      assert k * x <= k * y;
    } else {
      assert k * y < k * x;
    }
  }
}
