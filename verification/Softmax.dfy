/**
 What an attention output means, apart from how it is computed: an average of the values a query may see, with weights
 of which only the ratios matter.
 */
module Softmax {
  import opened Outcomes
  import opened Rounding
  import opened Sums
  import opened Attention

  // ----- Weighted averages -----

  /** How far the values lie from `r`, by weight. */
  function Deviations(w: seq<real>, values: seq<Vector>, c: nat, dim: nat, r: real): (terms: seq<real>)
    requires |w| == |values| && Uniform(values, dim) && c < dim
    ensures |terms| == |w|
  {
    seq(|w|, t requires 0 <= t < |w| => w[t] * (values[t][c] - r))
  }

  lemma {:induction false} SumOfDeviations(w: seq<real>, values: seq<Vector>, c: nat, dim: nat, r: real, n: nat)
    requires |w| == |values| && Uniform(values, dim) && c < dim && n <= |w|
    ensures Sum(Deviations(w, values, c, dim, r), n) == Sum(Weighted(w, values, c, dim), n) - Times(r, Sum(w, n))
  {
    if n == 0 {
      assert Times(r, 0.0) == 0.0;
    } else {
      hide Times;
      SumOfDeviations(w, values, c, dim, r, n - 1);
      Expanded(w[n - 1], values[n - 1][c], r, Sum(w, n - 1));
    }
  }

  lemma {:induction false} Expanded(a: real, v: real, r: real, rest: real)
    ensures a * (v - r) - Times(r, rest) == a * v - Times(r, rest + a)
  {
  }

  lemma {:induction false} Divides(x: real, total: real, r: real)
    requires total > 0.0
    ensures x / total == r <==> x - Times(r, total) == 0.0
    ensures x - Times(r, total) >= 0.0 ==> x / total >= r
    ensures x - Times(r, total) <= 0.0 ==> x / total <= r
  {
    var q := x / total;
    assert q * total == x;
    OrderedProducts(q, r, total);
  }

  lemma {:induction false} OrderedProducts(q: real, r: real, total: real)
    requires total > 0.0
    ensures q < r ==> q * total < r * total
    ensures q > r ==> q * total > r * total
  {
  }

  /** The output is the one number around which the weighted values balance. */
  lemma {:induction false} AverageExactlyWhen(w: seq<real>, values: seq<Vector>, c: nat, dim: nat, r: real)
    requires |w| == |values| && Uniform(values, dim) && c < dim && Total(w) > 0.0
    ensures Attend(w, values, c, dim) == Some(r) <==> Total(Deviations(w, values, c, dim, r)) == 0.0
  {
    SumOfDeviations(w, values, c, dim, r, |w|);
    Divides(Total(Weighted(w, values, c, dim)), Total(w), r);
  }

  lemma {:induction false} SumSign(s: seq<real>, n: nat)
    requires n <= |s|
    ensures (forall i :: 0 <= i < n ==> s[i] >= 0.0) ==> Sum(s, n) >= 0.0
    ensures (forall i :: 0 <= i < n ==> s[i] <= 0.0) ==> Sum(s, n) <= 0.0
  {
    if n > 0 {
      SumSign(s, n - 1);
    }
  }

  lemma {:induction false} Signs(a: real, v: real, lo: real, hi: real)
    requires a >= 0.0 && (a > 0.0 ==> lo <= v <= hi)
    ensures a * (v - lo) >= 0.0 && a * (v - hi) <= 0.0
  {
    if a == 0.0 {
      assert a * (v - lo) == 0.0 && a * (v - hi) == 0.0;
    }
  }

  /** It lies between any bounds of the values that have weight. */
  lemma {:induction false} AverageBetween(w: seq<real>, values: seq<Vector>, c: nat, dim: nat, lo: real, hi: real)
    requires |w| == |values| && Uniform(values, dim) && c < dim && Total(w) > 0.0
    requires forall t :: 0 <= t < |w| ==> w[t] >= 0.0 && (w[t] > 0.0 ==> lo <= values[t][c] <= hi)
    ensures Attend(w, values, c, dim).Some? && lo <= Attend(w, values, c, dim).value <= hi
  {
    var below, above := Deviations(w, values, c, dim, lo), Deviations(w, values, c, dim, hi);
    forall t | 0 <= t < |w|
      ensures below[t] >= 0.0 && above[t] <= 0.0
    {
      Signs(w[t], values[t][c], lo, hi);
    }
    hide Deviations, Weighted, Times;
    SumSign(below, |w|);
    SumSign(above, |w|);
    SumOfDeviations(w, values, c, dim, lo, |w|);
    SumOfDeviations(w, values, c, dim, hi, |w|);
    Divides(Total(Weighted(w, values, c, dim)), Total(w), lo);
    Divides(Total(Weighted(w, values, c, dim)), Total(w), hi);
  }

  lemma {:induction false} SumScaled(s: seq<real>, s': seq<real>, f: real, n: nat)
    requires n <= |s| == |s'| && forall i :: 0 <= i < n ==> s'[i] == Times(f, s[i])
    ensures Sum(s', n) == Times(f, Sum(s, n))
  {
    if n > 0 {
      SumScaled(s, s', f, n - 1);
      Distributed(f, Sum(s, n - 1), s[n - 1]);
    }
  }

  lemma {:induction false} Distributed(f: real, x: real, y: real)
    ensures Times(f, x + y) == Times(f, x) + Times(f, y)
  {
  }

  lemma {:induction false} Cancels(f: real, x: real, total: real)
    requires f > 0.0 && total != 0.0
    ensures Times(f, total) != 0.0 && Times(f, x) / Times(f, total) == x / total
  {
    var q := x / total;
    assert q * total == x;
    assert Times(f, x) == q * Times(f, total);
  }

  lemma {:induction false} Reordered(f: real, a: real, v: real)
    ensures Times(f, a) * v == Times(f, a * v)
  {
  }

  /** Only the ratios of the weights matter. */
  lemma {:induction false} ScaledWeights(w: seq<real>, w': seq<real>, values: seq<Vector>, c: nat, dim: nat, f: real)
    requires |w| == |w'| == |values| && Uniform(values, dim) && c < dim && f > 0.0
    requires forall t :: 0 <= t < |w| ==> w'[t] == Times(f, w[t])
    ensures Attend(w', values, c, dim) == Attend(w, values, c, dim)
  {
    var x, x' := Weighted(w, values, c, dim), Weighted(w', values, c, dim);
    forall t | 0 <= t < |w|
      ensures x'[t] == Times(f, x[t])
    {
      Reordered(f, w[t], values[t][c]);
    }
    SumScaled(w, w', f, |w|);
    SumScaled(x, x', f, |w|);
    if Total(w) == 0.0 {
      assert Times(f, 0.0) == 0.0;
    } else {
      Cancels(f, Total(x), Total(w));
    }
  }

  // ----- The weights of a request -----

  /** The position of query `q` itself. */
  function Own(g: Shape, q: nat): int {
    g.sequence - g.queries + q
  }

  /** A query sees the positions up to its own, of which a window keeps the last few. */
  predicate Sees(g: Shape, q: nat, t: int) {
    t <= Own(g, q) && (g.window.Some? ==> Own(g, q) - g.window.value < t)
  }

  lemma {:induction false} WeighsExactlyWhen(m: Request, q: nat, key: Vector, t: int)
    requires ValidRequest(m, |key|) && q < m.shape.queries
    ensures Weight(m, q, key, t) >= 0.0
    ensures Weight(m, q, key, t) > 0.0 <==> Sees(m.shape, q, t)
  {
  }

  /** An output is an average of the values seen. */
  lemma {:induction false} OutputBetween(m: Request, q: nat, keys: seq<Vector>, values: seq<Vector>, dim: nat,
                                         width: nat, c: nat, lo: real, hi: real)
    requires ValidRequest(m, dim) && |keys| == |values| == m.shape.sequence && Uniform(keys, dim)
    requires Uniform(values, width) && q < m.shape.queries && c < width && Sees(m.shape, q, Own(m.shape, q))
    requires forall t :: 0 <= t < |values| && Sees(m.shape, q, t) ==> lo <= values[t][c] <= hi
    ensures var r := Attend(DenseWeights(m, q, keys, dim), values, c, width); r.Some? && lo <= r.value <= hi
  {
    var w := DenseWeights(m, q, keys, dim);
    forall t | 0 <= t < |w|
      ensures w[t] >= 0.0 && (w[t] > 0.0 <==> Sees(m.shape, q, t))
    {
      WeighsExactlyWhen(m, q, keys[t], t);
    }
    SumNonNegative(w, |w|);
    assert w[Own(m.shape, q)] > 0.0;
    hide Sees, DenseWeights;
    AverageBetween(w, values, c, width, lo, hi);
  }

  /** What a query does not see has no influence on its output. */
  lemma {:induction false} UnseenIrrelevant(m: Request, q: nat, keys: seq<Vector>, values: seq<Vector>,
                                            keys': seq<Vector>, values': seq<Vector>, dim: nat, width: nat, c: nat)
    requires ValidRequest(m, dim) && |keys| == |values| == |keys'| == |values'| && Uniform(keys, dim)
    requires Uniform(keys', dim) && Uniform(values, width) && Uniform(values', width)
    requires q < m.shape.queries && c < width
    requires forall t :: 0 <= t < |keys| && Sees(m.shape, q, t) ==> keys[t] == keys'[t] && values[t] == values'[t]
    ensures Attend(DenseWeights(m, q, keys, dim), values, c, width)
         == Attend(DenseWeights(m, q, keys', dim), values', c, width)
  {
    var w, w' := DenseWeights(m, q, keys, dim), DenseWeights(m, q, keys', dim);
    forall t | 0 <= t < |keys|
      ensures w[t] == w'[t] && w[t] * values[t][c] == w'[t] * values'[t][c]
    {
      WeighsExactlyWhen(m, q, keys[t], t);
      WeighsExactlyWhen(m, q, keys'[t], t);
    }
    hide Sees, DenseWeights;
    SumSame(w, w', |w|);
    SumSame(Weighted(w, values, c, width), Weighted(w', values', c, width), |w|);
  }

  lemma {:induction false} WeightUpToFactor(m: Request, m': Request, q: nat, key: Vector, t: int, f: real)
    requires ValidRequest(m, |key|) && ValidRequest(m', |key|) && q < m.shape.queries
    requires m'.(exp := m.exp) == m && forall x :: m'.exp(x) == Times(f, m.exp(x))
    ensures Weight(m', q, key, t) == Times(f, Weight(m, q, key, t))
  {
    assert Score(m', q, key, Distance(m.shape, q, t)) == Score(m, q, key, Distance(m.shape, q, t));
    assert Times(f, 0.0) == 0.0;
  }

  /** Multiplying `exp` by a positive factor, as subtracting the largest score does, leaves the output as it is. */
  lemma {:induction false} ExpUpToFactor(m: Request, m': Request, q: nat, keys: seq<Vector>, values: seq<Vector>,
                                         dim: nat, width: nat, c: nat, f: real)
    requires ValidRequest(m, dim) && ValidRequest(m', dim) && Uniform(keys, dim) && |keys| == |values|
    requires m'.(exp := m.exp) == m && f > 0.0 && forall x :: m'.exp(x) == Times(f, m.exp(x))
    requires Uniform(values, width) && q < m.shape.queries && c < width
    ensures Attend(DenseWeights(m', q, keys, dim), values, c, width)
         == Attend(DenseWeights(m, q, keys, dim), values, c, width)
  {
    hide Weight, Times, Attend;
    var w, w' := DenseWeights(m, q, keys, dim), DenseWeights(m', q, keys, dim);
    forall t | 0 <= t < |keys|
      ensures w'[t] == Times(f, w[t])
    {
      assert w[t] == Weight(m, q, keys[t], t) && w'[t] == Weight(m', q, keys[t], t);
      WeightUpToFactor(m, m', q, keys[t], t, f);
    }
    hide DenseWeights, ValidRequest;
    ScaledWeights(w, w', values, c, width, f);
  }

  // ----- Scores -----

  /** Raising one coordinate of a key raises its score by the query's coordinate, scaled. */
  lemma {:induction false} ScoreAlong(m: Request, q: nat, key: Vector, i: nat, f: real, d: int)
    requires ValidRequest(m, |key|) && q < m.shape.queries && i < |key|
    ensures Score(m, q, key[i := key[i] + f], d) - Score(m, q, key, d) == f * m.queries[q][i] * m.shape.scale
  {
    DotAlong(key, m.queries[q], i, f, |key|);
    DotSwaps(key, m.queries[q], |key|);
    DotSwaps(key[i := key[i] + f], m.queries[q], |key|);
    SumTimes(Dot(m.queries[q], key), f * m.queries[q][i], m.shape.scale);
  }

  lemma {:induction false} SumTimes(x: real, y: real, s: real)
    ensures (x + y) * s == x * s + y * s
  {
  }

  /** A key of zeros scores the learned bias of its distance, and nothing at or beyond the extent. */
  lemma {:induction false} ScoreOfZero(m: Request, q: nat, key: Vector, d: int)
    requires ValidRequest(m, |key|) && q < m.shape.queries && forall i :: 0 <= i < |key| ==> key[i] == 0.0
    ensures 0 <= d < m.shape.extent ==> Score(m, q, key, d) == m.bias[q][d]
    ensures d >= m.shape.extent || d < 0 ==> Score(m, q, key, d) == 0.0
  {
    DotZero(key, m.queries[q], |key|);
    DotSwaps(key, m.queries[q], |key|);
    assert 0.0 * m.shape.scale == 0.0;
  }
}
