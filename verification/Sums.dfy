/** Finite sums over the reals: what attention and the sharded layers need of them. */
module Sums {

  type Vector = seq<real>

  function DotTo(a: Vector, b: Vector, n: nat): real
    requires n <= |a| && n <= |b|
  {
    if n == 0 then 0.0 else DotTo(a, b, n - 1) + a[n - 1] * b[n - 1]
  }

  function Dot(a: Vector, b: Vector): real
    requires |a| == |b|
  {
    DotTo(a, b, |a|)
  }

  /** Raising one coordinate raises the product by as much of the other side's. */
  lemma {:induction false} DotAlong(a: Vector, b: Vector, i: nat, f: real, n: nat)
    requires |a| == |b| && i < |a| && n <= |a|
    ensures DotTo(a[i := a[i] + f], b, n) == DotTo(a, b, n) + (if i < n then f * b[i] else 0.0)
  {
    if n > 0 {
      DotAlong(a, b, i, f, n - 1);
      if i == n - 1 {
        assert (a[i] + f) * b[i] == a[i] * b[i] + f * b[i];
      }
    }
  }

  lemma {:induction false} DotZero(a: Vector, b: Vector, n: nat)
    requires |a| == |b| && n <= |a| && forall i :: 0 <= i < n ==> a[i] == 0.0
    ensures DotTo(a, b, n) == 0.0
  {
    if n > 0 {
      DotZero(a, b, n - 1);
    }
  }

  lemma {:induction false} DotSwaps(a: Vector, b: Vector, n: nat)
    requires n <= |a| && n <= |b|
    ensures DotTo(a, b, n) == DotTo(b, a, n)
  {
    if n > 0 {
      DotSwaps(a, b, n - 1);
    }
  }

  /** Rows all of one length. */
  predicate Uniform(vectors: seq<Vector>, dim: nat) {
    forall t :: 0 <= t < |vectors| ==> |vectors[t]| == dim
  }

  /** The first `n` terms. */
  function Sum(s: seq<real>, n: nat): real
    requires n <= |s|
  {
    if n == 0 then 0.0 else Sum(s, n - 1) + s[n - 1]
  }

  function Total(s: seq<real>): real {
    Sum(s, |s|)
  }

  lemma {:induction false} SumSame(a: seq<real>, b: seq<real>, n: nat)
    requires n <= |a| && n <= |b| && forall i :: 0 <= i < n ==> a[i] == b[i]
    ensures Sum(a, n) == Sum(b, n)
  {
    if n > 0 {
      SumSame(a, b, n - 1);
    }
  }

  lemma {:induction false} SumOfZeros(s: seq<real>, n: nat)
    requires n <= |s| && forall i :: 0 <= i < n ==> s[i] == 0.0
    ensures Sum(s, n) == 0.0
  {
    if n > 0 {
      SumOfZeros(s, n - 1);
    }
  }

  lemma {:induction false} SumUpdate(s: seq<real>, n: nat, i: nat, v: real)
    requires n <= |s| && i < |s|
    ensures Sum(s[i := v], n) == Sum(s, n) + (if i < n then v - s[i] else 0.0)
  {
    if n > 0 {
      SumUpdate(s, n - 1, i, v);
    }
  }

  /** Leading zeros do not count. */
  lemma {:induction false} SumSkipsZeros(s: seq<real>, lo: nat, n: nat)
    requires lo <= n <= |s| && forall i :: 0 <= i < lo ==> s[i] == 0.0
    ensures Sum(s, n) == Sum(s[lo..], n - lo)
    decreases n
  {
    if n == lo {
      SumOfZeros(s, lo);
    } else {
      SumSkipsZeros(s, lo, n - 1);
    }
  }

  /** Trailing zeros do not count. */
  lemma {:induction false} SumStopsAtZeros(s: seq<real>, n: nat, m: nat)
    requires n <= m <= |s| && forall i :: n <= i < m ==> s[i] == 0.0
    ensures Sum(s, m) == Sum(s, n)
    decreases m
  {
    if n < m {
      SumStopsAtZeros(s, n, m - 1);
    }
  }

  lemma {:induction false} SumNonNegative(s: seq<real>, n: nat)
    requires n <= |s| && forall i :: 0 <= i < n ==> s[i] >= 0.0
    ensures Sum(s, n) >= 0.0
    ensures forall i :: 0 <= i < n ==> Sum(s, n) >= s[i]
  {
    if n > 0 {
      SumNonNegative(s, n - 1);
    }
  }

  predicate Injective(phi: seq<nat>) {
    forall i, j :: 0 <= i < j < |phi| ==> phi[i] != phi[j]
  }

  /** The terms of `s` at the places `phi`, in that order. */
  function Gather(s: seq<real>, phi: seq<nat>): (g: seq<real>)
    requires forall i :: 0 <= i < |phi| ==> phi[i] < |s|
    ensures |g| == |phi| && forall i :: 0 <= i < |phi| ==> g[i] == s[phi[i]]
  {
    seq(|phi|, i requires 0 <= i < |phi| => s[phi[i]])
  }

  /** A sum whose terms vanish off the image of an injection is the sum along the injection. */
  lemma {:induction false} SumAlong(s: seq<real>, phi: seq<nat>)
    requires Injective(phi) && forall i :: 0 <= i < |phi| ==> phi[i] < |s|
    requires forall p :: 0 <= p < |s| && p !in phi ==> s[p] == 0.0
    ensures Total(s) == Total(Gather(s, phi))
    decreases |phi|
  {
    if |phi| == 0 {
      SumOfZeros(s, |s|);
    } else {
      var m := |phi| - 1;
      var front, last := phi[..m], phi[m];
      var s' := s[last := 0.0];
      assert phi == front + [last];
      SumUpdate(s, |s|, last, 0.0);
      SumAlong(s', front);
      SumSame(Gather(s', front), Gather(s, phi), m);
    }
  }

  lemma {:induction false} Multiplied(a: nat, b: nat, c: nat)
    requires a <= b
    ensures a * c <= b * c
  {
  }
}
