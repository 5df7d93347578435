/** Rounding to the nearest integer, and products and quotients of reals one step at a time. */
module Rounding {

  function Abs(x: real): (r: real)
    ensures r >= 0.0 && (r == x || r == -x)
  {
    if x < 0.0 then -x else x
  }

  /** To the nearest integer, ties to even. */
  function RoundHalfEven(x: real): (n: int)
    ensures Abs(x - n as real) <= 0.5
    ensures Abs(x - n as real) == 0.5 ==> n % 2 == 0
  {
    var low := x.Floor;
    var rest := x - low as real;
    if rest < 0.5 then low else if rest > 0.5 then low + 1 else if low % 2 == 0 then low else low + 1
  }

  function Times(a: real, b: real): real {
    a * b
  }

  function Over(a: real, b: real): real
    requires b != 0.0
  {
    a / b
  }

  lemma {:induction false} Scaled(a: real, b: real, u: real)
    requires a <= b && u > 0.0
    ensures Times(a, u) <= Times(b, u)
  {
  }

  lemma {:induction false} StrictlyScaled(a: real, b: real, u: real)
    requires a < b && u > 0.0
    ensures Times(a, u) < Times(b, u)
  {
  }

  lemma {:induction false} Distributes(a: real, b: real, u: real)
    ensures Times(a - b, u) == Times(a, u) - Times(b, u)
    ensures Times(0.5, u) == u / 2.0 && Times(-0.5, u) == -(u / 2.0)
  {
  }

  lemma {:induction false} Divided(x: real, u: real)
    requires u != 0.0
    ensures Times(Over(x, u), u) == x
  {
  }

  lemma {:induction false} Cancelled(a: real, u: real)
    requires u > 0.0
    ensures Over(Times(a, u), u) == a
  {
    hide *;
    var q := Over(Times(a, u), u);
    Divided(Times(a, u), u);
    if q < a {
      StrictlyScaled(q, a, u);
    } else if a < q {
      StrictlyScaled(a, q, u);
    }
  }

  lemma {:induction false} Within(n: real, v: real, u: real)
    requires -0.5 <= n - v <= 0.5 && u > 0.0
    ensures -(u / 2.0) <= Times(n, u) - Times(v, u) <= u / 2.0
  {
    hide *;
    Distributes(n, v, u);
    Scaled(-0.5, n - v, u);
    Scaled(n - v, 0.5, u);
  }

  lemma {:induction false} RoundOfWhole(n: int)
    ensures RoundHalfEven(n as real) == n
  {
  }

  lemma {:induction false} RoundMonotone(a: real, b: real)
    requires a <= b
    ensures RoundHalfEven(a) <= RoundHalfEven(b)
  {
  }

  lemma {:induction false} Quotients(x: real, y: real, u: real)
    requires x <= y && u > 0.0
    ensures Over(x, u) <= Over(y, u)
  {
    hide *;
    Divided(x, u);
    Divided(y, u);
    if Over(y, u) < Over(x, u) {
      StrictlyScaled(Over(y, u), Over(x, u), u);
    }
  }
}
