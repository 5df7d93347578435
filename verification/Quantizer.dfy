/**
 Groupwise 8-bit weights with a BF16 scale, over the reals: what is stored, what it stands for, and how far off.

 BF16 is modelled by its precision, 8 significant bits rounded to nearest with ties to even; the exponent is
 unbounded, since scales are at least 1e-8 and those of BF16 weights cannot overflow.
 */
module Quantizer {
  import opened Rounding

  lemma {:induction false} Halves(x: real)
    requires x >= 1.0
    ensures 0 <= (x / 2.0).Floor < x.Floor
  {
  }

  /** The spacing of BF16 values at `x`: the power of two that puts `x` within 128 and 256 of it. */
  function Ulp(x: real): (u: real)
    requires x > 0.0
    ensures u > 0.0 && 128.0 * u <= x < 256.0 * u
    decreases if x >= 256.0 then x.Floor else if x < 128.0 then (128.0 / x).Floor else 0
  {
    if x >= 256.0 then
      Halves(x);
      2.0 * Ulp(x / 2.0)
    else if x < 128.0 then
      assert 128.0 / (2.0 * x) == (128.0 / x) / 2.0;
      Halves(128.0 / x);
      Ulp(2.0 * x) / 2.0
    else
      1.0
  }

  function Bf16(x: real): real
    requires x > 0.0
  {
    Times(RoundHalfEven(Over(x, Ulp(x))) as real, Ulp(x))
  }

  // ----- BF16 rounding -----

  lemma {:induction false} ScaledWhole(u: real)
    ensures Times(128.0, u) == 128.0 * u && Times(256.0, u) == 256.0 * u
  {
  }

  lemma {:induction false} Quotient(x: real, u: real)
    requires u > 0.0 && 128.0 * u <= x < 256.0 * u
    ensures 128.0 <= Over(x, u) < 256.0
  {
    hide *;
    var v := Over(x, u);
    Divided(x, u);
    ScaledWhole(u);
    if v < 128.0 {
      StrictlyScaled(v, 128.0, u);
    } else if v >= 256.0 {
      Scaled(256.0, v, u);
    }
  }

  /** Rounding does not cross a whole number. */
  lemma {:induction false} NextWhole(v: real, n: int)
    requires 128.0 <= v < 256.0 && -0.5 <= n as real - v <= 0.5
    ensures 128.0 <= n as real <= 256.0
  {
  }

  /** Rounding moves a value by at most half a spacing, so by at most one part in 256. */
  lemma {:induction false} Bf16Close(x: real)
    requires x > 0.0
    ensures -(x / 256.0) <= -(Ulp(x) / 2.0) <= Bf16(x) - x <= Ulp(x) / 2.0 <= x / 256.0
    ensures 128.0 * Ulp(x) <= Bf16(x) <= 256.0 * Ulp(x)
  {
    var u, v := Ulp(x), Over(x, Ulp(x));
    var n := RoundHalfEven(v);
    assert Bf16(x) == Times(n as real, u) && -0.5 <= n as real - v <= 0.5;
    hide *;
    Quotient(x, u);
    NextWhole(v, n);
    Within(n as real, v, u);
    Divided(x, u);
    ScaledWhole(u);
    Scaled(128.0, n as real, u);
    Scaled(n as real, 256.0, u);
  }

  lemma {:induction false} UlpDoubles(x: real)
    requires x > 0.0
    ensures Ulp(2.0 * x) == 2.0 * Ulp(x)
  {
    if x >= 128.0 {
      assert 2.0 * x / 2.0 == x;
    }
  }

  /** The spacing is the same throughout a binade. */
  lemma {:induction false} UlpSame(x: real, y: real)
    requires x > 0.0 && 128.0 * Ulp(x) <= y < 256.0 * Ulp(x)
    ensures Ulp(y) == Ulp(x)
    decreases if x >= 256.0 then x.Floor else if x < 128.0 then (128.0 / x).Floor else 0
  {
    if x >= 256.0 {
      Halves(x);
      UlpSame(x / 2.0, y / 2.0);
      UlpDoubles(y / 2.0);
    } else if x < 128.0 {
      assert 128.0 / (2.0 * x) == (128.0 / x) / 2.0;
      Halves(128.0 / x);
      UlpSame(2.0 * x, 2.0 * y);
      UlpDoubles(y);
    }
  }

  /** Past the end of a binade the spacing has at least doubled. */
  lemma {:induction false} UlpGrows(x: real, y: real)
    requires x > 0.0 && y >= 256.0 * Ulp(x)
    ensures Ulp(y) >= 2.0 * Ulp(x)
    decreases Over(y, 256.0 * Ulp(x)).Floor
  {
    UlpDoubles(x);
    if y < 512.0 * Ulp(x) {
      UlpSame(2.0 * x, y);
    } else {
      HalfQuotient(y, 256.0 * Ulp(x));
      UlpGrows(x, y / 2.0);
      UlpDoubles(y / 2.0);
    }
  }

  lemma {:induction false} HalfQuotient(y: real, d: real)
    requires d > 0.0 && y >= d
    ensures 0 <= Over(y / 2.0, d).Floor < Over(y, d).Floor
  {
    var v := Over(y, d);
    HalfOver(y, d);
    AtLeastOne(y, d);
    hide *;
    Halves(v);
  }

  lemma {:induction false} HalfOver(y: real, d: real)
    requires d > 0.0
    ensures Over(y / 2.0, d) == Over(y, d) / 2.0
  {
  }

  lemma {:induction false} AtLeastOne(y: real, d: real)
    requires d > 0.0 && y >= d
    ensures Over(y, d) >= 1.0
  {
  }

  lemma {:induction false} Bf16Monotone(x: real, y: real)
    requires 0.0 < x <= y
    ensures Bf16(x) <= Bf16(y)
  {
    var u := Ulp(x);
    Bf16Close(x);
    Bf16Close(y);
    hide Over, Times, Ulp, RoundHalfEven;
    if y < 256.0 * u {
      UlpSame(x, y);
      Quotients(x, y, u);
      RoundMonotone(Over(x, u), Over(y, u));
      Scaled(RoundHalfEven(Over(x, u)) as real, RoundHalfEven(Over(y, u)) as real, u);
    } else {
      UlpGrows(x, y);
    }
  }

  /** A whole number of spacings, in the binade of that spacing, rounds to itself. */
  lemma {:induction false} Representable(x: real, n: int)
    requires x > 0.0 && 128 <= n < 256
    ensures Times(n as real, Ulp(x)) > 0.0
    ensures Bf16(Times(n as real, Ulp(x))) == Times(n as real, Ulp(x))
  {
    hide Times, Over, Ulp, RoundHalfEven;
    var u := Ulp(x);
    ScaledWhole(u);
    Scaled(128.0, n as real, u);
    StrictlyScaled(n as real, 256.0, u);
    UlpSame(x, Times(n as real, u));
    Cancelled(n as real, u);
    RoundOfWhole(n);
  }

  /** A BF16 value rounds to itself. */
  lemma {:induction false} Bf16Fixed(x: real)
    requires x > 0.0
    ensures Bf16(x) > 0.0 && Bf16(Bf16(x)) == Bf16(x)
  {
    var u, n := Ulp(x), RoundHalfEven(Over(x, Ulp(x)));
    assert Bf16(x) == Times(n as real, u);
    hide *;
    Bf16Close(x);
    ScaledWhole(u);
    UlpDoubles(x);
    ScaledWhole(2.0 * u);
    if n < 128 {
      StrictlyScaled(n as real, 128.0, u);
    } else if n < 256 {
      Representable(x, n);
    } else {
      Scaled(256.0, n as real, u);
      Representable(2.0 * x, 128);
    }
  }

  // ----- One group -----

  /** The largest magnitude among the first `n` weights. */
  function Amax(group: seq<real>, n: nat): (r: real)
    requires n <= |group|
    ensures r >= 0.0 && forall i :: 0 <= i < n ==> Abs(group[i]) <= r
    ensures n > 0 ==> exists i :: 0 <= i < n && Abs(group[i]) == r
  {
    if n == 0 then 0.0 else
      var below := Amax(group, n - 1);
      if Abs(group[n - 1]) > below then Abs(group[n - 1]) else below
  }

  const TINY: real := 0.00000001

  /** The scale before it is rounded to BF16. */
  function RawScale(group: seq<real>): (x: real)
    ensures x >= TINY
  {
    var x := Amax(group, |group|) / 127.0;
    if x < TINY then TINY else x
  }

  function Scale(group: seq<real>): real {
    Bf16(RawScale(group))
  }

  /** The signed code of a weight. */
  function Code(w: real, scale: real): int
    requires scale > 0.0
  {
    var q := RoundHalfEven(Over(w, scale));
    if q < -127 then -127 else if q > 127 then 127 else q
  }

  /** The byte stored: the code shifted by 128, cast to eight bits. */
  function Byte(code: int): int {
    (code + 128) % 256
  }

  function Dequantized(code: int, scale: real): real {
    Times(code as real, scale)
  }

  lemma {:induction false} ScaleSize(group: seq<real>)
    ensures 255.0 * RawScale(group) <= 256.0 * Scale(group) <= 257.0 * RawScale(group)
  {
    hide Amax, Bf16, RawScale;
    Bf16Close(RawScale(group));
  }

  lemma {:induction false} ByConstant(u: real)
    ensures Times(32512.0 / 255.0, u) == 32512.0 * u / 255.0 && Times(-32512.0 / 255.0, u) == -32512.0 * u / 255.0
    ensures Times(126.5, u) == 126.5 * u && Times(-126.5, u) == -126.5 * u
  {
  }

  /** No weight of a group is beyond 127 * 256 / 255 scales. */
  lemma {:induction false} Covered(group: seq<real>, i: nat)
    requires i < |group|
    ensures Scale(group) > 0.0
    ensures -32512.0 / 255.0 <= Over(group[i], Scale(group)) <= 32512.0 / 255.0
  {
    var s, w := Scale(group), group[i];
    assert -127.0 * RawScale(group) <= w <= 127.0 * RawScale(group);
    hide *;
    ScaleSize(group);
    var v := Over(w, s);
    Divided(w, s);
    ByConstant(s);
    if v > 32512.0 / 255.0 {
      StrictlyScaled(32512.0 / 255.0, v, s);
    } else if v < -32512.0 / 255.0 {
      StrictlyScaled(v, -32512.0 / 255.0, s);
    }
  }

  /** The clamp never bites, the error is at most half a scale, and the stored byte gives the code back. */
  lemma {:induction false} QuantizerBound(group: seq<real>, i: nat)
    requires i < |group|
    ensures Scale(group) > 0.0
    ensures Code(group[i], Scale(group)) == RoundHalfEven(Over(group[i], Scale(group)))
    ensures Abs(group[i] - Dequantized(Code(group[i], Scale(group)), Scale(group))) <= Scale(group) / 2.0
    ensures 1 <= Byte(Code(group[i], Scale(group))) <= 255
    ensures Byte(Code(group[i], Scale(group))) - 128 == Code(group[i], Scale(group))
  {
    hide Scale, Times, Over;
    Covered(group, i);
    var s, w := Scale(group), group[i];
    var q := RoundHalfEven(Over(w, s));
    Divided(w, s);
    Within(q as real, Over(w, s), s);
  }

  /** Unless the scale was raised to its floor, the largest weight gets the extreme code: no code range is wasted. */
  lemma {:induction false} PeakUsesRange(group: seq<real>)
    requires |group| > 0 && Amax(group, |group|) >= 127.0 * TINY
    ensures Scale(group) > 0.0
    ensures exists i :: 0 <= i < |group| && Code(group[i], Scale(group)) in {-127, 127}
  {
    var i :| 0 <= i < |group| && Abs(group[i]) == Amax(group, |group|);
    var s, w, x := Scale(group), group[i], RawScale(group);
    assert w == 127.0 * x || w == -127.0 * x;
    QuantizerBound(group, i);
    Covered(group, i);
    ScaleSize(group);
    var v := Over(w, s);
    var code := Code(w, s);
    assert code == RoundHalfEven(v);
    PeakCode(w, s, x, v);
  }

  lemma {:induction false} PeakCode(w: real, s: real, x: real, v: real)
    requires s > 0.0 && x > 0.0 && 256.0 * s <= 257.0 * x && (w == 127.0 * x || w == -127.0 * x) && v == Over(w, s)
    requires -32512.0 / 255.0 <= v <= 32512.0 / 255.0
    ensures RoundHalfEven(v) in {-127, 127}
  {
    hide Over, Times;
    Divided(w, s);
    ByConstant(s);
    if -126.5 <= v <= 126.5 {
      Scaled(v, 126.5, s);
      Scaled(-126.5, v, s);
    }
  }

  /** A group as it is read back. */
  function ReadBack(group: seq<real>): (r: seq<real>)
    ensures |r| == |group|
  {
    ScalePositive(group);
    seq(|group|, i requires 0 <= i < |group| => Dequantized(Code(group[i], Scale(group)), Scale(group)))
  }

  lemma {:induction false} ScalePositive(group: seq<real>)
    ensures Scale(group) > 0.0
  {
    hide Amax, Bf16;
    ScaleSize(group);
  }

  lemma {:induction false} AmaxBelow(group: seq<real>, m: real)
    requires m >= 0.0 && forall i :: 0 <= i < |group| ==> Abs(group[i]) <= m
    ensures Amax(group, |group|) <= m
  {
  }

  lemma {:induction false} CodeSize(code: int, s: real)
    requires s > 0.0 && -127 <= code <= 127
    ensures Abs(Dequantized(code, s)) <= 127.0 * s
    ensures code in {-127, 127} ==> Abs(Dequantized(code, s)) == 127.0 * s
  {
    Scaled(-127.0, code as real, s);
    Scaled(code as real, 127.0, s);
    ByExtreme(s);
  }

  lemma {:induction false} ByExtreme(u: real)
    ensures Times(127.0, u) == 127.0 * u && Times(-127.0, u) == -127.0 * u
  {
  }

  lemma {:induction false} PeakSurvives(group: seq<real>)
    requires Amax(group, |group|) >= 127.0 * TINY
    ensures Amax(ReadBack(group), |group|) >= 127.0 * Scale(group)
  {
    hide Scale, Code, Times;
    ScalePositive(group);
    PeakUsesRange(group);
    var i :| 0 <= i < |group| && Code(group[i], Scale(group)) in {-127, 127};
    CodeSize(Code(group[i], Scale(group)), Scale(group));
    assert Abs(ReadBack(group)[i]) == 127.0 * Scale(group);
  }

  lemma {:induction false} StableUnderRounding(x: real, s: real, y: real)
    requires x >= TINY && s == Bf16(x) && TINY <= y && (y <= s || y == TINY) && (y >= s || x == TINY)
    ensures Bf16(y) == s
  {
    hide Bf16;
    Bf16Fixed(x);
    Bf16Monotone(TINY, x);
    Bf16Monotone(TINY, y);
    if y <= s {
      Bf16Monotone(y, s);
    }
    if s <= y {
      Bf16Monotone(s, y);
    }
  }

  /** What is read back has the same scale: quantizing it again changes neither scale nor codes. */
  lemma {:induction false} ScaleIsStable(group: seq<real>)
    ensures Scale(ReadBack(group)) == Scale(group)
  {
    var s, x := Scale(group), RawScale(group);
    var r := ReadBack(group);
    ScalePositive(group);
    hide Times, Bf16, Over, RoundHalfEven;
    forall i | 0 <= i < |r|
      ensures Abs(r[i]) <= 127.0 * s
    {
      CodeSize(Code(group[i], s), s);
    }
    AmaxBelow(r, 127.0 * s);
    if Amax(group, |group|) >= 127.0 * TINY {
      PeakSurvives(group);
    }
    hide Amax, Scale;
    StableUnderRounding(x, s, RawScale(r));
  }

  /** So quantizing what was read back gives the same codes, and reading those back the same weights. */
  lemma {:induction false} RequantizingIsIdle(group: seq<real>)
    ensures ReadBack(ReadBack(group)) == ReadBack(group)
  {
    var s, r := Scale(group), ReadBack(group);
    ScalePositive(group);
    ScaleIsStable(group);
    forall i | 0 <= i < |group|
      ensures Code(r[i], s) == Code(group[i], s)
    {
      Recoded(Code(group[i], s), s);
    }
  }

  lemma {:induction false} Recoded(code: int, s: real)
    requires s > 0.0 && -127 <= code <= 127
    ensures Code(Dequantized(code, s), s) == code
  {
    hide Times, Over;
    Cancelled(code as real, s);
    RoundOfWhole(code);
  }
}
