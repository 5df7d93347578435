/** Calibrating a prompt's length in tokens by a bounded number of probes. */
module Calibration {
  import opened Outcomes
  import opened Rounding

  // ----- The prompt -----

  /** The digits of a needle come from a hash; only their place in the prompt matters here. */
  datatype Needles = Needles(opening: string, middle: string, closing: string)

  function Repeated(text: string, n: nat): (r: string)
    ensures |r| == n * |text|
  {
    if n == 0 then "" else
      assert n * |text| == (n - 1) * |text| + |text|;
      Repeated(text, n - 1) + text
  }

  function Opening(n: nat): nat {
    n * 5 / 100
  }

  function Middle(n: nat): nat {
    n * 45 / 100
  }

  /** Filler after the last needle: what the three rounded-down parts leave. */
  function Tail(n: nat): nat {
    n - Opening(n) - Middle(n) - Middle(n)
  }

  /** `build_needle_prompt`, its fixed texts given. */
  function Prompt(intro: string, outro: string, filler: string, needles: Needles, n: nat): string {
    intro + Repeated(filler, Opening(n))
    + "\nNEEDLE opening: " + needles.opening + "\n" + Repeated(filler, Middle(n))
    + "\nNEEDLE middle: " + needles.middle + "\n" + Repeated(filler, Middle(n))
    + "\nNEEDLE closing: " + needles.closing + "\n" + Repeated(filler, Tail(n))
    + outro
  }

  lemma {:induction false} FourParts(a: nat, b: nat, c: nat, d: nat, size: nat)
    ensures a * size + b * size + c * size + d * size == (a + b + c + d) * size
  {
  }

  /** The filler segments add up, so the prompt's length is affine in the number of repetitions. */
  lemma {:induction false} PromptIsAffine(intro: string, outro: string, filler: string, needles: Needles, n: nat)
    ensures Opening(n) + Middle(n) + Middle(n) + Tail(n) == n
    ensures |Prompt(intro, outro, filler, needles, n)| == |Prompt(intro, outro, filler, needles, 0)| + n * |filler|
  {
    FourParts(Opening(n), Middle(n), Middle(n), Tail(n), |filler|);
    FourParts(0, 0, 0, 0, |filler|);
  }

  /** The first needle lies behind a twentieth of the filler, the other two each behind nine twentieths more. */
  lemma {:induction false} NeedlesSpread(n: nat)
    ensures 20 * Opening(n) <= n < 20 * (Opening(n) + 1)
    ensures 20 * Middle(n) <= 9 * n < 20 * (Middle(n) + 1)
    ensures 20 * Tail(n) < n + 60
  {
  }

  // ----- The search -----

  const MAXSIZE: int := 0x7FFF_FFFF_FFFF_FFFF
  const PROBES: nat := 10

  datatype Fault = NoGrowth(baseline: nat, sample: nat) | Missed(error: int) | NothingFound

  datatype Calibrated = Calibrated(repetitions: nat, tokens: nat, error: nat, reported: nat)

  function Distance(a: int, b: int): nat {
    if a < b then b - a else a - b
  }

  /** `adjusted_repetition_count`; none where it raises. */
  function Adjusted(current: int, observed: int, target: int, perRepetition: real): Option<nat> {
    if current < 0 || observed < 0 || target <= 0 || perRepetition <= 0.0 then None
    else
      var delta := RoundHalfEven((target - observed) as real / perRepetition);
      var step := if delta != 0 || observed == target then delta else if observed < target then 1 else -1;
      Some(if current + step < 0 then 0 else current + step)
  }

  /**
   The next probe is defined for sensible numbers only, stays put exactly when the target was met, and otherwise moves
   towards it, to the nearest number of repetitions that the estimate gives or by one if that would be none.
   */
  lemma {:induction false} NextProbe(current: int, observed: int, target: int, perRepetition: real)
    ensures Adjusted(current, observed, target, perRepetition).Some?
       <==> current >= 0 && observed >= 0 && target > 0 && perRepetition > 0.0
    ensures
      var r := Adjusted(current, observed, target, perRepetition);
      r.Some? ==>
        && (observed == target ==> r.value == current) && (observed < target ==> r.value > current)
        && (observed > target ==> r.value < current || r.value == current == 0)
        && var estimate := (target - observed) as real / perRepetition;
           var step := r.value as real - current as real;
           (r.value > 0 ==> Abs(step - estimate) <= 0.5 || (Abs(estimate) <= 0.5 && step in {1.0, -1.0}))
  {
    if perRepetition > 0.0 {
      SameSign(target - observed, perRepetition);
    }
  }

  lemma {:induction false} SameSign(d: int, per: real)
    requires per > 0.0
    ensures d > 0 ==> d as real / per > 0.0
    ensures d < 0 ==> d as real / per < 0.0
    ensures d == 0 ==> d as real / per == 0.0
  {
    var q := Over(d as real, per);
    Divided(d as real, per);
    if d > 0 && q <= 0.0 {
      Scaled(q, 0.0, per);
    } else if d < 0 && q >= 0.0 {
      Scaled(0.0, q, per);
    }
  }

  /** Filler that costs the same number of tokens every time. */
  ghost predicate Affine(count: nat -> nat, k: int) {
    forall n: nat :: count(n) == count(0) + k * n
  }

  function FirstProbe(baseline: int, target: int, perRepetition: real): nat
    requires perRepetition > 0.0
  {
    var guess := RoundHalfEven((target - baseline) as real / perRepetition);
    if guess < 0 then 0 else guess
  }

  lemma {:induction false} NearestMultiple(d: int, k: int, r: int)
    requires k > 0 && r == RoundHalfEven(d as real / k as real)
    ensures -k <= 2 * (k * r - d) <= k
  {
    var x := Over(d as real, k as real);
    assert -0.5 <= r as real - x <= 0.5;
    hide *;
    Within(r as real, x, k as real);
    Divided(d as real, k as real);
    WholeProduct(k, r);
  }

  lemma {:induction false} WholeProduct(k: int, r: int)
    ensures Times(r as real, k as real) == (k * r) as real
  {
  }

  lemma {:induction false} OtherMultiples(k: int, r: int, n: int)
    requires k > 0
    ensures n > r ==> k * n >= k * r + k
    ensures n < r ==> k * n <= k * r - k
  {
    if n > r {
      Larger(k, r + 1, n);
    } else if n < r {
      Larger(k, n, r - 1);
    }
  }

  lemma {:induction false} Larger(k: int, a: int, b: int)
    requires k > 0 && a <= b
    ensures k * a <= k * b
  {
  }

  /** With filler of constant cost, no number of repetitions comes closer than the first probe. */
  lemma {:induction false} FirstProbeIsBest(count: nat -> nat, k: int, target: int, n: nat)
    requires Affine(count, k) && k > 0
    ensures Distance(count(FirstProbe(count(0), target, k as real)), target) <= Distance(count(n), target)
  {
    var d := target - count(0);
    var r := RoundHalfEven(d as real / k as real);
    NearestMultiple(d, k, r);
    var first := FirstProbe(count(0), target, k as real);
    assert count(first) == count(0) + k * first && count(n) == count(0) + k * n;
    hide *;
    OtherMultiples(k, r, n);
    OtherMultiples(k, r, 0);
    OtherMultiples(k, 0, n);
  }

  /** From the baseline on, the first probe is at most half a repetition's tokens away. */
  lemma {:induction false} FirstProbeWithinHalf(count: nat -> nat, k: int, target: int)
    requires Affine(count, k) && k > 0 && target >= count(0)
    ensures 2 * Distance(count(FirstProbe(count(0), target, k as real)), target) <= k
  {
    var d := target - count(0);
    var r := RoundHalfEven(d as real / k as real);
    NearestMultiple(d, k, r);
    var first := FirstProbe(count(0), target, k as real);
    assert count(first) == count(0) + k * first;
    hide *;
    OtherMultiples(k, 0, r);
  }

  predicate Distinct(probes: seq<nat>) {
    forall i, j :: 0 <= i < j < |probes| ==> probes[i] != probes[j]
  }

  /** A probe that is closer to the target than all before it. */
  ghost predicate EarliestBest(count: nat -> nat, target: int, probes: seq<nat>, n: nat) {
    exists b :: 0 <= b < |probes| && probes[b] == n && Ahead(count, target, probes, b, Distance(count(n), target))
  }

  ghost predicate Ahead(count: nat -> nat, target: int, probes: seq<nat>, b: int, error: int) {
    forall i :: 0 <= i < b && i < |probes| ==> error < Distance(count(probes[i]), target)
  }

  /** The best of the probes so far: none of them is closer. */
  ghost predicate Best(count: nat -> nat, target: int, probes: seq<nat>, best: Option<nat>, error: int) {
    && (best.None? ==> error == MAXSIZE)
    && (best.Some? ==>
          error == Distance(count(best.value), target) < MAXSIZE && EarliestBest(count, target, probes, best.value))
    && (forall i :: 0 <= i < |probes| ==> error <= Distance(count(probes[i]), target))
  }

  /** The first repetitions observed to give a token count, the two baseline observations included. */
  function Reported(count: nat -> nat, observed: seq<nat>, tokens: nat, i: nat): (r: Option<nat>)
    requires i <= |observed|
    ensures r.Some? ==> count(r.value) == tokens
    ensures r.None? ==> forall j :: i <= j < |observed| ==> count(observed[j]) != tokens
    decreases |observed| - i
  {
    if i == |observed| then None
    else if count(observed[i]) == tokens then Some(observed[i])
    else Reported(count, observed, tokens, i + 1)
  }

  /** A number of repetitions the search would return. */
  predicate Reaches(count: nat -> nat, target: int, tolerance: int, n: nat) {
    Distance(count(n), target) <= tolerance && Distance(count(n), target) < MAXSIZE
  }

  function Next(count: nat -> nat, target: int, perRepetition: real, n: nat): Option<nat> {
    Adjusted(n, count(n), target, perRepetition)
  }

  /** Each probe is the adjustment of the one before. */
  ghost predicate Chained(count: nat -> nat, target: int, perRepetition: real, probes: seq<nat>) {
    forall i :: 0 < i < |probes| ==> Next(count, target, perRepetition, probes[i - 1]) == Some(probes[i])
  }

  /** The last probe is within the tolerance, or the tenth, or would be followed by one made before. */
  ghost predicate Ended(count: nat -> nat, target: int, tolerance: int, perRepetition: real, probes: seq<nat>) {
    && probes != []
    && var last := probes[|probes| - 1];
    && (forall i :: 0 <= i < |probes| - 1 ==> Distance(count(probes[i]), target) > tolerance)
    && (|probes| == 10 || Distance(count(last), target) <= tolerance
        || exists n :: n in probes && Next(count, target, perRepetition, last) == Some(n))
  }

  /** The loop: at most ten probes, none twice, up to the first within the tolerance. */
  method Search(count: nat -> nat, target: int, tolerance: int, perRepetition: real, start: nat)
    returns (best: Option<nat>, error: int, probes: seq<nat>)
    requires target > 0 && perRepetition > 0.0
    ensures 0 < |probes| <= PROBES && probes[0] == start && Distinct(probes) && Best(count, target, probes, best, error)
    ensures Distance(count(start), target) <= tolerance ==> probes == [start]
    ensures Chained(count, target, perRepetition, probes) && Ended(count, target, tolerance, perRepetition, probes)
  {
    hide Adjusted, EarliestBest;
    var repetitions := start;
    var seen: set<nat> := {};
    best, error, probes := None, MAXSIZE, [];
    while |probes| < PROBES && repetitions !in seen
      invariant |probes| <= PROBES && Distinct(probes) && Best(count, target, probes, best, error)
      invariant forall p :: p in seen <==> p in probes
      invariant if probes == [] then repetitions == start
                else probes[0] == start && Distance(count(start), target) > tolerance
      invariant Chained(count, target, perRepetition, probes)
      invariant forall i :: 0 <= i < |probes| ==> Distance(count(probes[i]), target) > tolerance
      invariant probes != [] ==> Next(count, target, perRepetition, probes[|probes| - 1]) == Some(repetitions)
      decreases PROBES - |probes|
    {
      seen := seen + {repetitions};
      var tokens := count(repetitions);
      ghost var before := probes;
      probes := probes + [repetitions];
      var miss := Distance(tokens, target);
      if miss < error {
        best, error := Some(repetitions), miss;
      }
      BestNext(count, target, before, repetitions, best, error);
      if miss <= tolerance {
        return;
      }
      NextProbe(repetitions, tokens, target, perRepetition);
      repetitions := Adjusted(repetitions, tokens, target, perRepetition).value;
    }
  }

  lemma {:induction false} BestStays(count: nat -> nat, target: int, before: seq<nat>, n: nat, best: nat)
    requires EarliestBest(count, target, before, best)
    ensures EarliestBest(count, target, before + [n], best)
  {
    var b :| 0 <= b < |before| && before[b] == best && Ahead(count, target, before, b, Distance(count(best), target));
    assert (before + [n])[b] == best;
    assert Ahead(count, target, before + [n], b, Distance(count(best), target));
  }

  lemma {:induction false} NewBest(count: nat -> nat, target: int, before: seq<nat>, n: nat)
    requires forall i :: 0 <= i < |before| ==> Distance(count(n), target) < Distance(count(before[i]), target)
    ensures EarliestBest(count, target, before + [n], n)
  {
    assert (before + [n])[|before|] == n;
    assert Ahead(count, target, before + [n], |before|, Distance(count(n), target));
  }

  /** The first observation from `i` on with a count is `b`, if none from `i` to `b` has it. */
  lemma {:induction false} ReportedAt(count: nat -> nat, observed: seq<nat>, tokens: nat, i: nat, b: nat)
    requires i <= b < |observed| && count(observed[b]) == tokens
    requires forall j :: i <= j < b ==> count(observed[j]) != tokens
    ensures Reported(count, observed, tokens, i) == Some(observed[b])
    decreases b - i
  {
    if i < b {
      ReportedAt(count, observed, tokens, i + 1, b);
    }
  }

  /** What is reported is the returned number of repetitions unless a baseline observation has the same count. */
  lemma {:induction false} ReportedExactlyWhen(count: nat -> nat, target: int, probes: seq<nat>, best: nat)
    requires EarliestBest(count, target, probes, best)
    ensures var tokens, r := count(best), Reported(count, [0, 32] + probes, count(best), 0);
            r.Some? && (r.value == best <==>
              (count(0) == tokens ==> best == 0) && (count(0) != tokens && count(32) == tokens ==> best == 32))
  {
    var tokens, observed: seq<nat> := count(best), [0, 32] + probes;
    if count(0) == tokens {
      ReportedAt(count, observed, tokens, 0, 0);
    } else if count(32) == tokens {
      ReportedAt(count, observed, tokens, 0, 1);
    } else {
      var b :| 0 <= b < |probes| && probes[b] == best && Ahead(count, target, probes, b, Distance(tokens, target));
      assert forall j :: 2 <= j < b + 2 ==> observed[j] == probes[j - 2];
      ReportedAt(count, observed, tokens, 0, b + 2);
    }
  }

  lemma {:induction false} BestNext(count: nat -> nat, target: int, before: seq<nat>, n: nat, best: Option<nat>,
                                    error: int)
    requires var miss := Distance(count(n), target);
             exists b, e :: Best(count, target, before, b, e)
                            && best == (if miss < e then Some(n) else b) && error == (if miss < e then miss else e)
    ensures Best(count, target, before + [n], best, error)
  {
    var miss := Distance(count(n), target);
    var b, e :| Best(count, target, before, b, e)
                && best == (if miss < e then Some(n) else b) && error == (if miss < e then miss else e);
    if miss < e {
      NewBest(count, target, before, n);
    } else if b.Some? {
      BestStays(count, target, before, n, b.value);
    }
    hide EarliestBest;
  }

  /** Before any search: if no other number of repetitions has the count of 0 or of 32, the report is always right. */
  ghost predicate BaselinesApart(count: nat -> nat) {
    && (forall n: nat :: count(n) == count(0) ==> n == 0)
    && (forall n: nat :: count(n) == count(32) ==> n == 32)
  }

  /** `_calibrate_prompt`. */
  method Calibrate(count: nat -> nat, target: int, tolerance: int)
    returns (r: Result<Calibrated, Fault>, probes: seq<nat>)
    requires target > 0
    ensures |probes| <= PROBES && Distinct(probes)
    ensures count(32) > count(0) ==>
              var per := (count(32) - count(0)) as real / 32.0;
              Chained(count, target, per, probes) && Ended(count, target, tolerance, per, probes)
    ensures r.Ok? ==>
              && r.value.repetitions in probes && r.value.tokens == count(r.value.repetitions)
              && r.value.error == Distance(r.value.tokens, target) <= tolerance
              && (forall p :: p in probes ==> r.value.error <= Distance(count(p), target))
              && count(r.value.reported) == r.value.tokens
              && (r.value.reported == r.value.repetitions <==>
                    (count(0) == r.value.tokens ==> r.value.repetitions == 0)
                    && (count(32) == r.value.tokens ==> r.value.repetitions == 32))
              && (BaselinesApart(count) ==> r.value.reported == r.value.repetitions)
              && Reported(count, [0, 32] + probes, r.value.tokens, 0) == Some(r.value.reported)
    ensures r.Err? ==> forall p :: p in probes ==> !Reaches(count, target, tolerance, p)
    ensures r == Err(NoGrowth(count(0), count(32))) || probes != []
    ensures (r.Err? && r.error.NoGrowth?) <==> count(32) <= count(0)
    ensures count(32) > count(0) ==>
              var start := FirstProbe(count(0), target, (count(32) - count(0)) as real / 32.0);
              Distance(count(start), target) <= tolerance ==> probes == [start]
    ensures forall k :: k > 0 && Affine(count, k) ==>
              && (r.Ok? <==> exists n: nat :: Reaches(count, target, tolerance, n))
              && (r.Ok? ==> |probes| == 1 && r.value.reported == r.value.repetitions)
              && (target >= count(0) && k <= 2 * tolerance && k < MAXSIZE ==> r.Ok?)
  {
    var baseline: int, sample: int := count(0), count(32);
    var perRepetition := (sample - baseline) as real / 32.0;
    probes := [];
    if perRepetition <= 0.0 {
      return Err(NoGrowth(baseline, sample)), probes;
    }
    var start := FirstProbe(baseline, target, perRepetition);
    var best, error;
    best, error, probes := Search(count, target, tolerance, perRepetition, start);
    if error > tolerance {
      r := Err(Missed(error));
    } else if best.None? {
      r := Err(NothingFound);
    } else {
      ReportedExactlyWhen(count, target, probes, best.value);
      var reported := Reported(count, [0, 32] + probes, count(best.value), 0);
      r := Ok(Calibrated(best.value, count(best.value), error, reported.value));
    }
    forall k | k > 0 && Affine(count, k)
      ensures r.Ok? <==> exists n: nat :: Reaches(count, target, tolerance, n)
      ensures r.Ok? ==> |probes| == 1 && r.value.reported == r.value.repetitions
      ensures target >= count(0) && k <= 2 * tolerance && k < MAXSIZE ==> r.Ok?
    {
      if target >= count(0) && k <= 2 * tolerance && k < MAXSIZE {
        FirstProbeWithinHalf(count, k, target);
        assert Reaches(count, target, tolerance, start);
      }
      if r.Ok? {
        CountsDiffer(count, k, r.value.reported, r.value.repetitions);
      }
      assert perRepetition == k as real;
      Complete(count, k, target, tolerance, probes, best, error);
    }
  }

  /** A plateau of the tokenizer. */
  function Plateau(n: nat): nat {
    if n == 0 then 0 else 100
  }

  /** On it, the prompt of 31 repetitions is returned, and 32 are reported. */
  method ReportedElsewhere(tolerance: nat) returns (r: Result<Calibrated, Fault>, probes: seq<nat>)
    requires tolerance >= 2
    ensures r == Ok(Calibrated(31, 100, 2, 32)) && probes == [31]
  {
    r, probes := Calibrate(Plateau, 98, tolerance);
    assert FirstProbe(0, 98, 100.0 / 32.0) == 31 && Distance(Plateau(31), 98) == 2;
    assert 31 in probes && Reaches(Plateau, 98, tolerance, 31);
    assert [0, 32] + probes == [0, 32, 31] && [0, 32, 31][1] == 32;
    ReportedAt(Plateau, [0, 32, 31], 100, 0, 1);
  }

  lemma {:induction false} CountsDiffer(count: nat -> nat, k: int, a: nat, b: nat)
    requires k > 0 && Affine(count, k) && count(a) == count(b)
    ensures a == b
  {
    assert count(a) == count(0) + k * a && count(b) == count(0) + k * b;
    hide *;
    OtherMultiples(k, a, b);
  }

  lemma {:induction false} Complete(count: nat -> nat, k: int, target: int, tolerance: int, probes: seq<nat>,
                                    best: Option<nat>, error: int)
    requires k > 0 && Affine(count, k) && Best(count, target, probes, best, error)
    requires probes != [] && probes[0] == FirstProbe(count(0), target, k as real)
    ensures (best.Some? && error <= tolerance) <==> exists n: nat :: Reaches(count, target, tolerance, n)
    ensures best.Some? && error <= tolerance ==> Distance(count(probes[0]), target) <= tolerance
  {
    forall n: nat
      ensures Distance(count(probes[0]), target) <= Distance(count(n), target)
    {
      FirstProbeIsBest(count, k, target, n);
    }
    hide Affine, FirstProbe;
    if best.Some? && error <= tolerance {
      assert Reaches(count, target, tolerance, best.value);
    }
  }
}
