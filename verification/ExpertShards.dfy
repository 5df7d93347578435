/**
 Gated expert layers cut into tensor-parallel shards, over the reals.  `silu` is any function.
 */
module ExpertShards {
  import opened Rounding
  import opened Sums

  type Matrix = seq<Vector>

  /** Where gate and up rows lie in `w13`: in two halves, or in turns. */
  datatype Layout = Halves | Interleaved

  datatype Expert = Expert(w13: Matrix, w2: Matrix)

  datatype Net = Net(silu: real -> real, layout: Layout, hidden: nat)

  predicate ValidExpert(net: Net, e: Expert, width: nat) {
    && |e.w13| == 2 * width && Uniform(e.w13, net.hidden)
    && |e.w2| == net.hidden && Uniform(e.w2, width)
  }

  function GateRow(layout: Layout, k: nat): nat {
    if layout.Halves? then k else 2 * k
  }

  function UpRow(layout: Layout, width: nat, k: nat): nat {
    if layout.Halves? then width + k else 2 * k + 1
  }

  /** One activated intermediate value. */
  function Unit(net: Net, e: Expert, width: nat, x: Vector, k: nat): real
    requires ValidExpert(net, e, width) && |x| == net.hidden && k < width
  {
    net.silu(Dot(e.w13[GateRow(net.layout, k)], x)) * Dot(e.w13[UpRow(net.layout, width, k)], x)
  }

  function Activated(net: Net, e: Expert, width: nat, x: Vector): (a: Vector)
    requires ValidExpert(net, e, width) && |x| == net.hidden
    ensures |a| == width
  {
    seq(width, k requires 0 <= k < width => Unit(net, e, width, x, k))
  }

  /** A coordinate of an expert's output. */
  function Output(net: Net, e: Expert, width: nat, x: Vector, d: nat): real
    requires ValidExpert(net, e, width) && |x| == net.hidden && d < net.hidden
  {
    Dot(e.w2[d], Activated(net, e, width, x))
  }

  // ----- What gate and up rows do -----

  /** Where the up row of unit `k` lies: in the second half, or behind its gate row. */
  function UpAt(layout: Layout, width: nat, k: nat): nat {
    match layout
    case Halves => width + k
    case Interleaved => 2 * k + 1
  }

  /** Raising a coordinate of the up row raises the unit by the input's coordinate, times the activated gate. */
  lemma {:induction false} UnitAlong(net: Net, e: Expert, width: nat, x: Vector, k: nat, i: nat, f: real)
    requires ValidExpert(net, e, width) && |x| == net.hidden && k < width && i < net.hidden
    ensures UpAt(net.layout, width, k) < |e.w13| && |e.w13[UpAt(net.layout, width, k)]| == net.hidden
    ensures
      var row := e.w13[UpAt(net.layout, width, k)];
      var e' := e.(w13 := e.w13[UpAt(net.layout, width, k) := row[i := row[i] + f]]);
      && ValidExpert(net, e', width)
      && Unit(net, e', width, x, k) - Unit(net, e, width, x, k)
         == net.silu(Dot(e.w13[if net.layout.Halves? then k else 2 * k], x)) * (f * x[i])
  {
    var row := e.w13[UpAt(net.layout, width, k)];
    DotAlong(row, x, i, f, net.hidden);
    Spread(net.silu(Dot(e.w13[GateRow(net.layout, k)], x)), Dot(row, x), f * x[i]);
  }

  lemma {:induction false} Spread(s: real, x: real, y: real)
    ensures s * (x + y) - s * x == s * y
  {
  }

  /** An up row of zeros gives nothing, whatever the gate. */
  lemma {:induction false} NoUpNoUnit(net: Net, e: Expert, width: nat, x: Vector, k: nat)
    requires ValidExpert(net, e, width) && |x| == net.hidden && k < width
    requires forall i :: 0 <= i < net.hidden ==> e.w13[UpAt(net.layout, width, k)][i] == 0.0
    ensures Unit(net, e, width, x, k) == 0.0
  {
    DotZero(e.w13[UpAt(net.layout, width, k)], x, net.hidden);
    assert net.silu(Dot(e.w13[GateRow(net.layout, k)], x)) * 0.0 == 0.0;
  }

  // ----- Shards -----

  function Local(width: nat, world: nat): nat
    requires world > 0
  {
    width / world
  }

  function Start(width: nat, world: nat, rank: nat): nat
    requires world > 0
  {
    rank * Local(width, world)
  }

  lemma {:induction false} ShardFits(width: nat, world: nat, rank: nat)
    requires rank < world
    ensures Start(width, world, rank) + Local(width, world) == Start(width, world, rank + 1) <= width
  {
    var local := Local(width, world);
    assert width == world * local + width % world;
    Multiplied(rank + 1, world, local);
  }

  function Columns(m: Matrix, lo: nat, hi: nat, width: nat): (r: Matrix)
    requires Uniform(m, width) && lo <= hi <= width
    ensures |r| == |m| && Uniform(r, hi - lo)
  {
    seq(|m|, d requires 0 <= d < |m| => m[d][lo..hi])
  }

  /** The part of an expert that one rank holds. */
  function Shard(net: Net, e: Expert, width: nat, world: nat, rank: nat): (s: Expert)
    requires ValidExpert(net, e, width) && rank < world
    ensures ValidExpert(net, s, Local(width, world))
  {
    ShardFits(width, world, rank);
    var start, stop := Start(width, world, rank), Start(width, world, rank + 1);
    Expert(if net.layout.Halves? then e.w13[start..stop] + e.w13[width + start..width + stop]
           else e.w13[2 * start..2 * stop],
           Columns(e.w2, start, stop, width))
  }

  lemma {:induction false} HalvesCut<T>(rows: seq<T>, width: nat, start: nat, stop: nat, k: nat)
    requires |rows| == 2 * width && start <= stop <= width && k < stop - start
    ensures (rows[start..stop] + rows[width + start..width + stop])[k] == rows[start + k]
    ensures (rows[start..stop] + rows[width + start..width + stop])[stop - start + k] == rows[width + start + k]
  {
  }

  /** A rank's gate and up rows are the whole expert's at the rank's offset. */
  lemma {:induction false} RowsOfShard(net: Net, e: Expert, width: nat, world: nat, rank: nat, k: nat)
    requires ValidExpert(net, e, width) && rank < world && k < Local(width, world)
    ensures Start(width, world, rank) + k < width
    ensures Shard(net, e, width, world, rank).w13[GateRow(net.layout, k)]
         == e.w13[GateRow(net.layout, Start(width, world, rank) + k)]
    ensures Shard(net, e, width, world, rank).w13[UpRow(net.layout, Local(width, world), k)]
         == e.w13[UpRow(net.layout, width, Start(width, world, rank) + k)]
  {
    hide Start, Local, Uniform, Columns;
    ShardFits(width, world, rank);
    var start, stop := Start(width, world, rank), Start(width, world, rank + 1);
    if net.layout.Halves? {
      HalvesCut(e.w13, width, start, stop, k);
    }
  }

  /** A rank's unit is the whole expert's unit at its offset. */
  lemma {:induction false} UnitOfShard(net: Net, e: Expert, width: nat, world: nat, rank: nat, x: Vector, k: nat)
    requires ValidExpert(net, e, width) && |x| == net.hidden && rank < world && k < Local(width, world)
    ensures Start(width, world, rank) + k < width
    ensures Unit(net, Shard(net, e, width, world, rank), Local(width, world), x, k)
         == Unit(net, e, width, x, Start(width, world, rank) + k)
  {
    RowsOfShard(net, e, width, world, rank, k);
    hide Start, Local, Uniform, Dot, Shard, GateRow, UpRow;
  }

  /** A dot product over a stretch is the difference of two prefixes. */
  lemma {:induction false} DotOfStretch(a: Vector, b: Vector, lo: nat, part: Vector, local: Vector, n: nat)
    requires |a| == |b| && lo + n <= |a| && n <= |part| && n <= |local|
    requires forall k :: 0 <= k < n ==> part[k] == a[lo + k] && local[k] == b[lo + k]
    ensures DotTo(part, local, n) == DotTo(a, b, lo + n) - DotTo(a, b, lo)
  {
    if n > 0 {
      DotOfStretch(a, b, lo, part, local, n - 1);
    }
  }

  /** A rank's columns and activated values are the whole expert's at the rank's offset. */
  lemma {:induction false} StretchOfShard(net: Net, e: Expert, width: nat, world: nat, rank: nat, x: Vector, d: nat)
    requires ValidExpert(net, e, width) && |x| == net.hidden && rank < world && d < net.hidden
    ensures Start(width, world, rank) + Local(width, world) == Start(width, world, rank + 1) <= width
    ensures var shard, local, lo := Shard(net, e, width, world, rank), Local(width, world), Start(width, world, rank);
            && |shard.w2[d]| == local
            && forall k :: 0 <= k < local ==>
                 && shard.w2[d][k] == e.w2[d][lo + k]
                 && Activated(net, shard, local, x)[k] == Activated(net, e, width, x)[lo + k]
  {
    hide Start, Local, Unit, GateRow, UpRow;
    ShardFits(width, world, rank);
    var shard, local, lo := Shard(net, e, width, world, rank), Local(width, world), Start(width, world, rank);
    forall k | 0 <= k < local
      ensures Activated(net, shard, local, x)[k] == Activated(net, e, width, x)[lo + k]
    {
      UnitOfShard(net, e, width, world, rank, x, k);
    }
  }

  lemma {:induction false} OutputIsDot(net: Net, e: Expert, width: nat, x: Vector, d: nat)
    requires ValidExpert(net, e, width) && |x| == net.hidden && d < net.hidden
    ensures |e.w2[d]| == |Activated(net, e, width, x)| == width
    ensures Output(net, e, width, x, d) == DotTo(e.w2[d], Activated(net, e, width, x), width)
  {
  }

  /** A rank's output is the stretch of the whole expert's dot product that its columns make up. */
  lemma {:induction false} OutputOfShard(net: Net, e: Expert, width: nat, world: nat, rank: nat, x: Vector, d: nat)
    requires ValidExpert(net, e, width) && |x| == net.hidden && rank < world && d < net.hidden
    ensures Start(width, world, rank) <= Start(width, world, rank + 1) <= width
    ensures Output(net, Shard(net, e, width, world, rank), Local(width, world), x, d)
         == DotTo(e.w2[d], Activated(net, e, width, x), Start(width, world, rank + 1))
            - DotTo(e.w2[d], Activated(net, e, width, x), Start(width, world, rank))
  {
    hide Start, Local, Activated, Shard, Uniform, DotTo, Output, Unit;
    StretchOfShard(net, e, width, world, rank, x, d);
    OutputIsDot(net, e, width, x, d);
    OutputIsDot(net, Shard(net, e, width, world, rank), Local(width, world), x, d);
    var shard, local, lo := Shard(net, e, width, world, rank), Local(width, world), Start(width, world, rank);
    DotOfStretch(e.w2[d], Activated(net, e, width, x), lo, shard.w2[d], Activated(net, shard, local, x), local);
  }

  /** The sum of the first `n` ranks' outputs. */
  function Reduced(net: Net, e: Expert, width: nat, world: nat, x: Vector, d: nat, n: nat): real
    requires ValidExpert(net, e, width) && |x| == net.hidden && d < net.hidden && n <= world
  {
    if n == 0 then 0.0 else
      Reduced(net, e, width, world, x, d, n - 1)
      + Output(net, Shard(net, e, width, world, n - 1), Local(width, world), x, d)
  }

  lemma {:induction false} ReducedIsPrefix(net: Net, e: Expert, width: nat, world: nat, x: Vector, d: nat, n: nat)
    requires ValidExpert(net, e, width) && |x| == net.hidden && d < net.hidden && n <= world && world > 0
    ensures Start(width, world, n) <= width
    ensures Reduced(net, e, width, world, x, d, n)
         == DotTo(e.w2[d], Activated(net, e, width, x), Start(width, world, n))
  {
    hide Start, Local, Output, Shard, Activated, ValidExpert, Uniform;
    NoneYet(width, world);
    if n > 0 {
      OutputOfShard(net, e, width, world, n - 1, x, d);
      ReducedIsPrefix(net, e, width, world, x, d, n - 1);
    }
  }

  /** Summed over the ranks, the shards give the whole expert when the world size divides the width. */
  lemma {:induction false} ShardsSumToWhole(net: Net, e: Expert, width: nat, world: nat, x: Vector, d: nat)
    requires ValidExpert(net, e, width) && |x| == net.hidden && d < net.hidden && world > 0 && width % world == 0
    ensures Reduced(net, e, width, world, x, d, world) == Output(net, e, width, x, d)
  {
    hide *;
    Divides(width, world);
    OutputIsDot(net, e, width, x, d);
    ReducedIsPrefix(net, e, width, world, x, d, world);
  }

  lemma {:induction false} NoneYet(width: nat, world: nat)
    requires world > 0
    ensures Start(width, world, 0) == 0
  {
  }

  lemma {:induction false} Divides(width: nat, world: nat)
    requires world > 0
    ensures Start(width, world, world) == width - width % world
  {
    assert width == world * (width / world) + width % world;
  }

  // ----- Routed layers -----

  ghost predicate ValidExperts(net: Net, experts: seq<Expert>, width: nat) {
    forall i :: 0 <= i < |experts| ==> ValidExpert(net, experts[i], width)
  }

  predicate ValidRoutes(experts: nat, ids: seq<nat>, weights: seq<real>) {
    |ids| == |weights| && forall j :: 0 <= j < |ids| ==> ids[j] < experts
  }

  /** A coordinate of a token's output after its first `n` routes. */
  function Mix(net: Net, experts: seq<Expert>, width: nat, x: Vector, ids: seq<nat>, weights: seq<real>, d: nat, n: nat)
    : real
    requires ValidExperts(net, experts, width) && ValidRoutes(|experts|, ids, weights)
    requires |x| == net.hidden && d < net.hidden && n <= |ids|
  {
    if n == 0 then 0.0 else
      Mix(net, experts, width, x, ids, weights, d, n - 1)
      + Times(weights[n - 1], Output(net, experts[ids[n - 1]], width, x, d))
  }

  /** What one rank holds of every expert. */
  function Cut(net: Net, experts: seq<Expert>, width: nat, world: nat, rank: nat): (r: seq<Expert>)
    requires ValidExperts(net, experts, width) && rank < world
    ensures |r| == |experts| && ValidExperts(net, r, Local(width, world))
    ensures forall i :: 0 <= i < |r| ==> r[i] == Shard(net, experts[i], width, world, rank)
  {
    seq(|experts|, i requires 0 <= i < |experts| => Shard(net, experts[i], width, world, rank))
  }

  /** The reduction of the first `m` ranks' layer outputs, each after `n` routes. */
  function AllReduced(net: Net, experts: seq<Expert>, width: nat, world: nat, x: Vector, ids: seq<nat>,
                      weights: seq<real>, d: nat, n: nat, m: nat): real
    requires ValidExperts(net, experts, width) && ValidRoutes(|experts|, ids, weights)
    requires |x| == net.hidden && d < net.hidden && n <= |ids| && m <= world
  {
    if m == 0 then 0.0 else
      AllReduced(net, experts, width, world, x, ids, weights, d, n, m - 1)
      + Mix(net, Cut(net, experts, width, world, m - 1), Local(width, world), x, ids, weights, d, n)
  }

  /** A route adds its weighted, reduced expert to the reduction. */
  lemma {:induction false} RouteReduced(net: Net, experts: seq<Expert>, width: nat, world: nat, x: Vector,
                                        ids: seq<nat>, weights: seq<real>, d: nat, n: nat, m: nat)
    requires ValidExperts(net, experts, width) && ValidRoutes(|experts|, ids, weights)
    requires |x| == net.hidden && d < net.hidden && n < |ids| && m <= world
    ensures AllReduced(net, experts, width, world, x, ids, weights, d, n + 1, m)
         == AllReduced(net, experts, width, world, x, ids, weights, d, n, m)
            + Times(weights[n], Reduced(net, experts[ids[n]], width, world, x, d, m))
  {
    hide Output, Shard, ValidExpert, Local, Times;
    Distributes(weights[n], 0.0, 0.0);
    if m > 0 {
      RouteReduced(net, experts, width, world, x, ids, weights, d, n, m - 1);
      var e := experts[ids[n]];
      Distributes(weights[n], Reduced(net, e, width, world, x, d, m - 1),
                  Output(net, Shard(net, e, width, world, m - 1), Local(width, world), x, d));
    }
  }

  lemma {:induction false} Distributes(a: real, b: real, c: real)
    ensures Times(a, b + c) == Times(a, b) + Times(a, c) && Times(a, 0.0) == 0.0
  {
  }

  lemma {:induction false} NoRoutes(net: Net, experts: seq<Expert>, width: nat, world: nat, x: Vector,
                                    ids: seq<nat>, weights: seq<real>, d: nat, m: nat)
    requires ValidExperts(net, experts, width) && ValidRoutes(|experts|, ids, weights)
    requires |x| == net.hidden && d < net.hidden && m <= world
    ensures AllReduced(net, experts, width, world, x, ids, weights, d, 0, m) == 0.0
  {
    if m > 0 {
      NoRoutes(net, experts, width, world, x, ids, weights, d, m - 1);
    }
  }

  /** The reduced layer is the unsharded layer, for every layout and every world size that divides the width. */
  lemma {:induction false} ShardedLayerIsWhole(net: Net, experts: seq<Expert>, width: nat, world: nat, x: Vector,
                                               ids: seq<nat>, weights: seq<real>, d: nat, n: nat)
    requires ValidExperts(net, experts, width) && ValidRoutes(|experts|, ids, weights)
    requires |x| == net.hidden && d < net.hidden && n <= |ids| && world > 0 && width % world == 0
    ensures AllReduced(net, experts, width, world, x, ids, weights, d, n, world)
         == Mix(net, experts, width, x, ids, weights, d, n)
  {
    hide Output, Reduced, AllReduced, ValidExpert, Times;
    if n == 0 {
      NoRoutes(net, experts, width, world, x, ids, weights, d, world);
    } else {
      ShardedLayerIsWhole(net, experts, width, world, x, ids, weights, d, n - 1);
      RouteReduced(net, experts, width, world, x, ids, weights, d, n - 1, world);
      ShardsSumToWhole(net, experts[ids[n - 1]], width, world, x, d);
    }
  }

  // ----- Shared experts -----

  /** Activated values with the token's weight for the expert multiplied in before the second projection. */
  function WeightedUnits(net: Net, e: Expert, width: nat, x: Vector, weight: real): (a: Vector)
    requires ValidExpert(net, e, width) && |x| == net.hidden
    ensures |a| == width
  {
    seq(width, k requires 0 <= k < width => Times(weight, Unit(net, e, width, x, k)))
  }

  /** The double sum of the shared reference, over the first `n` experts. */
  function Shared(net: Net, experts: seq<Expert>, width: nat, x: Vector, weights: seq<real>, d: nat, n: nat): real
    requires ValidExperts(net, experts, width) && |weights| == |experts| && n <= |experts|
    requires |x| == net.hidden && d < net.hidden
  {
    if n == 0 then 0.0 else
      Shared(net, experts, width, x, weights, d, n - 1)
      + Dot(WeightedUnits(net, experts[n - 1], width, x, weights[n - 1]), experts[n - 1].w2[d])
  }

  lemma {:induction false} WeightComesOut(a: Vector, b: Vector, scaled: Vector, weight: real, n: nat)
    requires n <= |a| && n <= |b| && n <= |scaled|
    requires forall k :: 0 <= k < n ==> scaled[k] == Times(weight, b[k])
    ensures DotTo(scaled, a, n) == Times(weight, DotTo(a, b, n))
  {
    if n == 0 {
      Distributes(weight, 0.0, 0.0);
    } else {
      WeightComesOut(a, b, scaled, weight, n - 1);
      Regroup(a[n - 1], b[n - 1], weight, DotTo(a, b, n - 1));
    }
  }

  lemma {:induction false} Regroup(a: real, b: real, weight: real, rest: real)
    ensures Times(weight, rest) + Times(weight, b) * a == Times(weight, rest + a * b)
  {
  }

  /** Every shared expert, in the order of the table. */
  function All(n: nat): (ids: seq<nat>)
    ensures |ids| == n && forall i :: 0 <= i < n ==> ids[i] == i
  {
    seq(n, i requires 0 <= i < n => i)
  }

  /** The shared experts are a routed layer that takes every expert. */
  lemma {:induction false} SharedIsRouted(net: Net, experts: seq<Expert>, width: nat, x: Vector, weights: seq<real>,
                                          d: nat, n: nat)
    requires ValidExperts(net, experts, width) && |weights| == |experts| && n <= |experts|
    requires |x| == net.hidden && d < net.hidden
    ensures Shared(net, experts, width, x, weights, d, n) == Mix(net, experts, width, x, All(|experts|), weights, d, n)
  {
    hide ValidExpert, Unit, Times;
    if n > 0 {
      SharedIsRouted(net, experts, width, x, weights, d, n - 1);
      var e := experts[n - 1];
      SharedTerm(net, e, width, x, weights[n - 1], d);
    }
  }

  lemma {:induction false} SharedTerm(net: Net, e: Expert, width: nat, x: Vector, weight: real, d: nat)
    requires ValidExpert(net, e, width) && |x| == net.hidden && d < net.hidden
    ensures Dot(WeightedUnits(net, e, width, x, weight), e.w2[d]) == Times(weight, Output(net, e, width, x, d))
  {
    hide Unit, Times;
    WeightComesOut(e.w2[d], Activated(net, e, width, x), WeightedUnits(net, e, width, x, weight), weight, width);
  }

  /** The sum of the first `m` ranks' shared outputs. */
  function SharedReduced(net: Net, experts: seq<Expert>, width: nat, world: nat, x: Vector, weights: seq<real>, d: nat,
                         m: nat): real
    requires ValidExperts(net, experts, width) && |weights| == |experts| && m <= world
    requires |x| == net.hidden && d < net.hidden
  {
    if m == 0 then 0.0 else
      SharedReduced(net, experts, width, world, x, weights, d, m - 1)
      + Shared(net, Cut(net, experts, width, world, m - 1), Local(width, world), x, weights, d, |experts|)
  }

  lemma {:induction false} SharedReducedIsRouted(net: Net, experts: seq<Expert>, width: nat, world: nat, x: Vector,
                                                 weights: seq<real>, d: nat, m: nat)
    requires ValidExperts(net, experts, width) && |weights| == |experts| && m <= world
    requires |x| == net.hidden && d < net.hidden
    ensures SharedReduced(net, experts, width, world, x, weights, d, m)
         == AllReduced(net, experts, width, world, x, All(|experts|), weights, d, |experts|, m)
  {
    hide ValidExpert, Shared, Mix, Local;
    if m > 0 {
      SharedReducedIsRouted(net, experts, width, world, x, weights, d, m - 1);
      SharedIsRouted(net, Cut(net, experts, width, world, m - 1), Local(width, world), x, weights, d, |experts|);
    }
  }

  /** Summed over the ranks, the shards of the shared experts give the shared experts' output. */
  lemma {:induction false} SharedShardsSumToWhole(net: Net, experts: seq<Expert>, width: nat, world: nat, x: Vector,
                                                  weights: seq<real>, d: nat)
    requires ValidExperts(net, experts, width) && |weights| == |experts|
    requires |x| == net.hidden && d < net.hidden && world > 0 && width % world == 0
    ensures SharedReduced(net, experts, width, world, x, weights, d, world)
         == Shared(net, experts, width, x, weights, d, |experts|)
  {
    hide ValidExpert, Shared, Mix, AllReduced, SharedReduced;
    SharedReducedIsRouted(net, experts, width, world, x, weights, d, world);
    ShardedLayerIsWhole(net, experts, width, world, x, All(|experts|), weights, d, |experts|);
    SharedIsRouted(net, experts, width, x, weights, d, |experts|);
  }

  // ----- The reference loop -----

  /** The routed reference: a loop over tokens and routes that accumulates into `output`. */
  method Reference(net: Net, experts: seq<Expert>, width: nat, tokens: seq<Vector>, ids: seq<seq<nat>>,
                   weights: seq<seq<real>>) returns (output: array2<real>)
    requires ValidExperts(net, experts, width) && Uniform(tokens, net.hidden) && |ids| == |weights| == |tokens|
    requires forall t :: 0 <= t < |tokens| ==> ValidRoutes(|experts|, ids[t], weights[t])
    ensures fresh(output) && output.Length0 == |tokens| && output.Length1 == net.hidden
    ensures forall t, d :: 0 <= t < |tokens| && 0 <= d < net.hidden
              ==> output[t, d] == Mix(net, experts, width, tokens[t], ids[t], weights[t], d, |ids[t]|)
  {
    hide ValidExpert, Output;
    output := new real[|tokens|, net.hidden]((_, _) => 0.0);
    for t := 0 to |tokens|
      invariant forall u, d :: 0 <= u < t && 0 <= d < net.hidden
                  ==> output[u, d] == Mix(net, experts, width, tokens[u], ids[u], weights[u], d, |ids[u]|)
      invariant forall u, d :: t <= u < |tokens| && 0 <= d < net.hidden ==> output[u, d] == 0.0
    {
      var x := tokens[t];
      for j := 0 to |ids[t]|
        invariant forall u, d :: 0 <= u < t && 0 <= d < net.hidden
                    ==> output[u, d] == Mix(net, experts, width, tokens[u], ids[u], weights[u], d, |ids[u]|)
        invariant forall d :: 0 <= d < net.hidden
                    ==> output[t, d] == Mix(net, experts, width, x, ids[t], weights[t], d, j)
        invariant forall u, d :: t < u < |tokens| && 0 <= d < net.hidden ==> output[u, d] == 0.0
      {
        AddRoute(net, experts, width, x, ids[t], weights[t], j, output, t);
      }
    }
  }

  /** `output[token_index] += weight * expert_output`. */
  method AddRoute(net: Net, experts: seq<Expert>, width: nat, x: Vector, ids: seq<nat>, weights: seq<real>, j: nat,
                  output: array2<real>, t: nat)
    requires ValidExperts(net, experts, width) && |x| == net.hidden && ValidRoutes(|experts|, ids, weights)
    requires j < |ids| && t < output.Length0 && output.Length1 == net.hidden
    requires forall d :: 0 <= d < net.hidden ==> output[t, d] == Mix(net, experts, width, x, ids, weights, d, j)
    modifies output
    ensures forall d :: 0 <= d < net.hidden ==> output[t, d] == Mix(net, experts, width, x, ids, weights, d, j + 1)
    ensures forall u, d :: 0 <= u < output.Length0 && u != t && 0 <= d < net.hidden ==>
              output[u, d] == old(output[u, d])
  {
    hide ValidExpert, Output;
    for d := 0 to net.hidden
      invariant forall c :: 0 <= c < d ==> output[t, c] == Mix(net, experts, width, x, ids, weights, c, j + 1)
      invariant forall c :: d <= c < net.hidden ==> output[t, c] == Mix(net, experts, width, x, ids, weights, c, j)
      invariant forall u, c :: 0 <= u < output.Length0 && u != t && 0 <= c < net.hidden
                  ==> output[u, c] == old(output[u, c])
    {
      output[t, d] := output[t, d] + Times(weights[j], Output(net, experts[ids[j]], width, x, d));
    }
  }
}
