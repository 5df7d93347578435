/**
 Quantized shards: cutting then quantizing is quantizing then cutting, and the gather loop puts the cut weights
 back where they came from.
 */
module ShardedWeights {
  import opened Outcomes
  import opened Sums
  import opened ExpertShards
  import Quantizer

  // ----- Quantizing rows -----

  predicate Whole(n: nat, size: nat) {
    size > 0 && n % size == 0
  }

  /** A column's place in its group. */
  function Place(c: nat, size: nat): (r: nat)
    requires size > 0
    ensures r < size && r <= c
  {
    c % size
  }

  /** The group of a row's column. */
  function GroupAt(row: Vector, size: nat, c: nat): (group: Vector)
    requires Whole(|row|, size) && c < |row|
    ensures |group| == size
  {
    GroupFits(|row|, size, c);
    row[c - Place(c, size)..c - Place(c, size) + size]
  }

  lemma {:induction false} GroupFits(n: nat, size: nat, c: nat)
    requires Whole(n, size) && c < n
    ensures c - Place(c, size) + size <= n
  {
    var q, m := c / size, n / size;
    assert c == q * size + c % size && n == m * size;
    Fewer(q, m, size, c % size);
  }

  lemma {:induction false} Fewer(q: nat, m: nat, size: nat, rest: nat)
    requires q * size + rest < m * size
    ensures q * size + size <= m * size
  {
    if q >= m {
      Multiplied(m, q, size);
    } else {
      Multiplied(q + 1, m, size);
    }
  }

  /** A row as it is read back from its groups' codes and scales. */
  function ReadBack(row: Vector, size: nat): (r: Vector)
    requires Whole(|row|, size)
    ensures |r| == |row|
  {
    seq(|row|, c requires 0 <= c < |row| => Quantizer.ReadBack(GroupAt(row, size, c))[Place(c, size)])
  }

  /** `_quantize_last_dim`, as far as its dequantized result: rows must be whole groups. */
  function Quantized(m: Matrix, size: nat, width: nat): Option<Matrix>
    requires Uniform(m, width)
  {
    if !Whole(width, size) then None else
      Some(RowsReadBack(m, size, width))
  }

  function RowsReadBack(m: Matrix, size: nat, width: nat): (r: Matrix)
    requires Uniform(m, width) && Whole(width, size)
    ensures |r| == |m| && Uniform(r, width) && forall d :: 0 <= d < |m| ==> r[d] == ReadBack(m[d], size)
  {
    seq(|m|, d requires 0 <= d < |m| => ReadBack(m[d], size))
  }

  lemma {:induction false} CutOfCut(row: Vector, lo: nat, hi: nat, a: nat, b: nat)
    requires lo <= hi <= |row| && a <= b <= hi - lo
    ensures row[lo..hi][a..b] == row[lo + a..lo + b]
  {
    var x := row[lo..hi];
    var l, r := x[a..b], row[lo + a..lo + b];
    assert |l| == |r|;
    assert forall k :: 0 <= k < b - a ==> l[k] == x[a + k] == row[lo + a + k] == r[k];
  }

  lemma {:induction false} SameGroup(row: Vector, size: nat, lo: nat, hi: nat, c: nat)
    requires Whole(|row|, size) && lo <= hi <= |row| && Whole(lo, size) && Whole(hi - lo, size) && c < hi - lo
    ensures Place(lo + c, size) == Place(c, size) && GroupAt(row[lo..hi], size, c) == GroupAt(row, size, lo + c)
  {
    SameOffset(lo, c, size);
    GroupFits(hi - lo, size, c);
    GroupFits(|row|, size, lo + c);
    hide Whole, Place;
    CutOfCut(row, lo, hi, c - Place(c, size), c - Place(c, size) + size);
  }

  /** A cut along group boundaries does not change what its groups read back. */
  lemma {:induction false} CutReadsBack(row: Vector, size: nat, lo: nat, hi: nat)
    requires Whole(|row|, size) && lo <= hi <= |row| && Whole(lo, size) && Whole(hi - lo, size)
    ensures ReadBack(row[lo..hi], size) == ReadBack(row, size)[lo..hi]
  {
    hide Quantizer.ReadBack, Whole, Place, GroupAt;
    forall c | 0 <= c < hi - lo
      ensures ReadBack(row[lo..hi], size)[c] == ReadBack(row, size)[lo + c]
    {
      SameGroup(row, size, lo, hi, c);
    }
  }

  lemma {:induction false} SameOffset(lo: nat, c: nat, size: nat)
    requires Whole(lo, size)
    ensures Place(lo + c, size) == Place(c, size)
  {
    var q := lo / size;
    assert lo == q * size;
    assert c == (c / size) * size + c % size;
    assert lo + c == (q + c / size) * size + c % size by {
      assert (q + c / size) * size == q * size + (c / size) * size;
    }
    RemainderOf(q + c / size, c % size, size);
  }

  lemma {:induction false} RemainderOf(q: nat, rest: nat, size: nat)
    requires rest < size
    ensures (q * size + rest) % size == rest
  {
    var x := q * size + rest;
    assert x == (x / size) * size + x % size;
    if x / size < q {
      Multiplied(x / size + 1, q, size);
    } else if q < x / size {
      Multiplied(q + 1, x / size, size);
    }
  }

  function QuantizedExpert(net: Net, e: Expert, width: nat, size: nat): (r: Option<Expert>)
    requires ValidExpert(net, e, width)
    ensures r.Some? ==> ValidExpert(net, r.value, width)
  {
    var w13, w2 := Quantized(e.w13, size, net.hidden), Quantized(e.w2, size, width);
    if w13.Some? && w2.Some? then Some(Expert(w13.value, w2.value)) else None
  }

  lemma {:induction false} WholeMultiple(q: nat, n: nat, size: nat)
    requires Whole(n, size)
    ensures Whole(q * n, size)
  {
    var k := n / size;
    assert n == k * size;
    assert q * n == (q * k) * size + 0;
    RemainderOf(q * k, 0, size);
  }

  lemma {:induction false} RowsCut(m: Matrix, a: nat, b: nat, size: nat, width: nat)
    requires Uniform(m, width) && Whole(width, size) && a <= b <= |m|
    ensures RowsReadBack(m[a..b], size, width) == RowsReadBack(m, size, width)[a..b]
  {
  }

  lemma {:induction false} RowsJoined(m: Matrix, n: Matrix, size: nat, width: nat)
    requires Uniform(m, width) && Uniform(n, width) && Whole(width, size)
    ensures RowsReadBack(m + n, size, width) == RowsReadBack(m, size, width) + RowsReadBack(n, size, width)
  {
  }

  lemma {:induction false} RowsQuantized(net: Net, e: Expert, width: nat, world: nat, rank: nat, size: nat)
    requires ValidExpert(net, e, width) && rank < world && QuantizedExpert(net, e, width, size).Some?
    ensures Quantized(Shard(net, e, width, world, rank).w13, size, net.hidden)
         == Some(Shard(net, QuantizedExpert(net, e, width, size).value, width, world, rank).w13)
  {
    hide Start, Local, Columns, RowsReadBack, Whole;
    ShardFits(width, world, rank);
    var start, stop := Start(width, world, rank), Start(width, world, rank + 1);
    if net.layout.Halves? {
      RowsCut(e.w13, start, stop, size, net.hidden);
      RowsCut(e.w13, width + start, width + stop, size, net.hidden);
      RowsJoined(e.w13[start..stop], e.w13[width + start..width + stop], size, net.hidden);
    } else {
      RowsCut(e.w13, 2 * start, 2 * stop, size, net.hidden);
    }
  }

  lemma {:induction false} ColumnsQuantized(m: Matrix, lo: nat, hi: nat, width: nat, size: nat)
    requires Uniform(m, width) && lo <= hi <= width && Whole(lo, size) && Whole(hi - lo, size) && Whole(width, size)
    ensures Quantized(Columns(m, lo, hi, width), size, hi - lo)
         == Some(Columns(Quantized(m, size, width).value, lo, hi, width))
  {
    hide ReadBack, Whole;
    forall d | 0 <= d < |m|
      ensures ReadBack(m[d][lo..hi], size) == ReadBack(m[d], size)[lo..hi]
    {
      CutReadsBack(m[d], size, lo, hi);
    }
    assert RowsReadBack(Columns(m, lo, hi, width), size, hi - lo)
        == Columns(RowsReadBack(m, size, width), lo, hi, width);
  }

  /** Quantizing a rank's shard is cutting the quantized expert, when the local width is whole groups. */
  lemma {:induction false} QuantizedShard(net: Net, e: Expert, width: nat, world: nat, rank: nat, size: nat)
    requires ValidExpert(net, e, width) && rank < world && width % world == 0
    requires Whole(net.hidden, size) && Whole(Local(width, world), size)
    ensures QuantizedExpert(net, e, width, size).Some?
    ensures QuantizedExpert(net, Shard(net, e, width, world, rank), Local(width, world), size)
         == Some(Shard(net, QuantizedExpert(net, e, width, size).value, width, world, rank))
  {
    var local, start := Local(width, world), Start(width, world, rank);
    Divides(width, world);
    WholeMultiple(world, local, size);
    WholeMultiple(rank, local, size);
    assert Whole(width, size) && Whole(start, size);
    hide Whole, Start, Local;
    ShardFits(width, world, rank);
    RowsQuantized(net, e, width, world, rank, size);
    ColumnsQuantized(e.w2, start, start + local, width, size);
  }

  /** The four-rank fixture: each rank quantizes its own shard, and the reduced outputs are those of the whole. */
  lemma {:induction false} QuantizedLayerIsWhole(net: Net, experts: seq<Expert>, quantized: seq<Expert>, width: nat,
                                                 world: nat, size: nat, x: Vector, ids: seq<nat>, weights: seq<real>,
                                                 d: nat)
    requires ValidExperts(net, experts, width) && |quantized| == |experts| && ValidRoutes(|experts|, ids, weights)
    requires |x| == net.hidden && d < net.hidden && world > 0 && width % world == 0
    requires Whole(net.hidden, size) && Whole(Local(width, world), size)
    requires forall i :: 0 <= i < |experts| ==> Some(quantized[i]) == QuantizedExpert(net, experts[i], width, size)
    ensures ValidExperts(net, quantized, width)
    ensures forall rank: nat, i :: rank < world && 0 <= i < |experts|
              ==> Some(Cut(net, quantized, width, world, rank)[i])
                  == QuantizedExpert(net, Shard(net, experts[i], width, world, rank), Local(width, world), size)
    ensures AllReduced(net, quantized, width, world, x, ids, weights, d, |ids|, world)
         == Mix(net, quantized, width, x, ids, weights, d, |ids|)
  {
    hide Shard, Local, QuantizedExpert, AllReduced, Mix, Whole;
    forall rank: nat, i | rank < world && 0 <= i < |experts|
      ensures Some(Cut(net, quantized, width, world, rank)[i])
           == QuantizedExpert(net, Shard(net, experts[i], width, world, rank), Local(width, world), size)
    {
      QuantizedShard(net, experts[i], width, world, rank, size);
    }
    ShardedLayerIsWhole(net, quantized, width, world, x, ids, weights, d, |ids|);
  }

  // ----- The gather loop -----

  /** The gate and up rows of the units below `stop` are in place. */
  ghost predicate RowsPlaced(full: Matrix, width: nat, w13: seq<Vector>, stop: nat) {
    && |full| == |w13| == 2 * width && stop <= width
    && (forall k :: 0 <= k < stop || width <= k < width + stop ==> w13[k] == full[k])
  }

  ghost predicate ColumnsPlaced(full: Matrix, width: nat, w2: array2<real>, stop: nat)
    reads w2
  {
    && |full| == w2.Length0 && Uniform(full, width) && w2.Length1 == width && stop <= width
    && (forall d, c :: 0 <= d < |full| && 0 <= c < stop ==> w2[d, c] == full[d][c])
  }

  /** Writes a shard's gate rows and up rows to their two slices. */
  method PlaceRows(rows: Matrix, width: nat, start: nat, local: nat, w13: array<Vector>, ghost full: Matrix)
    requires |rows| == 2 * local && start + local <= width && RowsPlaced(full, width, w13[..], start)
    requires forall k :: 0 <= k < local ==> rows[k] == full[start + k]
    requires forall k :: local <= k < 2 * local ==> rows[k] == full[width + start + (k - local)]
    modifies w13
    ensures RowsPlaced(full, width, w13[..], start + local)
  {
    for k := 0 to local
      invariant RowsPlaced(full, width, w13[..], start + k)
    {
      w13[start + k] := rows[k];
      w13[width + start + k] := rows[local + k];
    }
  }

  /** Writes a shard's columns to their slice. */
  method PlaceColumns(m: Matrix, width: nat, start: nat, local: nat, w2: array2<real>, ghost full: Matrix)
    requires |m| == |full| && Uniform(m, local) && start + local <= width && ColumnsPlaced(full, width, w2, start)
    requires forall d :: 0 <= d < |m| ==> m[d] == full[d][start..start + local]
    modifies w2
    ensures ColumnsPlaced(full, width, w2, start + local)
  {
    for k := 0 to local
      invariant ColumnsPlaced(full, width, w2, start + k)
    {
      for d := 0 to |m|
        invariant ColumnsPlaced(full, width, w2, start + k)
        invariant forall i :: 0 <= i < d ==> w2[i, start + k] == full[i][start + k]
      {
        w2[d, start + k] := m[d][k];
      }
    }
  }

  /** What a gathered shard holds, in terms of the whole expert. */
  lemma {:induction false} ShardHolds(net: Net, e: Expert, width: nat, world: nat, rank: nat)
    requires net.layout.Halves? && ValidExpert(net, e, width) && rank < world
    ensures Start(width, world, rank) + Local(width, world) == Start(width, world, rank + 1) <= width
    ensures var s, start, local := Shard(net, e, width, world, rank), Start(width, world, rank), Local(width, world);
            && (forall k :: 0 <= k < local ==> s.w13[k] == e.w13[start + k])
            && (forall k :: local <= k < 2 * local ==> s.w13[k] == e.w13[width + start + (k - local)])
            && (forall d :: 0 <= d < net.hidden ==> s.w2[d] == e.w2[d][start..start + local])
  {
    hide Start, Local;
    ShardFits(width, world, rank);
  }

  /** Whatever the fresh arrays held, the loop over the gathered shards rebuilds every cell of the whole expert. */
  method Gather(net: Net, shards: seq<Expert>, width: nat, w13: array<Vector>, w2: array2<real>, ghost e: Expert)
    requires net.layout.Halves? && |shards| > 0 && width % |shards| == 0 && ValidExpert(net, e, width)
    requires forall r :: 0 <= r < |shards| ==> shards[r] == Shard(net, e, width, |shards|, r)
    requires w13.Length == 2 * width && w2.Length0 == net.hidden && w2.Length1 == width
    modifies w13, w2
    ensures w13[..] == e.w13
    ensures forall d, c :: 0 <= d < net.hidden && 0 <= c < width ==> w2[d, c] == e.w2[d][c]
  {
    var world := |shards|;
    var local := Local(width, world);
    Divides(width, world);
    NoneYet(width, world);
    assert RowsPlaced(e.w13, width, w13[..], 0);
    hide Start, Local, Shard, Uniform;
    for rank := 0 to world
      invariant RowsPlaced(e.w13, width, w13[..], Start(width, world, rank))
      invariant ColumnsPlaced(e.w2, width, w2, Start(width, world, rank))
    {
      ShardHolds(net, e, width, world, rank);
      PlaceRows(shards[rank].w13, width, Start(width, world, rank), local, w13, e.w13);
      PlaceColumns(shards[rank].w2, width, Start(width, world, rank), local, w2, e.w2);
    }
  }
}
