/**
 The attention references that read a paged cache: at sampled queries, over the pages their windows can reach, and
 in full; and the check of a ragged batch against the latter.
 */
module SampledAttention {
  import opened Outcomes
  import opened Sums
  import opened Attention
  import AttentionProofs
  import Softmax

  datatype Fault = NoQueries | IndexOutOfRange | InvalidPage | NotFinite

  /** Entries by page and offset. */
  type Cache = seq<seq<Vector>>

  predicate Paged(cache: Cache, size: nat, dim: nat) {
    forall b :: 0 <= b < |cache| ==> |cache[b]| == size && Uniform(cache[b], dim)
  }

  /** `window_size[0]`: how many positions back a query sees; negative when it sees all of them. */
  function WindowOf(left: int): Option<int> {
    if left >= 0 then Some(left + 1) else None
  }

  function Least(indices: seq<nat>, n: nat): (r: nat)
    requires 0 < n <= |indices|
    ensures r in indices[..n] && forall j :: 0 <= j < n ==> r <= indices[j]
  {
    if n == 1 then indices[0] else
      var least := Least(indices, n - 1);
      if indices[n - 1] < least then indices[n - 1] else least
  }

  function Greatest(indices: seq<nat>, n: nat): (r: nat)
    requires 0 < n <= |indices|
    ensures r in indices[..n] && forall j :: 0 <= j < n ==> r >= indices[j]
  {
    if n == 1 then indices[0] else
      var greatest := Greatest(indices, n - 1);
      if indices[n - 1] > greatest then indices[n - 1] else greatest
  }

  /** The position of query `q`. */
  function Absolute(g: Shape, q: nat): int {
    g.sequence - g.queries + q
  }

  /** The first position read. */
  function FirstRead(g: Shape, left: int, indices: seq<nat>): nat
    requires |indices| > 0
  {
    var first := Absolute(g, Least(indices, |indices|)) - left;
    if left >= 0 && first > 0 then first else 0
  }

  /** One past the last position read. */
  function EndRead(g: Shape, indices: seq<nat>): int
    requires |indices| > 0
  {
    Absolute(g, Greatest(indices, |indices|)) + 1
  }

  predicate ValidPage(count: nat, row: seq<int>, size: nat, position: nat) {
    size > 0 && position / size < |row| && 0 <= row[position / size] < count
  }

  predicate OnRow(entries: nat, size: nat, lo: nat, hi: nat) {
    size > 0 && forall t :: lo <= t < hi ==> t / size < entries
  }

  ghost predicate Live(count: nat, row: seq<int>, size: nat, lo: nat, hi: nat) {
    forall t :: lo <= t < hi ==> ValidPage(count, row, size, t)
  }

  predicate Finite(rows: seq<seq<Option<real>>>) {
    forall j, c :: 0 <= j < |rows| && 0 <= c < |rows[j]| ==> rows[j][c].Some?
  }

  /** The entry at a position, through the block row. */
  function Read(cache: Cache, row: seq<int>, size: nat, dim: nat, position: nat): (entry: Vector)
    requires Paged(cache, size, dim) && ValidPage(|cache|, row, size, position)
    ensures |entry| == dim
  {
    var page, offset := row[position / size], position % size;
    assert |cache[page]| == size && Uniform(cache[page], dim);
    cache[page][offset]
  }

  function Gathered(cache: Cache, row: seq<int>, size: nat, dim: nat, lo: nat, hi: nat): (found: seq<Vector>)
    requires Paged(cache, size, dim) && lo <= hi
    requires Live(|cache|, row, size, lo, hi)
    ensures |found| == hi - lo && Uniform(found, dim)
  {
    var found := seq(hi - lo, i requires 0 <= i < hi - lo => Read(cache, row, size, dim, lo + i));
    assert forall i :: 0 <= i < |found| ==> found[i] == Read(cache, row, size, dim, lo + i);
    found
  }

  /** The weights of the positions from `lo`, given their keys. */
  function WeightsFrom(m: Request, q: nat, keys: seq<Vector>, dim: nat, lo: nat): (w: seq<real>)
    requires ValidRequest(m, dim) && q < m.shape.queries && Uniform(keys, dim)
    ensures |w| == |keys|
  {
    seq(|keys|, i requires 0 <= i < |keys| => Weight(m, q, keys[i], lo + i))
  }

  /** One output vector. */
  function Row(w: seq<real>, values: seq<Vector>, width: nat): (r: seq<Option<real>>)
    requires |w| == |values| && Uniform(values, width)
    ensures |r| == width
  {
    seq(width, c requires 0 <= c < width => Attend(w, values, c, width))
  }

  function RowsFrom(m: Request, indices: seq<nat>, keys: seq<Vector>, values: seq<Vector>, dim: nat, width: nat,
                    lo: nat): (rows: seq<seq<Option<real>>>)
    requires ValidRequest(m, dim) && Uniform(keys, dim) && Uniform(values, width) && |keys| == |values|
    requires InRange(m.shape, indices)
    ensures |rows| == |indices|
  {
    seq(|indices|, j requires 0 <= j < |indices| => Row(WeightsFrom(m, indices[j], keys, dim, lo), values, width))
  }

  predicate InRange(g: Shape, indices: seq<nat>) {
    forall j :: 0 <= j < |indices| ==> indices[j] < g.queries
  }

  /** `sampled_reference`. */
  ghost function Sampled(m: Request, left: int, keys: Cache, values: Cache, row: seq<int>, size: nat, dim: nat,
                         width: nat, indices: seq<nat>): Result<seq<seq<Option<real>>>, Fault>
    requires ValidRequest(m, dim) && size > 0 && Paged(keys, size, dim) && Paged(values, size, width)
    requires |values| == |keys|
  {
    var g := m.shape;
    if |indices| == 0 then Err(NoQueries)
    else if !InRange(g, indices) then Err(IndexOutOfRange)
    else
      var lo, hi := FirstRead(g, left, indices), EndRead(g, indices);
      if hi < lo then Err(IndexOutOfRange)
      else if !OnRow(|row|, size, lo, hi) then Err(IndexOutOfRange)
      else if !Live(|keys|, row, size, lo, hi) then Err(InvalidPage)
      else
        var k, v := Gathered(keys, row, size, dim, lo, hi), Gathered(values, row, size, width, lo, hi);
        var rows := RowsFrom(m, indices, k, v, dim, width, lo);
        if Finite(rows) then Ok(rows) else Err(NotFinite)
  }

  // ----- The sampled form is the full form -----

  /** The full-length reference at the sampled queries. */
  function Full(m: Request, keys: seq<Vector>, values: seq<Vector>, dim: nat, width: nat, indices: seq<nat>)
    : (rows: seq<seq<Option<real>>>)
    requires ValidRequest(m, dim) && Uniform(keys, dim) && Uniform(values, width) && |keys| == |values|
    requires InRange(m.shape, indices)
    ensures |rows| == |indices|
  {
    seq(|indices|, j requires 0 <= j < |indices| => Row(DenseWeights(m, indices[j], keys, dim), values, width))
  }

  /** The pages from `lo` to `hi` are live and hold these entries; nothing is said of the other pages. */
  ghost predicate Holds(cache: Cache, row: seq<int>, size: nat, entries: seq<Vector>, dim: nat, lo: nat, hi: nat)
    requires Paged(cache, size, dim)
  {
    lo <= hi <= |entries|
    && forall t :: lo <= t < hi ==> ValidPage(|cache|, row, size, t) && Read(cache, row, size, dim, t) == entries[t]
  }

  lemma {:induction false} Trimmed(w: seq<real>, x: seq<real>, lo: nat, hi: nat)
    requires lo <= hi <= |w| && |x| == hi - lo && forall i :: 0 <= i < hi - lo ==> w[lo + i] == x[i]
    requires forall t :: (0 <= t < lo || hi <= t < |w|) ==> w[t] == 0.0
    ensures Total(w) == Total(x)
  {
    SumStopsAtZeros(w, hi, |w|);
    SumSkipsZeros(w, lo, hi);
    SumSame(w[lo..], x, hi - lo);
  }

  /** What lies outside the positions read has no weight for any sampled query. */
  lemma {:induction false} OutOfReach(m: Request, left: int, indices: seq<nat>, j: nat, key: Vector, t: nat)
    requires ValidRequest(m, |key|) && m.shape.window == WindowOf(left)
    requires InRange(m.shape, indices) && j < |indices|
    requires t < FirstRead(m.shape, left, indices) || t >= EndRead(m.shape, indices)
    ensures Weight(m, indices[j], key, t) == 0.0
  {
    hide ValidRequest, Score;
    assert Least(indices, |indices|) <= indices[j] <= Greatest(indices, |indices|);
  }

  lemma {:induction false} ReadBounds(g: Shape, left: int, indices: seq<nat>)
    requires 0 < g.queries <= g.sequence && |indices| > 0 && InRange(g, indices)
    ensures FirstRead(g, left, indices) < EndRead(g, indices) <= g.sequence
  {
    var least, greatest := Least(indices, |indices|), Greatest(indices, |indices|);
    assert indices[..|indices|] == indices;
    assert least <= indices[0] <= greatest;
  }

  lemma {:induction false} RowMatches(m: Request, left: int, keys: seq<Vector>, values: seq<Vector>, dim: nat,
                                      width: nat, indices: seq<nat>, j: nat, lo: nat, hi: nat)
    requires ValidRequest(m, dim) && Uniform(keys, dim) && Uniform(values, width)
    requires |keys| == |values| == m.shape.sequence && m.shape.window == WindowOf(left)
    requires InRange(m.shape, indices) && j < |indices|
    requires lo == FirstRead(m.shape, left, indices) && hi == EndRead(m.shape, indices)
    ensures lo <= hi <= |keys|
    ensures Row(WeightsFrom(m, indices[j], keys[lo..hi], dim, lo), values[lo..hi], width)
         == Row(DenseWeights(m, indices[j], keys, dim), values, width)
  {
    ReadBounds(m.shape, left, indices);
    var x, w := WeightsFrom(m, indices[j], keys[lo..hi], dim, lo), DenseWeights(m, indices[j], keys, dim);
    forall t | 0 <= t < lo || hi <= t < |w|
      ensures w[t] == 0.0
    {
      OutOfReach(m, left, indices, j, keys[t], t);
    }
    assert forall i :: 0 <= i < hi - lo ==> w[lo + i] == x[i];
    hide ValidRequest, InRange, FirstRead, EndRead, WeightsFrom, DenseWeights, Row;
    TrimmedRow(w, x, values, lo, hi, width);
  }

  lemma {:induction false} TrimmedRow(w: seq<real>, x: seq<real>, values: seq<Vector>, lo: nat, hi: nat, width: nat)
    requires lo <= hi <= |w| == |values| && |x| == hi - lo && Uniform(values, width)
    requires forall i :: 0 <= i < hi - lo ==> w[lo + i] == x[i]
    requires forall t :: (0 <= t < lo || hi <= t < |w|) ==> w[t] == 0.0
    ensures Row(x, values[lo..hi], width) == Row(w, values, width)
  {
    Trimmed(w, x, lo, hi);
    forall c | 0 <= c < width
      ensures Attend(x, values[lo..hi], c, width) == Attend(w, values, c, width)
    {
      TrimmedTerms(w, x, values, lo, hi, c, width);
    }
  }

  lemma {:induction false} TrimmedTerms(w: seq<real>, x: seq<real>, values: seq<Vector>, lo: nat, hi: nat, c: nat,
                                        width: nat)
    requires lo <= hi <= |w| == |values| && |x| == hi - lo && Uniform(values, width) && c < width
    requires forall i :: 0 <= i < hi - lo ==> w[lo + i] == x[i]
    requires forall t :: (0 <= t < lo || hi <= t < |w|) ==> w[t] == 0.0
    ensures Total(Weighted(x, values[lo..hi], c, width)) == Total(Weighted(w, values, c, width))
  {
    Trimmed(Weighted(w, values, c, width), Weighted(x, values[lo..hi], c, width), lo, hi);
  }

  lemma {:induction false} LiveOnRow(count: nat, row: seq<int>, size: nat, lo: nat, hi: nat)
    requires size > 0 && Live(count, row, size, lo, hi)
    ensures OnRow(|row|, size, lo, hi)
  {
    forall t | lo <= t < hi
      ensures t / size < |row|
    {
      assert ValidPage(count, row, size, t);
    }
  }

  lemma {:induction false} GatheredIs(cache: Cache, row: seq<int>, size: nat, entries: seq<Vector>, dim: nat, lo: nat,
                                      hi: nat)
    requires Paged(cache, size, dim) && Holds(cache, row, size, entries, dim, lo, hi)
    ensures Live(|cache|, row, size, lo, hi)
    ensures Gathered(cache, row, size, dim, lo, hi) == entries[lo..hi]
  {
    hide Read, Paged, ValidPage;
    var found := Gathered(cache, row, size, dim, lo, hi);
    assert forall i :: 0 <= i < hi - lo ==> found[i] == Read(cache, row, size, dim, lo + i);
  }

  /** Reading only the pages the sampled windows reach gives the rows of the full-length windowed attention. */
  lemma {:induction false} SampledIsFull(m: Request, left: int, keyCache: Cache, valueCache: Cache, row: seq<int>,
                                         size: nat, keys: seq<Vector>, values: seq<Vector>, dim: nat, width: nat,
                                         indices: seq<nat>, lo: nat, hi: nat)
    requires ValidRequest(m, dim) && m.shape.window == WindowOf(left) && |indices| > 0 && InRange(m.shape, indices)
    requires size > 0 && Paged(keyCache, size, dim) && Paged(valueCache, size, width) && |keyCache| == |valueCache|
    requires |keys| == |values| == m.shape.sequence && Uniform(keys, dim) && Uniform(values, width)
    requires lo == FirstRead(m.shape, left, indices) && hi == EndRead(m.shape, indices)
    requires Holds(keyCache, row, size, keys, dim, lo, hi) && Holds(valueCache, row, size, values, width, lo, hi)
    ensures Sampled(m, left, keyCache, valueCache, row, size, dim, width, indices)
         == Ok(Full(m, keys, values, dim, width, indices))
  {
    GatheredIs(keyCache, row, size, keys, dim, lo, hi);
    GatheredIs(valueCache, row, size, values, width, lo, hi);
    var full := Full(m, keys, values, dim, width, indices);
    forall j | 0 <= j < |indices|
      ensures Row(WeightsFrom(m, indices[j], keys[lo..hi], dim, lo), values[lo..hi], width) == full[j]
    {
      RowMatches(m, left, keys, values, dim, width, indices, j, lo, hi);
    }
    forall j, c | 0 <= j < |full| && 0 <= c < |full[j]|
      ensures full[j][c].Some?
    {
      AttentionProofs.OutputExactlyWhen(m, indices[j], keys, values, dim, width, c);
    }
    LiveOnRow(|keyCache|, row, size, lo, hi);
    assert RowsFrom(m, indices, keys[lo..hi], values[lo..hi], dim, width, lo) == full;
    hide ValidRequest, Paged, Row, WeightsFrom, RowsFrom, Gathered, FirstRead, EndRead, Full, Uniform, WindowOf, Read;
  }

  /** A vector of the cache's shape at every position: what is read where it is read, zeros elsewhere. */
  function Padded(cache: Cache, row: seq<int>, size: nat, dim: nat, lo: nat, hi: nat, n: nat): (entries: seq<Vector>)
    requires Paged(cache, size, dim) && Live(|cache|, row, size, lo, hi)
    ensures |entries| == n && Uniform(entries, dim)
  {
    var entries := seq(n, t requires 0 <= t < n => Padding(cache, row, size, dim, lo, hi, t));
    assert forall t :: 0 <= t < |entries| ==> entries[t] == Padding(cache, row, size, dim, lo, hi, t);
    entries
  }

  function Padding(cache: Cache, row: seq<int>, size: nat, dim: nat, lo: nat, hi: nat, t: nat): (entry: Vector)
    requires Paged(cache, size, dim) && Live(|cache|, row, size, lo, hi)
    ensures |entry| == dim
  {
    if lo <= t < hi then Read(cache, row, size, dim, t) else seq(dim, _ => 0.0)
  }

  lemma {:induction false} PaddedHolds(cache: Cache, row: seq<int>, size: nat, dim: nat, lo: nat, hi: nat, n: nat)
    requires Paged(cache, size, dim) && Live(|cache|, row, size, lo, hi) && lo <= hi <= n
    ensures Holds(cache, row, size, Padded(cache, row, size, dim, lo, hi, n), dim, lo, hi)
  {
    hide Read, Paged, ValidPage;
    var entries := Padded(cache, row, size, dim, lo, hi, n);
    assert forall t :: lo <= t < hi ==> entries[t] == Padding(cache, row, size, dim, lo, hi, t);
  }

  /** The reference gives rows exactly when there is a query, all are in range, and every page in reach is live. */
  lemma {:induction false} SampledExactlyWhen(m: Request, left: int, keys: Cache, values: Cache, row: seq<int>,
                                              size: nat, dim: nat, width: nat, indices: seq<nat>)
    requires ValidRequest(m, dim) && m.shape.window == WindowOf(left)
    requires size > 0 && Paged(keys, size, dim) && Paged(values, size, width) && |keys| == |values|
    ensures Sampled(m, left, keys, values, row, size, dim, width, indices).Ok?
        <==> (|indices| > 0 && InRange(m.shape, indices)
              && Live(|keys|, row, size, FirstRead(m.shape, left, indices), EndRead(m.shape, indices)))
  {
    if |indices| > 0 && InRange(m.shape, indices) {
      ReadBounds(m.shape, left, indices);
      var lo, hi, n := FirstRead(m.shape, left, indices), EndRead(m.shape, indices), m.shape.sequence;
      if Live(|keys|, row, size, lo, hi) {
        PaddedHolds(keys, row, size, dim, lo, hi, n);
        PaddedHolds(values, row, size, width, lo, hi, n);
        SampledIsFull(m, left, keys, values, row, size, Padded(keys, row, size, dim, lo, hi, n),
                      Padded(values, row, size, width, lo, hi, n), dim, width, indices, lo, hi);
      }
    }
  }

  /** Nothing is read in vain at either end: some sampled query sees the first position read, some the last. */
  lemma {:induction false} EndsAreSeen(g: Shape, left: int, indices: seq<nat>)
    requires 0 < g.queries <= g.sequence && g.window == WindowOf(left) && |indices| > 0 && InRange(g, indices)
    ensures exists j :: 0 <= j < |indices| && Softmax.Sees(g, indices[j], FirstRead(g, left, indices))
    ensures exists j :: 0 <= j < |indices| && Softmax.Sees(g, indices[j], EndRead(g, indices) - 1)
    ensures forall q, t :: 0 <= q < g.queries ==>
              (Softmax.Sees(g, q, t) <==> t <= Absolute(g, q) && (left < 0 || Absolute(g, q) - t <= left))
  {
    var a: nat :| a < |indices| && indices[a] == Least(indices, |indices|);
    var b: nat :| b < |indices| && indices[b] == Greatest(indices, |indices|);
    assert Softmax.Sees(g, indices[a], FirstRead(g, left, indices));
    assert Softmax.Sees(g, indices[b], EndRead(g, indices) - 1);
  }

  /** Live pages are those the block row names among the cache's. */
  lemma {:induction false} LiveExactlyWhen(count: nat, row: seq<int>, size: nat, lo: nat, hi: nat)
    requires size > 0
    ensures Live(count, row, size, lo, hi)
       <==> forall t :: lo <= t < hi ==> t / size < |row| && !(row[t / size] < 0 || row[t / size] >= count)
  {
    forall t: nat
      ensures ValidPage(count, row, size, t) <==> t / size < |row| && !(row[t / size] < 0 || row[t / size] >= count)
    {
    }
    if Live(count, row, size, lo, hi) {
      forall t | lo <= t < hi
        ensures t / size < |row| && !(row[t / size] < 0 || row[t / size] >= count)
      {
        assert ValidPage(count, row, size, t);
      }
    }
  }

  /** Why there are no rows: no query, one out of range, a block row too short for the reach, or a page not live. */
  lemma {:induction false} RefusedExactlyWhen(m: Request, left: int, keys: Cache, values: Cache, row: seq<int>,
                                              size: nat, dim: nat, width: nat, indices: seq<nat>)
    requires ValidRequest(m, dim) && m.shape.window == WindowOf(left)
    requires size > 0 && Paged(keys, size, dim) && Paged(values, size, width) && |keys| == |values|
    ensures
      var r := Sampled(m, left, keys, values, row, size, dim, width, indices);
      && (r == Err(NoQueries) <==> indices == [])
      && (indices != [] && InRange(m.shape, indices) ==>
            && (r == Err(IndexOutOfRange)
                <==> exists t :: FirstRead(m.shape, left, indices) <= t < EndRead(m.shape, indices)
                                 && t / size >= |row|)
            && (r.Err? ==> r.error in {IndexOutOfRange, InvalidPage}))
      && (indices != [] && !InRange(m.shape, indices) ==> r == Err(IndexOutOfRange))
  {
    SampledExactlyWhen(m, left, keys, values, row, size, dim, width, indices);
    if |indices| > 0 && InRange(m.shape, indices) {
      ReadBounds(m.shape, left, indices);
      var lo, hi := FirstRead(m.shape, left, indices), EndRead(m.shape, indices);
      if Live(|keys|, row, size, lo, hi) {
        LiveOnRow(|keys|, row, size, lo, hi);
      }
      hide ValidRequest, Paged, Live, Gathered, RowsFrom, FirstRead, EndRead;
    }
  }

  // ----- The check of a ragged batch -----

  type Output = seq<Option<real>>

  /** One head of a layer: its bias and window, and its cache. */
  datatype Layer = Layer(
    exp: real -> real, extent: nat, left: int, scale: real, size: nat, dim: nat, width: nat, keys: Cache, values: Cache)

  ghost predicate ValidLayer(a: Layer) {
    && a.extent > 0 && a.size > 0 && |a.keys| == |a.values| && (forall x :: a.exp(x) > 0.0)
    && Paged(a.keys, a.size, a.dim) && Paged(a.values, a.size, a.width)
  }

  /** One request of a batch: its block row, its number of queries, which are its last positions, and its length. */
  datatype Slice = Slice(row: seq<int>, queries: nat, sequence: nat)

  ghost predicate ValidSlice(a: Layer, s: Slice) {
    s.queries <= s.sequence && (s.queries > 0 ==> Live(|a.keys|, s.row, a.size, 0, s.sequence))
  }

  ghost predicate ValidBatch(a: Layer, batch: seq<Slice>) {
    forall r :: 0 <= r < |batch| ==> ValidSlice(a, batch[r])
  }

  /** Where the rows of request `r` begin in the joined queries, biases and outputs. */
  function StartOf(batch: seq<Slice>, r: nat): nat
    requires r <= |batch|
  {
    if r == 0 then 0 else StartOf(batch, r - 1) + batch[r - 1].queries
  }

  /** The joined query and bias rows of a batch. */
  datatype Joined = Joined(q: seq<Vector>, rel: seq<seq<real>>)

  ghost predicate ValidJoined(a: Layer, j: Joined, total: nat) {
    && |j.q| >= total && |j.rel| >= total && Uniform(j.q, a.dim) && Uniform(j.rel, a.extent)
  }

  function RequestAt(a: Layer, s: Slice, j: Joined, start: nat): Request
    requires start + s.queries <= |j.q| && start + s.queries <= |j.rel|
  {
    Request(a.exp, Shape(s.sequence, s.queries, a.extent, WindowOf(a.left), a.scale), j.q[start..start + s.queries],
            j.rel[start..start + s.queries])
  }

  lemma {:induction false} RequestIsValid(a: Layer, s: Slice, j: Joined, start: nat)
    requires ValidLayer(a) && ValidSlice(a, s) && ValidJoined(a, j, start + s.queries) && s.queries > 0
    ensures ValidRequest(RequestAt(a, s, j, start), a.dim)
  {
    hide Live, Paged;
  }

  /** `torch.arange`. */
  function Upto(n: nat): (all: seq<nat>)
    ensures |all| == n && forall i :: 0 <= i < n ==> all[i] == i
  {
    seq(n, i requires 0 <= i < n => i)
  }

  /** The reference rows of one request: full-length attention over its own pages, none if it has no queries. */
  function RowsOf(a: Layer, s: Slice, j: Joined, start: nat): (rows: seq<Output>)
    requires ValidLayer(a) && ValidSlice(a, s) && ValidJoined(a, j, start + s.queries)
    ensures |rows| == s.queries
  {
    if s.queries == 0 then [] else
      RequestIsValid(a, s, j, start);
      Full(RequestAt(a, s, j, start), Gathered(a.keys, s.row, a.size, a.dim, 0, s.sequence),
           Gathered(a.values, s.row, a.size, a.width, 0, s.sequence), a.dim, a.width, Upto(s.queries))
  }

  /** The reference rows of the first `n` requests, one request after the other. */
  ghost function Reference(a: Layer, batch: seq<Slice>, j: Joined, n: nat): (rows: seq<Output>)
    requires ValidLayer(a) && ValidBatch(a, batch) && n <= |batch| && ValidJoined(a, j, StartOf(batch, n))
    ensures |rows| == StartOf(batch, n)
  {
    if n == 0 then [] else
      Reference(a, batch, j, n - 1) + RowsOf(a, batch[n - 1], j, StartOf(batch, n - 1))
  }

  lemma {:induction false} StartsGrow(batch: seq<Slice>, n: nat, m: nat)
    requires n <= m <= |batch|
    ensures StartOf(batch, n) <= StartOf(batch, m)
    ensures n < m ==> StartOf(batch, n) + batch[n].queries <= StartOf(batch, m)
  {
    if n < m {
      StartsGrow(batch, n, m - 1);
    }
  }

  lemma {:induction false} ReferenceRow(a: Layer, batch: seq<Slice>, j: Joined, n: nat, r: nat, i: nat)
    requires ValidLayer(a) && ValidBatch(a, batch) && r < n <= |batch| && ValidJoined(a, j, StartOf(batch, n))
    requires i < batch[r].queries
    ensures
      var s, start := batch[r], StartOf(batch, r);
      && start + s.queries <= StartOf(batch, n) && ValidSlice(a, s) && ValidJoined(a, j, start + s.queries)
      && Reference(a, batch, j, n)[start + i] == RowsOf(a, s, j, start)[i]
  {
    StartsGrow(batch, r, n);
    hide ValidLayer, ValidSlice, RowsOf, Uniform;
    if r < n - 1 {
      ReferenceRow(a, batch, j, n - 1, r, i);
    }
  }

  /** Query `i` of request `r` is compared with the dense attention of its own query, bias and pages. */
  lemma {:induction false} ReferenceAt(a: Layer, batch: seq<Slice>, j: Joined, n: nat, r: nat, i: nat)
    requires ValidLayer(a) && ValidBatch(a, batch) && r < n <= |batch| && ValidJoined(a, j, StartOf(batch, n))
    requires i < batch[r].queries
    ensures
      var s, start := batch[r], StartOf(batch, r);
      && start + s.queries <= StartOf(batch, n) && ValidSlice(a, s)
      && ValidRequest(RequestAt(a, s, j, start), a.dim)
      && var m: Request := RequestAt(a, s, j, start);
         m.queries[i] == j.q[start + i] && m.bias[i] == j.rel[start + i]
         && Reference(a, batch, j, n)[start + i]
            == Row(DenseWeights(m, i, Gathered(a.keys, s.row, a.size, a.dim, 0, s.sequence), a.dim),
                   Gathered(a.values, s.row, a.size, a.width, 0, s.sequence), a.width)
  {
    ReferenceRow(a, batch, j, n, r, i);
    RequestIsValid(a, batch[r], j, StartOf(batch, r));
    hide ValidLayer, ValidSlice, ValidRequest, Gathered, Row, DenseWeights, Uniform, Reference, WindowOf;
  }

  /** The largest gap over the first `n` rows is `worst`, or all of them are within the initial 0. */
  ghost predicate Worst(gap: (Vector, Output) -> real, output: seq<Vector>, reference: seq<Output>, n: nat, worst: real)
  {
    && n <= |output| && n <= |reference| && worst >= 0.0
    && (forall k :: 0 <= k < n ==> gap(output[k], reference[k]) <= worst)
    && (worst == 0.0 || exists k :: 0 <= k < n && gap(output[k], reference[k]) == worst)
  }

  lemma {:induction false} WorstNext(gap: (Vector, Output) -> real, output: seq<Vector>, reference: seq<Output>, n: nat,
                                     worst: real, more: seq<Output>)
    requires Worst(gap, output, reference, n, worst) && n == |reference| && n + |more| <= |output|
    ensures Worst(gap, output, reference + more, n, worst)
  {
    var all := reference + more;
    assert forall k :: 0 <= k < n ==> all[k] == reference[k];
    if worst != 0.0 {
      var k :| 0 <= k < n && gap(output[k], reference[k]) == worst;
      assert gap(output[k], all[k]) == worst;
    }
  }

  /** No reference row of a request holds anything but numbers. */
  lemma {:induction false} RowsFinite(a: Layer, s: Slice, j: Joined, start: nat)
    requires ValidLayer(a) && ValidSlice(a, s) && ValidJoined(a, j, start + s.queries)
    ensures Finite(RowsOf(a, s, j, start))
  {
    var rows: seq<Output> := RowsOf(a, s, j, start);
    if s.queries > 0 {
      RequestIsValid(a, s, j, start);
      var m := RequestAt(a, s, j, start);
      var keys := Gathered(a.keys, s.row, a.size, a.dim, 0, s.sequence);
      var values := Gathered(a.values, s.row, a.size, a.width, 0, s.sequence);
      hide ValidLayer, ValidSlice, ValidRequest, Gathered, ValidJoined, Uniform;
      forall i: nat, c: nat | i < |rows| && c < |rows[i]|
        ensures rows[i][c].Some?
      {
        AttentionProofs.OutputExactlyWhen(m, i, keys, values, a.dim, a.width, c);
      }
    }
  }

  /**
   `checked`: `start` walks over the requests' rows in the joined queries, biases and outputs, empty requests skipped,
   so that every output row is compared with the attention of its own request's query; none of those is not a number.
   */
  method CheckBatch(gap: (Vector, Output) -> real, a: Layer, batch: seq<Slice>, j: Joined, output: seq<Vector>)
    returns (worst: real, start: nat)
    requires ValidLayer(a) && ValidBatch(a, batch) && ValidJoined(a, j, StartOf(batch, |batch|))
    requires StartOf(batch, |batch|) <= |output|
    ensures start == StartOf(batch, |batch|)
    ensures Worst(gap, output, Reference(a, batch, j, |batch|), start, worst)
    ensures forall k, c :: 0 <= k < start && 0 <= c < |Reference(a, batch, j, |batch|)[k]| ==>
              Reference(a, batch, j, |batch|)[k][c] != None
  {
    hide *;
    worst, start := 0.0, 0;
    BatchStart(gap, a, batch, j, output);
    for r := 0 to |batch|
      invariant ValidJoined(a, j, StartOf(batch, r)) && start == StartOf(batch, r)
      invariant Worst(gap, output, Reference(a, batch, j, r), start, worst) && Finite(Reference(a, batch, j, r))
    {
      BatchNext(gap, a, batch, j, output, r, worst);
      if batch[r].queries != 0 {
        var rows := RowsOf(a, batch[r], j, start);
        worst := CheckRequest(gap, output, Reference(a, batch, j, r + 1), start, rows, worst);
        start := start + |rows|;
      }
    }
    FiniteAt(Reference(a, batch, j, |batch|));
  }

  lemma {:induction false} FiniteAt(rows: seq<Output>)
    requires Finite(rows)
    ensures forall k, c :: 0 <= k < |rows| && 0 <= c < |rows[k]| ==> rows[k][c] != None
  {
  }

  lemma {:induction false} BatchStart(gap: (Vector, Output) -> real, a: Layer, batch: seq<Slice>, j: Joined,
                                      output: seq<Vector>)
    requires ValidLayer(a) && ValidBatch(a, batch) && ValidJoined(a, j, StartOf(batch, |batch|))
    ensures StartOf(batch, 0) == 0 && ValidJoined(a, j, 0)
    ensures Worst(gap, output, Reference(a, batch, j, 0), 0, 0.0) && Finite(Reference(a, batch, j, 0))
  {
  }

  lemma {:induction false} BatchNext(gap: (Vector, Output) -> real, a: Layer, batch: seq<Slice>, j: Joined,
                                     output: seq<Vector>, r: nat, worst: real)
    requires ValidLayer(a) && ValidBatch(a, batch) && ValidJoined(a, j, StartOf(batch, |batch|))
    requires r < |batch| && StartOf(batch, |batch|) <= |output| && ValidJoined(a, j, StartOf(batch, r))
    requires Worst(gap, output, Reference(a, batch, j, r), StartOf(batch, r), worst)
    requires Finite(Reference(a, batch, j, r))
    ensures ValidSlice(a, batch[r]) && ValidJoined(a, j, StartOf(batch, r) + batch[r].queries)
    ensures StartOf(batch, r + 1) == StartOf(batch, r) + batch[r].queries
    ensures var start, next := StartOf(batch, r), Reference(a, batch, j, r + 1);
            && |next| == start + batch[r].queries <= |output| && Worst(gap, output, next, start, worst) && Finite(next)
            && forall i :: 0 <= i < batch[r].queries ==> next[start + i] == RowsOf(a, batch[r], j, start)[i]
  {
    StartsGrow(batch, r, |batch|);
    RowsFinite(a, batch[r], j, StartOf(batch, r));
    hide Worst, ValidLayer, ValidSlice, RowsOf;
    WorstNext(gap, output, Reference(a, batch, j, r), StartOf(batch, r), worst,
              RowsOf(a, batch[r], j, StartOf(batch, r)));
  }

  method CheckRequest(gap: (Vector, Output) -> real, output: seq<Vector>, ghost all: seq<Output>, start: nat,
                      rows: seq<Output>, before: real) returns (worst: real)
    requires start + |rows| == |all| <= |output| && Worst(gap, output, all, start, before)
    requires forall i :: 0 <= i < |rows| ==> all[start + i] == rows[i]
    ensures Worst(gap, output, all, start + |rows|, worst)
  {
    worst := before;
    for i := 0 to |rows|
      invariant Worst(gap, output, all, start + i, worst)
    {
      var error := gap(output[start + i], rows[i]);
      if error > worst {
        worst := error;
      }
    }
  }
}
