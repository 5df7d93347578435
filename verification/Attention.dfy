/**
 Paged attention with a learned relative bias against its dense form.

 Arithmetic is over the reals; `exp` is any positive function.  A masked position (score minus infinity) has
 weight 0, so that an output coordinate is the weighted sum of values divided by the sum of weights.
 */
module Attention {
  import opened Outcomes
  import opened Sums

  /** The numbers of one request: positions, queries (the last ones), reach of the bias, window, score scale. */
  datatype Shape = Shape(sequence: nat, queries: nat, extent: nat, window: Option<int>, scale: real)

  /** One head's request; `bias` holds a row per query. */
  datatype Request = Request(exp: real -> real, shape: Shape, queries: seq<Vector>, bias: seq<seq<real>>)

  ghost predicate ValidRequest(m: Request, dim: nat) {
    && 0 < m.shape.queries <= m.shape.sequence && m.shape.extent > 0
    && |m.queries| == |m.bias| == m.shape.queries && Uniform(m.queries, dim) && Uniform(m.bias, m.shape.extent)
    && forall x :: m.exp(x) > 0.0
  }

  /** How far a key position lies behind query `q`. */
  function Distance(g: Shape, q: nat, position: int): int {
    g.sequence - g.queries + q - position
  }

  predicate InWindow(g: Shape, distance: int) {
    distance >= 0 && (g.window.Some? ==> distance < g.window.value)
  }

  function Clamp(x: int, hi: nat): nat {
    if x < 0 then 0 else if x > hi then hi else x
  }

  /** The bias of a query at a distance: looked up at the clamped distance, used only within its extent. */
  function Bias(row: seq<real>, distance: int): real
    requires |row| > 0
  {
    var found := row[Clamp(distance, |row| - 1)];
    if 0 <= distance < |row| then found else 0.0
  }

  function Score(m: Request, q: nat, key: Vector, distance: int): real
    requires ValidRequest(m, |key|) && q < m.shape.queries
  {
    Dot(m.queries[q], key) * m.shape.scale + Bias(m.bias[q], distance)
  }

  // ----- Dense form -----

  /** The weight of a logical position for query `q`. */
  function Weight(m: Request, q: nat, key: Vector, position: int): real
    requires ValidRequest(m, |key|) && q < m.shape.queries
  {
    var distance := Distance(m.shape, q, position);
    if InWindow(m.shape, distance) then m.exp(Score(m, q, key, distance)) else 0.0
  }

  function DenseWeights(m: Request, q: nat, keys: seq<Vector>, dim: nat): (w: seq<real>)
    requires ValidRequest(m, dim) && q < m.shape.queries && Uniform(keys, dim)
    ensures |w| == |keys|
  {
    seq(|keys|, t requires 0 <= t < |keys| => Weight(m, q, keys[t], t))
  }

  /** The terms of a weighted sum of one coordinate of the values. */
  function Weighted(w: seq<real>, values: seq<Vector>, c: nat, dim: nat): (terms: seq<real>)
    requires |w| == |values| && Uniform(values, dim) && c < dim
    ensures |terms| == |w|
  {
    seq(|w|, t requires 0 <= t < |w| => w[t] * values[t][c])
  }

  /** A coordinate of an attention output; a softmax over nothing but masked positions is not a number. */
  function Attend(w: seq<real>, values: seq<Vector>, c: nat, dim: nat): Option<real>
    requires |w| == |values| && Uniform(values, dim) && c < dim
  {
    if Total(w) == 0.0 then None else Some(Total(Weighted(w, values, c, dim)) / Total(w))
  }

  // ----- Paged form -----

  /** A block table: which physical block holds each logical one, among `total` blocks of `size` slots. */
  datatype Pages = Pages(size: nat, table: seq<nat>, total: nat)

  /** The place of an offset within a block, in the flattened cache. */
  function Cell(block: int, offset: int, size: nat): int {
    block * size + offset
  }

  function Capacity(p: Pages): nat {
    p.total * p.size
  }

  predicate ValidPages(p: Pages, sequence: nat) {
    && p.size > 0 && sequence <= Cell(|p.table|, 0, p.size)
    && (forall b :: 0 <= b < |p.table| ==> p.table[b] < p.total)
    && Injective(p.table)
  }

  function Entry(p: Pages, block: nat, offset: nat): nat
    requires block < |p.table|
  {
    Cell(p.table[block], offset, p.size)
  }

  /** The slot of a logical position. */
  function Slot(p: Pages, sequence: nat, t: nat): nat
    requires ValidPages(p, sequence) && t < sequence
  {
    BlockInTable(p, sequence, t);
    Entry(p, t / p.size, t % p.size)
  }

  lemma {:induction false} BlockInTable(p: Pages, sequence: nat, t: nat)
    requires p.size > 0 && sequence <= Cell(|p.table|, 0, p.size) && t < sequence
    ensures t / p.size < |p.table|
  {
    QuotientBelow(t, |p.table|, p.size);
  }

  lemma {:induction false} QuotientBelow(x: nat, count: nat, size: nat)
    requires size > 0 && x < count * size
    ensures x / size < count
  {
    assert x == (x / size) * size + x % size;
    if count <= x / size {
      Multiplied(count, x / size, size);
    }
  }

  lemma {:induction false} SameSplit(a: nat, b: nat, i: nat, j: nat, size: nat)
    requires i < size && j < size && Cell(a, i, size) == Cell(b, j, size)
    ensures a == b && i == j
  {
    if a < b {
      Multiplied(a + 1, b, size);
    } else if b < a {
      Multiplied(b + 1, a, size);
    }
  }

  /** A slot number determines its block and its offset. */
  lemma {:induction false} Split(block: nat, offset: nat, size: nat)
    requires offset < size
    ensures Cell(block, offset, size) / size == block && Cell(block, offset, size) % size == offset
  {
    var x := Cell(block, offset, size);
    assert x == (x / size) * size + x % size;
    SameSplit(x / size, block, x % size, offset, size);
  }

  /** `inverse_table`: the logical block a physical one holds, or -1. */
  ghost predicate IsInverse(p: Pages, inverse: seq<int>) {
    && |inverse| == p.total
    && (forall b :: 0 <= b < |p.table| && p.table[b] < p.total ==> inverse[p.table[b]] == b)
    && (forall x :: 0 <= x < p.total && x !in p.table ==> inverse[x] == -1)
  }

  /** The logical position a slot appears to hold, as the mask and bias functions compute it. */
  function Logical(p: Pages, inverse: seq<int>, slot: nat): int
    requires p.size > 0 && |inverse| == p.total && slot < Capacity(p)
  {
    SlotBlock(p, slot);
    Cell(inverse[slot / p.size], slot % p.size, p.size)
  }

  lemma {:induction false} SlotBlock(p: Pages, slot: nat)
    requires p.size > 0 && slot < Capacity(p)
    ensures slot / p.size < p.total
  {
    QuotientBelow(slot, p.total, p.size);
  }

  /** `mask_mod`. */
  predicate Unmasked(g: Shape, p: Pages, inverse: seq<int>, q: nat, slot: nat)
    requires p.size > 0 && |inverse| == p.total && slot < Capacity(p)
  {
    SlotBlock(p, slot);
    && q < g.queries && inverse[slot / p.size] >= 0 && Logical(p, inverse, slot) < g.sequence
    && InWindow(g, Distance(g, q, Logical(p, inverse, slot)))
  }

  /** The weight of a physical slot, with `mask_mod` and `score_mod` applied. */
  function SlotWeight(m: Request, p: Pages, inverse: seq<int>, q: nat, key: Vector, slot: nat): real
    requires p.size > 0 && |inverse| == p.total && slot < Capacity(p)
    requires ValidRequest(m, |key|) && q < m.shape.queries
  {
    if Unmasked(m.shape, p, inverse, q, slot)
    then m.exp(Score(m, q, key, Distance(m.shape, q, Logical(p, inverse, slot))))
    else 0.0
  }

  function PagedWeights(m: Request, p: Pages, inverse: seq<int>, q: nat, keys: seq<Vector>, dim: nat): (w: seq<real>)
    requires p.size > 0 && |inverse| == p.total && |keys| == Capacity(p)
    requires ValidRequest(m, dim) && q < m.shape.queries && Uniform(keys, dim)
    ensures |w| == |keys|
  {
    seq(|keys|, s requires 0 <= s < |keys| => SlotWeight(m, p, inverse, q, keys[s], s))
  }

  // ----- Filling the cache and the inverse table -----

  lemma {:induction false} SlotInRange(p: Pages, sequence: nat, t: nat)
    requires ValidPages(p, sequence) && t < sequence
    ensures Slot(p, sequence, t) < Capacity(p)
  {
    BlockInTable(p, sequence, t);
    Multiplied(p.table[t / p.size] + 1, p.total, p.size);
  }

  lemma {:induction false} SameEntry(p: Pages, a: nat, b: nat, i: nat, j: nat)
    requires a < |p.table| && b < |p.table| && i < p.size && j < p.size && Injective(p.table)
    ensures Entry(p, a, i) == Entry(p, b, j) ==> a == b && i == j
  {
    if Entry(p, a, i) == Entry(p, b, j) {
      SameSplit(p.table[a], p.table[b], i, j, p.size);
    }
  }

  lemma {:induction false} Whole(t: nat, size: nat)
    requires size > 0
    ensures Cell(t / size, t % size, size) == t
  {
    assert t == (t / size) * size + t % size;
  }

  lemma {:induction false} SameQuotient(t: nat, u: nat, size: nat)
    requires size > 0 && t / size == u / size && t % size == u % size
    ensures t == u
  {
    assert t == (t / size) * size + t % size && u == (u / size) * size + u % size;
  }

  lemma {:induction false} SamePosition(p: Pages, t: nat, u: nat)
    requires p.size > 0 && t / p.size < |p.table| && u / p.size < |p.table| && Injective(p.table)
    ensures Entry(p, t / p.size, t % p.size) == Entry(p, u / p.size, u % p.size) ==> t == u
  {
    hide *;
    SameEntry(p, t / p.size, u / p.size, t % p.size, u % p.size);
    if t / p.size == u / p.size && t % p.size == u % p.size {
      SameQuotient(t, u, p.size);
    }
  }

  /** No two positions share a slot. */
  lemma {:induction false} SlotsDistinct(p: Pages, sequence: nat, t: nat, u: nat)
    requires ValidPages(p, sequence) && t < sequence && u < sequence
    ensures Slot(p, sequence, t) == Slot(p, sequence, u) ==> t == u
  {
    BlockInTable(p, sequence, t);
    BlockInTable(p, sequence, u);
    hide Entry, Injective;
    SamePosition(p, t, u);
  }

  /** The fill loop: every position's entry is in its slot, and all other slots are as they were. */
  method FillCache<T>(p: Pages, entries: seq<T>, cache: array<T>)
    requires ValidPages(p, |entries|) && cache.Length == Capacity(p)
    modifies cache
    ensures forall t :: 0 <= t < |entries| ==> Slot(p, |entries|, t) < cache.Length
    ensures forall t :: 0 <= t < |entries| ==> cache[Slot(p, |entries|, t)] == entries[t]
    ensures forall s :: 0 <= s < cache.Length && (forall t :: 0 <= t < |entries| ==> Slot(p, |entries|, t) != s)
              ==> cache[s] == old(cache[s])
  {
    var n := |entries|;
    forall t | 0 <= t < n
      ensures Slot(p, n, t) < cache.Length
    {
      SlotInRange(p, n, t);
    }
    forall t, u | 0 <= t < n && 0 <= u < n && Slot(p, n, t) == Slot(p, n, u)
      ensures t == u
    {
      SlotsDistinct(p, n, t, u);
    }
    hide Slot, ValidPages;
    for i := 0 to n
      invariant forall t :: 0 <= t < i ==> cache[Slot(p, n, t)] == entries[t]
      invariant forall s :: 0 <= s < cache.Length && (forall t :: 0 <= t < n ==> Slot(p, n, t) != s)
                  ==> cache[s] == old(cache[s])
    {
      cache[Slot(p, n, i)] := entries[i];
    }
  }

  method InvertTable(p: Pages) returns (inverse: array<int>)
    requires (forall b :: 0 <= b < |p.table| ==> p.table[b] < p.total) && Injective(p.table)
    ensures fresh(inverse) && IsInverse(p, inverse[..])
  {
    inverse := new int[p.total](_ => -1);
    for b := 0 to |p.table|
      invariant forall i :: 0 <= i < b ==> inverse[p.table[i]] == i
      invariant forall x :: 0 <= x < p.total && x !in p.table ==> inverse[x] == -1
    {
      inverse[p.table[b]] := b;
    }
  }
}
