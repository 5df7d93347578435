/** Attention through a block table computes what the dense form computes. */
module AttentionProofs {
  import opened Sums
  import opened Attention

  // ----- Paged is dense -----

  /** Every position's entry is in its slot, as the fill loop leaves it; the other slots hold anything. */
  ghost predicate Filled<T(!new)>(p: Pages, entries: seq<T>, cache: seq<T>) {
    && ValidPages(p, |entries|) && |cache| == Capacity(p)
    && forall t :: 0 <= t < |entries| ==> Slot(p, |entries|, t) < |cache| && cache[Slot(p, |entries|, t)] == entries[t]
  }

  function Slots(p: Pages, n: nat): (phi: seq<nat>)
    requires ValidPages(p, n)
    ensures |phi| == n && forall t :: 0 <= t < n ==> phi[t] == Slot(p, n, t)
  {
    seq(n, t requires 0 <= t < n => Slot(p, n, t))
  }

  /** A live slot knows its position. */
  lemma {:induction false} LogicalOfSlot(p: Pages, inverse: seq<int>, n: nat, t: nat)
    requires ValidPages(p, n) && IsInverse(p, inverse) && t < n
    ensures Slot(p, n, t) < Capacity(p) && Slot(p, n, t) / p.size < p.total
    ensures Logical(p, inverse, Slot(p, n, t)) == t && inverse[Slot(p, n, t) / p.size] >= 0
  {
    SlotInRange(p, n, t);
    BlockInTable(p, n, t);
    hide Cell, Capacity;
    Split(p.table[t / p.size], t % p.size, p.size);
    Whole(t, p.size);
  }

  /** A slot that is no position's is masked: its block is free, or it lies past the end of the sequence. */
  lemma {:induction false} StaleSlot(p: Pages, inverse: seq<int>, n: nat, slot: nat)
    requires ValidPages(p, n) && IsInverse(p, inverse) && slot < Capacity(p) && slot !in Slots(p, n)
    ensures slot / p.size < p.total
    ensures inverse[slot / p.size] < 0 || Logical(p, inverse, slot) >= n
  {
    hide Cell, Capacity;
    SlotBlock(p, slot);
    Whole(slot, p.size);
    var x, i := slot / p.size, slot % p.size;
    if x in p.table {
      var b: nat :| b < |p.table| && p.table[b] == x;
      LiveOrPast(p, n, b, i);
    }
  }

  lemma {:induction false} LiveOrPast(p: Pages, n: nat, b: nat, i: nat)
    requires ValidPages(p, n) && b < |p.table| && i < p.size
    ensures Cell(b, i, p.size) >= n || Entry(p, b, i) in Slots(p, n)
  {
    hide Capacity;
    var t := Cell(b, i, p.size);
    hide Cell;
    Split(b, i, p.size);
    if t < n {
      assert Slots(p, n)[t] == Entry(p, b, i);
    }
  }

  /** A term per slot that repeats each position's term at its slot and vanishes elsewhere adds up to the same. */
  lemma {:induction false} TotalOverSlots(p: Pages, paged: seq<real>, dense: seq<real>)
    requires ValidPages(p, |dense|)
    requires forall t :: 0 <= t < |dense| ==> Slot(p, |dense|, t) < |paged| && paged[Slot(p, |dense|, t)] == dense[t]
    requires forall s :: 0 <= s < |paged| && s !in Slots(p, |dense|) ==> paged[s] == 0.0
    ensures Total(paged) == Total(dense)
  {
    var phi := Slots(p, |dense|);
    SlotsInjective(p, |dense|);
    hide Slot, ValidPages, Slots, Injective;
    SumAlong(paged, phi);
    assert Gather(paged, phi) == dense;
  }

  lemma {:induction false} SlotsInjective(p: Pages, n: nat)
    requires ValidPages(p, n)
    ensures Injective(Slots(p, n))
  {
    hide ValidPages, Slot;
    var phi := Slots(p, n);
    forall i, j | 0 <= i < j < n
      ensures phi[i] != phi[j]
    {
      if phi[i] == phi[j] {
        SlotsDistinct(p, n, i, j);
      }
    }
  }

  /** One head's request, its keys and values by position, and the same in a paged cache. */
  ghost predicate SameData(m: Request, p: Pages, inverse: seq<int>, keys: seq<Vector>, values: seq<Vector>,
                           pagedKeys: seq<Vector>, pagedValues: seq<Vector>, dim: nat, width: nat) {
    && ValidRequest(m, dim) && |keys| == |values| == m.shape.sequence && IsInverse(p, inverse)
    && Filled(p, keys, pagedKeys) && Filled(p, values, pagedValues)
    && Uniform(keys, dim) && Uniform(pagedKeys, dim) && Uniform(values, width) && Uniform(pagedValues, width)
  }

  lemma {:induction false} WeightAtSlot(m: Request, p: Pages, inverse: seq<int>, q: nat, key: Vector, t: nat)
    requires ValidRequest(m, |key|) && q < m.shape.queries && t < m.shape.sequence
    requires ValidPages(p, m.shape.sequence) && IsInverse(p, inverse)
    ensures Slot(p, m.shape.sequence, t) < Capacity(p)
    ensures SlotWeight(m, p, inverse, q, key, Slot(p, m.shape.sequence, t)) == Weight(m, q, key, t)
  {
    LogicalOfSlot(p, inverse, m.shape.sequence, t);
    hide Slot, Logical, ValidPages, IsInverse, ValidRequest, Score, Distance, InWindow;
  }

  lemma {:induction false} StaleHasNoWeight(m: Request, p: Pages, inverse: seq<int>, q: nat, key: Vector, slot: nat)
    requires ValidRequest(m, |key|) && q < m.shape.queries && slot < Capacity(p)
    requires ValidPages(p, m.shape.sequence) && IsInverse(p, inverse) && slot !in Slots(p, m.shape.sequence)
    ensures SlotWeight(m, p, inverse, q, key, slot) == 0.0
  {
    StaleSlot(p, inverse, m.shape.sequence, slot);
    hide Slot, Slots, Logical, ValidPages, IsInverse, ValidRequest, Score, Distance, InWindow;
  }

  lemma {:induction false} PagedWeightsMatch(m: Request, p: Pages, inverse: seq<int>, q: nat, keys: seq<Vector>,
                                             pagedKeys: seq<Vector>, dim: nat)
    requires ValidRequest(m, dim) && q < m.shape.queries && |keys| == m.shape.sequence && IsInverse(p, inverse)
    requires Filled(p, keys, pagedKeys) && Uniform(keys, dim) && Uniform(pagedKeys, dim)
    ensures Total(PagedWeights(m, p, inverse, q, pagedKeys, dim)) == Total(DenseWeights(m, q, keys, dim))
  {
    var w, d := PagedWeights(m, p, inverse, q, pagedKeys, dim), DenseWeights(m, q, keys, dim);
    forall t | 0 <= t < |keys|
      ensures Slot(p, |keys|, t) < |w| && w[Slot(p, |keys|, t)] == d[t]
    {
      WeightAtSlot(m, p, inverse, q, keys[t], t);
    }
    forall s | 0 <= s < |w| && s !in Slots(p, |keys|)
      ensures w[s] == 0.0
    {
      StaleHasNoWeight(m, p, inverse, q, pagedKeys[s], s);
    }
    TotalOverSlots(p, w, d);
  }

  lemma {:induction false} PagedTermsMatch(m: Request, p: Pages, inverse: seq<int>, q: nat, keys: seq<Vector>,
                                           values: seq<Vector>, pagedKeys: seq<Vector>, pagedValues: seq<Vector>,
                                           dim: nat, width: nat, c: nat)
    requires SameData(m, p, inverse, keys, values, pagedKeys, pagedValues, dim, width)
    requires q < m.shape.queries && c < width
    ensures Total(Weighted(PagedWeights(m, p, inverse, q, pagedKeys, dim), pagedValues, c, width))
         == Total(Weighted(DenseWeights(m, q, keys, dim), values, c, width))
  {
    var w, d := PagedWeights(m, p, inverse, q, pagedKeys, dim), DenseWeights(m, q, keys, dim);
    var x, y := Weighted(w, pagedValues, c, width), Weighted(d, values, c, width);
    hide Weight, SlotWeight, Slot, Slots, IsInverse;
    forall t | 0 <= t < |keys|
      ensures Slot(p, |keys|, t) < |w| && x[Slot(p, |keys|, t)] == y[t]
    {
      WeightAtSlot(m, p, inverse, q, keys[t], t);
    }
    forall s | 0 <= s < |w| && s !in Slots(p, |keys|)
      ensures x[s] == 0.0
    {
      StaleHasNoWeight(m, p, inverse, q, pagedKeys[s], s);
    }
    TotalOverSlots(p, x, y);
  }

  /** Attention through the block table is attention over the positions, whatever stale slots hold. */
  lemma {:induction false} PagedIsDense(m: Request, p: Pages, inverse: seq<int>, q: nat, keys: seq<Vector>,
                                        values: seq<Vector>, pagedKeys: seq<Vector>, pagedValues: seq<Vector>,
                                        dim: nat, width: nat, c: nat)
    requires SameData(m, p, inverse, keys, values, pagedKeys, pagedValues, dim, width)
    requires q < m.shape.queries && c < width
    ensures Attend(PagedWeights(m, p, inverse, q, pagedKeys, dim), pagedValues, c, width)
         == Attend(DenseWeights(m, q, keys, dim), values, c, width)
  {
    PagedWeightsMatch(m, p, inverse, q, keys, pagedKeys, dim);
    PagedTermsMatch(m, p, inverse, q, keys, values, pagedKeys, pagedValues, dim, width, c);
    hide PagedWeights, DenseWeights, Weighted, Total, Filled, ValidRequest, Uniform, IsInverse;
  }

  /** The output is a number exactly when the window, if there is one, lets a query see itself. */
  lemma {:induction false} OutputExactlyWhen(m: Request, q: nat, keys: seq<Vector>, values: seq<Vector>,
                                             dim: nat, width: nat, c: nat)
    requires ValidRequest(m, dim) && |keys| == |values| == m.shape.sequence && Uniform(keys, dim)
    requires Uniform(values, width) && q < m.shape.queries && c < width
    ensures Attend(DenseWeights(m, q, keys, dim), values, c, width).Some?
        <==> (m.shape.window.Some? ==> m.shape.window.value > 0)
  {
    var w := DenseWeights(m, q, keys, dim);
    var own: nat := m.shape.sequence - m.shape.queries + q;
    assert w[own] == Weight(m, q, keys[own], own);
    if m.shape.window.Some? && m.shape.window.value <= 0 {
      SumOfZeros(w, |w|);
    } else {
      SumNonNegative(w, |w|);
      assert w[own] > 0.0;
    }
  }
}
