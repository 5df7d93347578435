/** Assembling one verified artifact per tensor-parallel rank into an aggregate. */
module RankSet {
  import opened Octets
  import opened Outcomes
  import opened Artifacts
  import opened ArtifactReader
  import opened ArtifactSoundness
  import opened Multiplicity

  datatype ArtifactId = Activation(prefix: Digest) | RankSetId(prefix: Digest)

  datatype Reference = Reference(
    id: ArtifactId, sha: Digest, path: Digest, state: Completeness, rank: int, worldSize: int)

  /** The first twenty characters of a digest, or all of a shorter one. */
  function Short(digest: Digest): (short: Digest)
    ensures short <= digest && (|short| == 20 || (|short| < 20 && short == digest))
  {
    if |digest| <= 20 then digest else digest[..20]
  }

  // ----- Alignment keys -----

  datatype Layout =
    | TensorLayout(dtype: Dtype, shape: seq<int>, globalShape: Option<seq<int>>, shardAxis: Option<int>)
    | StatisticsLayout

  datatype Key = Key(
    selectorId: string, probeId: string, kind: ModuleKind, layer: int, tokenStart: int, tokenCount: int,
    eventSequence: int, phase: string, boundary: string, layout: Layout)

  const DEFAULT_BOUNDARY := "module-value"

  function LayerOr(layer: Option<int>): (n: int)
    ensures n == -1 <==> layer in {None, Some(-1)}
  {
    if layer.Some? then layer.value else -1
  }

  function BoundaryOr(boundary: Option<string>): string {
    if boundary.Some? then boundary.value else DEFAULT_BOUNDARY
  }

  /** Runtime metadata has no key: its event counts may differ from rank to rank. */
  function TensorKey(t: Tensor): multiset<Key> {
    var d := t.descriptor;
    if d.kind.RuntimeMetadata? then multiset{}
    else multiset{Key(d.selectorId, d.probeId, d.kind, LayerOr(d.layer), d.tokenStart, d.tokenCount, d.eventSequence,
                      d.phase, BoundaryOr(d.boundary), TensorLayout(d.dtype, d.shape, d.globalShape, d.shardAxis))}
  }

  function RecordKey(k: StatisticsKey): multiset<Key> {
    if k.kind.RuntimeMetadata? then multiset{}
    else multiset{Key(k.selectorId, k.probeId, k.kind, LayerOr(k.layer), k.tokenStart, k.tokenCount, k.eventSequence,
                      k.phase, BoundaryOr(k.boundary), StatisticsLayout)}
  }

  function TensorKeys(tensors: seq<Tensor>, n: nat): multiset<Key>
    requires n <= |tensors|
  {
    if n == 0 then multiset{} else TensorKeys(tensors, n - 1) + TensorKey(tensors[n - 1])
  }

  predicate Keyed(records: seq<Record>) {
    forall i :: 0 <= i < |records| ==> records[i].key.Some?
  }

  function RecordKeys(records: seq<Record>, n: nat): multiset<Key>
    requires n <= |records| && Keyed(records)
  {
    if n == 0 then multiset{} else RecordKeys(records, n - 1) + RecordKey(records[n - 1].key.value)
  }

  /** The alignment keys of a manifest, counted. */
  function Alignment(m: Manifest): multiset<Key>
    requires Keyed(m.statistics)
  {
    TensorKeys(m.tensors, |m.tensors|) + RecordKeys(m.statistics, |m.statistics|)
  }

  method AlignmentKeys(m: Manifest) returns (keys: Option<multiset<Key>>)
    ensures keys.Some? <==> Keyed(m.statistics)
    ensures keys.Some? ==> keys.value == Alignment(m)
  {
    hide TensorKey, RecordKey;
    var counter: multiset<Key> := multiset{};
    for i := 0 to |m.tensors|
      invariant counter == TensorKeys(m.tensors, i)
    {
      counter := counter + TensorKey(m.tensors[i]);
    }
    var j := 0;
    while j < |m.statistics|
      invariant j <= |m.statistics| && Keyed(m.statistics[..j])
      invariant Keyed(m.statistics)
            ==> counter == TensorKeys(m.tensors, |m.tensors|) + RecordKeys(m.statistics, j)
    {
      if m.statistics[j].key == None {
        return None;
      }
      counter := counter + RecordKey(m.statistics[j].key.value);
      j := j + 1;
    }
    assert m.statistics[..j] == m.statistics;
    keys := Some(counter);
  }

  // ----- What takes part in the alignment -----

  /** What ranks have to agree on in a tensor: everything but its id, its rank and the rank count. */
  function Shared(d: Descriptor): Descriptor {
    d.(tensorId := "", rank := 0, worldSize := 1, boundary := Named(d.boundary))
  }

  /** A boundary that is not named is the module's value. */
  function Named(boundary: Option<string>): Option<string> {
    match boundary
    case None => Some("module-value")
    case Some(name) => boundary
  }

  /** Two tensors count as one exactly when both are runtime metadata, or neither is and the shared part is equal. */
  lemma {:induction false} SameKeyExactlyWhen(t: Tensor, u: Tensor)
    requires ValidDescriptor(t.descriptor) && ValidDescriptor(u.descriptor)
    ensures
      TensorKey(t) == TensorKey(u)
      <==> if t.descriptor.kind == RuntimeMetadata then u.descriptor.kind == RuntimeMetadata
           else Shared(t.descriptor) == Shared(u.descriptor)
  {
    hide Product;
    if TensorKey(t) == TensorKey(u) && t.descriptor.kind != RuntimeMetadata {
      var key :| key in TensorKey(t);
      assert key in TensorKey(u);
    }
  }

  /** The same for statistics records, where no rank and no id is recorded; none counts as a tensor. */
  lemma {:induction false} RecordKeyExactlyWhen(a: StatisticsKey, b: StatisticsKey, t: Tensor)
    requires (a.layer.Some? ==> a.layer.value >= 0) && (b.layer.Some? ==> b.layer.value >= 0)
    ensures
      RecordKey(a) == RecordKey(b)
      <==> if a.kind == RuntimeMetadata then b.kind == RuntimeMetadata
           else a.(boundary := Named(a.boundary)) == b.(boundary := Named(b.boundary))
    ensures RecordKey(a) * TensorKey(t) == multiset{}
  {
    if RecordKey(a) == RecordKey(b) && a.kind != RuntimeMetadata {
      var key :| key in RecordKey(a);
      assert key in RecordKey(b);
    }
  }

  lemma {:induction false} OneMoreKey(m: Manifest, t: Tensor)
    requires Keyed(m.statistics)
    ensures Alignment(m.(tensors := m.tensors + [t])) == Alignment(m) + TensorKey(t)
    ensures |Alignment(m.(tensors := m.tensors + [t]))| == |Alignment(m)| + |TensorKey(t)|
  {
    hide TensorKey, RecordKeys;
    TensorKeysPrefix(m.tensors, [t], |m.tensors|);
  }

  /** One more tensor breaks the agreement exactly when it is not runtime metadata. */
  lemma {:induction false} OneMoreTensor(a: Manifest, b: Manifest, t: Tensor)
    requires Agree(a, b)
    ensures Agree(a, b.(tensors := b.tensors + [t])) <==> t.descriptor.kind == RuntimeMetadata
  {
    OneMoreKey(b, t);
    hide Alignment;
    assert |TensorKey(t)| == 0 <==> TensorKey(t) == multiset{};
  }

  /** So does one more statistics record. */
  lemma {:induction false} OneMoreRecord(a: Manifest, b: Manifest, record: Record)
    requires Agree(a, b)
    ensures Agree(a, b.(statistics := b.statistics + [record]))
       <==> record.key.Some? && record.key.value.kind == RuntimeMetadata
  {
    var more := b.(statistics := b.statistics + [record]);
    assert more.statistics[|b.statistics|] == record;
    if record.key.Some? {
      assert forall i :: 0 <= i < |b.statistics| ==> more.statistics[i] == b.statistics[i];
      OneMoreRecordKey(b, record);
      hide Alignment, Keyed;
      assert |RecordKey(record.key.value)| == 0 <==> RecordKey(record.key.value) == multiset{};
    }
  }

  lemma {:induction false} OneMoreRecordKey(m: Manifest, record: Record)
    requires Keyed(m.statistics) && Keyed(m.statistics + [record]) && record.key.Some?
    ensures Alignment(m.(statistics := m.statistics + [record])) == Alignment(m) + RecordKey(record.key.value)
    ensures |Alignment(m.(statistics := m.statistics + [record]))| == |Alignment(m)| + |RecordKey(record.key.value)|
  {
    hide RecordKey, TensorKeys;
    RecordKeysPrefix(m.statistics, [record], |m.statistics|);
  }

  lemma {:induction false} RecordKeysPrefix(a: seq<Record>, b: seq<Record>, n: nat)
    requires n <= |a| && Keyed(a) && Keyed(a + b)
    ensures RecordKeys(a + b, n) == RecordKeys(a, n)
  {
    if n > 0 {
      RecordKeysPrefix(a, b, n - 1);
    }
  }

  // ----- Order of tensors and records does not matter -----

  lemma {:induction false} TensorKeysPrefix(a: seq<Tensor>, b: seq<Tensor>, n: nat)
    requires n <= |a|
    ensures TensorKeys(a + b, n) == TensorKeys(a, n)
  {
    if n > 0 {
      TensorKeysPrefix(a, b, n - 1);
    }
  }

  lemma {:induction false} TensorKeysConcat(a: seq<Tensor>, b: seq<Tensor>, n: nat)
    requires n <= |b|
    ensures TensorKeys(a + b, |a| + n) == TensorKeys(a, |a|) + TensorKeys(b, n)
  {
    if n == 0 {
      TensorKeysPrefix(a, b, |a|);
    } else {
      hide TensorKey;
      assert (a + b)[|a| + n - 1] == b[n - 1];
      TensorKeysConcat(a, b, n - 1);
    }
  }

  lemma {:induction false} TensorKeysWithout(a: seq<Tensor>, t: Tensor, b: seq<Tensor>)
    ensures
      var all, rest := a + [t] + b, a + b;
      TensorKeys(all, |all|) == TensorKeys(rest, |rest|) + TensorKey(t)
  {
    hide TensorKey;
    assert TensorKeys([t], 1) == TensorKeys([t], 0) + TensorKey(t);
    TensorKeysConcat(a, [t], 1);
    TensorKeysConcat(a + [t], b, |b|);
    TensorKeysConcat(a, b, |b|);
  }

  lemma {:induction false} TensorKeysLast(a: seq<Tensor>)
    requires |a| > 0
    ensures TensorKeys(a, |a|) == TensorKeys(a[..|a| - 1], |a| - 1) + TensorKey(a[|a| - 1])
  {
    assert a == a[..|a| - 1] + [a[|a| - 1]];
    TensorKeysPrefix(a[..|a| - 1], [a[|a| - 1]], |a| - 1);
  }

  /** Reordering the tensor table leaves the alignment as it is. */
  lemma {:induction false} TensorOrderIrrelevant(a: seq<Tensor>, b: seq<Tensor>)
    requires multiset(a) == multiset(b)
    ensures TensorKeys(a, |a|) == TensorKeys(b, |b|)
    decreases |a|
  {
    assert |a| == |multiset(a)| == |multiset(b)| == |b|;
    if |a| > 0 {
      var i := Elsewhere(a, b);
      var a', b', last := a[..|a| - 1], b[..i] + b[i + 1..], a[|a| - 1];
      hide *;
      TensorOrderIrrelevant(a', b');
      TensorKeysWithout(b[..i], last, b[i + 1..]);
      TensorKeysLast(a);
    }
  }

  /** The last element of one sequence found in another with the same elements. */
  lemma {:induction false} Elsewhere<T>(a: seq<T>, b: seq<T>) returns (i: nat)
    requires |a| > 0 && multiset(a) == multiset(b)
    ensures i < |b| && b == b[..i] + [a[|a| - 1]] + b[i + 1..]
    ensures multiset(a[..|a| - 1]) == multiset(b[..i] + b[i + 1..])
  {
    var last := a[|a| - 1];
    assert a == a[..|a| - 1] + [last];
    assert last in multiset(b);
    i :| 0 <= i < |b| && b[i] == last;
    assert b == b[..i] + [b[i]] + b[i + 1..];
    assert multiset(b) == multiset(b[..i]) + multiset{last} + multiset(b[i + 1..]);
    assert multiset(a) == multiset(a[..|a| - 1]) + multiset{last};
    assert multiset(a[..|a| - 1]) == multiset(a) - multiset{last};
    assert multiset(b[..i] + b[i + 1..]) == multiset(b[..i]) + multiset(b[i + 1..]) == multiset(b) - multiset{last};
  }

  // ----- Assembly -----

  datatype Aggregate = Aggregate(
    runId: string, runRef: RunRef, profileId: string, worldSize: int, barrierId: string,
    references: seq<Reference>, alignment: multiset<Key>)

  /** Ordering the references by rank, equal ranks in their given order. */
  function Insert(r: Reference, sorted: seq<Reference>): seq<Reference> {
    if sorted == [] || r.rank <= sorted[0].rank then [r] + sorted else [sorted[0]] + Insert(r, sorted[1..])
  }

  function SortByRank(refs: seq<Reference>): seq<Reference> {
    if refs == [] then [] else Insert(refs[0], SortByRank(refs[1..]))
  }

  predicate Ascending(refs: seq<Reference>) {
    forall i :: 0 < i < |refs| ==> refs[i - 1].rank <= refs[i].rank
  }

  lemma {:induction false} InsertSorts(r: Reference, sorted: seq<Reference>)
    requires Ascending(sorted)
    ensures Ascending(Insert(r, sorted)) && multiset(Insert(r, sorted)) == multiset(sorted) + multiset{r}
    ensures Insert(r, sorted)[0].rank == if sorted == [] || r.rank <= sorted[0].rank then r.rank else sorted[0].rank
  {
    if !(sorted == [] || r.rank <= sorted[0].rank) {
      var rest := sorted[1..];
      assert sorted == [sorted[0]] + rest;
      forall i | 0 < i < |rest|
        ensures rest[i - 1].rank <= rest[i].rank
      {
        assert sorted[i].rank <= sorted[i + 1].rank;
      }
      InsertSorts(r, rest);
    }
  }

  lemma {:induction false} SortSorts(refs: seq<Reference>)
    ensures Ascending(SortByRank(refs)) && multiset(SortByRank(refs)) == multiset(refs)
    ensures |SortByRank(refs)| == |refs|
  {
    if refs != [] {
      hide Insert, Ascending;
      SortSorts(refs[1..]);
      InsertSorts(refs[0], SortByRank(refs[1..]));
      assert refs == [refs[0]] + refs[1..];
    }
    assert |multiset(SortByRank(refs))| == |multiset(refs)|;
  }

  /** Every rank from 0 on has one reference, and no other rank has any. */
  ghost predicate OnePerRank(refs: seq<Reference>) {
    && (forall i :: 0 <= i < |refs| ==> 0 <= refs[i].rank < |refs|)
    && (forall i, j :: 0 <= i < j < |refs| ==> refs[i].rank != refs[j].rank)
  }

  predicate InRankOrder(refs: seq<Reference>) {
    forall i :: 0 <= i < |refs| ==> refs[i].rank == i
  }

  /** Distinct ascending ranks below n climb at least by one each, so they are 0 to n - 1. */
  lemma {:induction false} RanksClimb(refs: seq<Reference>, i: nat, n: nat)
    requires OnePerRank(refs) && Ascending(refs) && i < n == |refs|
    ensures i <= refs[i].rank && refs[i].rank + (n - 1 - i) <= n - 1
    decreases n - 1 - i
  {
    ClimbFromZero(refs, i);
    if i + 1 < n {
      RanksClimb(refs, i + 1, n);
      assert refs[i].rank <= refs[i + 1].rank && refs[i].rank != refs[i + 1].rank;
    }
  }

  lemma {:induction false} ClimbFromZero(refs: seq<Reference>, i: nat)
    requires OnePerRank(refs) && Ascending(refs) && i < |refs|
    ensures i <= refs[i].rank
  {
    if i > 0 {
      ClimbFromZero(refs, i - 1);
      assert refs[i - 1].rank <= refs[i].rank && refs[i - 1].rank != refs[i].rank;
    }
  }

  /** Two positions with equal elements, carried over to a rearrangement. */
  lemma {:induction false} OnePerRankRearranged(a: seq<Reference>, b: seq<Reference>)
    requires multiset(a) == multiset(b) && OnePerRank(a)
    ensures OnePerRank(b)
  {
    assert |a| == |multiset(a)| == |multiset(b)| == |b|;
    forall i | 0 <= i < |b|
      ensures b[i] in a
    {
      assert b[i] in multiset(b);
    }
    forall i, j | 0 <= i < j < |b|
      ensures b[i].rank != b[j].rank
    {
      if b[i].rank == b[j].rank {
        var p :| 0 <= p < |a| && a[p] == b[i];
        var q :| 0 <= q < |a| && a[q] == b[j];
        assert b[i] == b[j];
        CountsTwice(b, i, j);
        CountsOnce(a, p);
      }
    }
  }

  /** Sorted by rank, the references are in rank order exactly when there is one per rank. */
  lemma {:induction false} SortedExactlyWhen(refs: seq<Reference>)
    ensures InRankOrder(SortByRank(refs)) <==> OnePerRank(refs)
  {
    var sorted := SortByRank(refs);
    SortSorts(refs);
    if OnePerRank(refs) {
      OnePerRankRearranged(refs, sorted);
      forall i | 0 <= i < |sorted|
        ensures sorted[i].rank == i
      {
        RanksClimb(sorted, i, |sorted|);
      }
    }
    if InRankOrder(sorted) {
      OnePerRankRearranged(sorted, refs);
    }
  }

  /** With one reference per rank, the order in which they are given does not matter. */
  lemma {:induction false} SortIgnoresOrder(a: seq<Reference>, b: seq<Reference>)
    requires multiset(a) == multiset(b) && OnePerRank(a)
    ensures SortByRank(a) == SortByRank(b)
  {
    OnePerRankRearranged(a, b);
    SortedExactlyWhen(a);
    SortedExactlyWhen(b);
    SortSorts(a);
    SortSorts(b);
    var x, y := SortByRank(a), SortByRank(b);
    assert |x| == |multiset(a)| == |multiset(b)| == |y|;
    forall i | 0 <= i < |x|
      ensures x[i] == y[i]
    {
      assert x[i] in multiset(y);
      var j :| 0 <= j < |y| && y[j] == x[i];
    }
  }

  /** The reference names a stored, complete, acknowledged artifact of its rank that verifies. */
  predicate Genuine(env: Env, store: Store, r: Reference, worldSize: int) {
    && r.worldSize == worldSize && r.state.Complete?
    && r.sha == r.path && r.id == Activation(Short(r.sha))
    && r.path in store
    && var m := store[r.path].manifest;
    && m.rank == r.rank && m.worldSize == worldSize && m.state.Complete?
    && m.barrier.preFinalize && m.barrier.postFlush
    && Verify(env, store[r.path], r.path).failure == None
  }

  /** Two manifests belong to the same run, profile and barrier, and record the same events. */
  predicate Agree(a: Manifest, b: Manifest) {
    && a.runId == b.runId && a.runRef == b.runRef && a.profileId == b.profileId && a.barrier.id == b.barrier.id
    && Keyed(a.statistics) && Keyed(b.statistics) && Alignment(a) == Alignment(b)
  }

  /** What a rank set takes, said without any order: one genuine artifact per rank, all pairs agreeing. */
  ghost predicate Assemblable(env: Env, store: Store, refs: seq<Reference>) {
    && refs != [] && OnePerRank(refs)
    && (forall i :: 0 <= i < |refs| ==> Genuine(env, store, refs[i], |refs|))
    && (forall i, j :: 0 <= i < |refs| && 0 <= j < |refs| ==>
          Agree(store[refs[i].path].manifest, store[refs[j].path].manifest))
  }

  /** A genuine reference is made of its digest and rank, and stands for a sound, complete artifact of its rank. */
  lemma {:induction false} GenuineExactlyWhen(env: Env, store: Store, r: Reference, worldSize: int)
    ensures
      Genuine(env, store, r, worldSize)
      <==>
      && r == Reference(Activation(if |r.sha| < 20 then r.sha else r.sha[..20]), r.sha, r.sha, Complete, r.rank,
                        worldSize)
      && r.sha in store && SoundArtifact(env, store[r.sha], r.sha)
      && store[r.sha].manifest.state == Complete
      && store[r.sha].manifest.rank == r.rank && store[r.sha].manifest.worldSize == worldSize
  {
    if r.path in store && r.sha == r.path {
      VerifiedExactlyWhen(env, store[r.path], r.path);
    }
    hide Verify, Partition, TensorWhole, StoredBytes, SizeTo;
  }

  /** The aggregate speaks for every rank: one run, one profile, one barrier, one set of counted events. */
  lemma {:induction false} AggregateSpeaksForAll(env: Env, store: Store, sorted: seq<Reference>, i: nat)
    requires Assemblable(env, store, sorted) && InRankOrder(sorted) && i < |sorted|
    ensures sorted[0].path in store && sorted[i].path in store && Keyed(store[sorted[0].path].manifest.statistics)
    ensures Keyed(store[sorted[i].path].manifest.statistics)
    ensures
      var g, m := AggregateOf(store, sorted), store[sorted[i].path].manifest;
      && m.runId == g.runId && m.runRef == g.runRef && m.profileId == g.profileId && m.barrier.id == g.barrierId
      && m.worldSize == g.worldSize == |g.references| && m.rank == i && g.references[i].sha == sorted[i].path
      && Alignment(m) == g.alignment
  {
    hide Alignment, Verify;
    assert Genuine(env, store, sorted[0], |sorted|) && Genuine(env, store, sorted[i], |sorted|);
    assert Agree(store[sorted[i].path].manifest, store[sorted[0].path].manifest);
  }

  /** Agreement is an equivalence among the manifests whose statistics carry their keys. */
  lemma {:induction false} AgreementIsEquivalence(a: Manifest, b: Manifest, c: Manifest)
    ensures Agree(a, a) <==> Keyed(a.statistics)
    ensures Agree(a, b) <==> Agree(b, a)
    ensures Agree(a, b) && Agree(b, c) ==> Agree(a, c)
  {
  }

  function AggregateOf(store: Store, sorted: seq<Reference>): Aggregate
    requires sorted != [] && sorted[0].path in store && Keyed(store[sorted[0].path].manifest.statistics)
  {
    var m := store[sorted[0].path].manifest;
    Aggregate(m.runId, m.runRef, m.profileId, |sorted|, m.barrier.id, sorted, Alignment(m))
  }

  /** The first pass: ranks in order, every reference genuine. */
  method CheckReferences(env: Env, store: Store, refs: seq<Reference>) returns (ok: bool)
    requires refs != []
    ensures ok <==> InRankOrder(refs) && forall i :: 0 <= i < |refs| ==> Genuine(env, store, refs[i], |refs|)
  {
    hide Genuine;
    var i := 0;
    while i < |refs|
      invariant i <= |refs|
      invariant forall k :: 0 <= k < i ==> refs[k].rank == k && Genuine(env, store, refs[k], |refs|)
    {
      if refs[i].rank != i || !Genuine(env, store, refs[i], |refs|) {
        return false;
      }
      i := i + 1;
    }
    ok := true;
  }

  /** The second pass: every manifest agrees with the first. */
  method CheckAgreement(store: Store, refs: seq<Reference>) returns (ok: bool)
    requires refs != [] && forall i :: 0 <= i < |refs| ==> refs[i].path in store
    ensures ok <==> forall i :: 0 <= i < |refs| ==>
      Agree(store[refs[0].path].manifest, store[refs[i].path].manifest)
  {
    hide Agree;
    var i := 0;
    while i < |refs|
      invariant i <= |refs|
      invariant forall k :: 0 <= k < i ==> Agree(store[refs[0].path].manifest, store[refs[k].path].manifest)
    {
      var agrees := ManifestsAgree(store[refs[0].path].manifest, store[refs[i].path].manifest);
      if !agrees {
        return false;
      }
      i := i + 1;
    }
    ok := true;
  }

  method ManifestsAgree(a: Manifest, b: Manifest) returns (agrees: bool)
    ensures agrees == Agree(a, b)
  {
    var keysA := AlignmentKeys(a);
    var keysB := AlignmentKeys(b);
    hide Alignment, Keyed;
    agrees := && a.runId == b.runId && a.runRef == b.runRef && a.profileId == b.profileId
              && a.barrier.id == b.barrier.id && keysA.Some? && keysB.Some? && keysA == keysB;
  }

  lemma {:induction false} AgreeWithFirst(env: Env, store: Store, refs: seq<Reference>)
    requires refs != [] && forall i :: 0 <= i < |refs| ==> refs[i].path in store
    ensures
      (forall i :: 0 <= i < |refs| ==> Agree(store[refs[0].path].manifest, store[refs[i].path].manifest))
      <==>
      (forall i, j :: 0 <= i < |refs| && 0 <= j < |refs| ==>
         Agree(store[refs[i].path].manifest, store[refs[j].path].manifest))
  {
    if forall i :: 0 <= i < |refs| ==> Agree(store[refs[0].path].manifest, store[refs[i].path].manifest) {
      forall i, j | 0 <= i < |refs| && 0 <= j < |refs|
        ensures Agree(store[refs[i].path].manifest, store[refs[j].path].manifest)
      {
        hide Alignment, Keyed;
        assert Agree(store[refs[0].path].manifest, store[refs[i].path].manifest);
        assert Agree(store[refs[0].path].manifest, store[refs[j].path].manifest);
      }
    }
  }

  /** What `Assemblable` says does not depend on the order of the references. */
  lemma {:induction false} AssemblableIgnoresOrder(env: Env, store: Store, a: seq<Reference>, b: seq<Reference>)
    requires multiset(a) == multiset(b) && Assemblable(env, store, a)
    ensures Assemblable(env, store, b)
  {
    hide Genuine, Agree, OnePerRank;
    OnePerRankRearranged(a, b);
    assert |a| == |multiset(a)| == |multiset(b)| == |b|;
    forall i | 0 <= i < |b|
      ensures b[i] in a
    {
      assert b[i] in multiset(a);
    }
    forall i | 0 <= i < |b|
      ensures Genuine(env, store, b[i], |b|)
    {
      var p :| 0 <= p < |a| && a[p] == b[i];
    }
    GenuineIsStored(env, store, b);
    forall i, j | 0 <= i < |b| && 0 <= j < |b|
      ensures Agree(store[b[i].path].manifest, store[b[j].path].manifest)
    {
      var p :| 0 <= p < |a| && a[p] == b[i];
      var q :| 0 <= q < |a| && a[q] == b[j];
    }
  }

  lemma {:induction false} GenuineIsStored(env: Env, store: Store, refs: seq<Reference>)
    requires forall i :: 0 <= i < |refs| ==> Genuine(env, store, refs[i], |refs|)
    ensures forall i :: 0 <= i < |refs| ==> refs[i].path in store
  {
    forall i | 0 <= i < |refs|
      ensures refs[i].path in store
    {
      assert Genuine(env, store, refs[i], |refs|);
    }
  }

  /** Assembly succeeds exactly on assemblable references, and the aggregate lists them in rank order. */
  method Assemble(env: Env, store: Store, references: seq<Reference>) returns (r: Option<Aggregate>)
    ensures r.Some? <==> Assemblable(env, store, references)
    ensures r.Some? ==>
      var sorted := SortByRank(references);
      && InRankOrder(sorted) && multiset(sorted) == multiset(references) && sorted != []
      && sorted[0].path in store && Keyed(store[sorted[0].path].manifest.statistics)
      && r.value == AggregateOf(store, sorted)
  {
    if references == [] {
      return None;
    }
    var refs := SortByRank(references);
    SortSorts(references);
    AssemblableExactlyWhen(env, store, references);
    hide Genuine, Agree, SortByRank, Assemblable, OnePerRank, Ascending;
    var genuine := CheckReferences(env, store, refs);
    if !genuine {
      return None;
    }
    GenuineIsStored(env, store, refs);
    var agree := CheckAgreement(store, refs);
    if !agree {
      return None;
    }
    AgreeKeyed(store[refs[0].path].manifest);
    r := Some(AggregateOf(store, refs));
  }

  /** The two passes over the sorted references decide assemblability. */
  lemma {:induction false} AssemblableExactlyWhen(env: Env, store: Store, references: seq<Reference>)
    requires references != []
    ensures
      var refs := SortByRank(references);
      Assemblable(env, store, references)
      <==>
      && InRankOrder(refs) && (forall i :: 0 <= i < |refs| ==> Genuine(env, store, refs[i], |refs|))
      && (forall i :: 0 <= i < |refs| ==>
            refs[0].path in store && refs[i].path in store
            && Agree(store[refs[0].path].manifest, store[refs[i].path].manifest))
  {
    var refs := SortByRank(references);
    SortSorts(references);
    SortedExactlyWhen(references);
    SortedExactlyWhenSorted(refs);
    hide Genuine, Agree, SortByRank, InRankOrder, OnePerRank, Ascending, Assemblable;
    AssemblableIgnoresOrderBothWays(env, store, references, refs);
    AssemblableWhenSorted(env, store, refs);
  }

  lemma {:induction false} SortedExactlyWhenSorted(refs: seq<Reference>)
    ensures InRankOrder(refs) ==> OnePerRank(refs)
    ensures OnePerRank(refs) && Ascending(refs) ==> InRankOrder(refs)
  {
    if OnePerRank(refs) && Ascending(refs) {
      forall i | 0 <= i < |refs|
        ensures refs[i].rank == i
      {
        RanksClimb(refs, i, |refs|);
      }
    }
  }

  lemma {:induction false} AssemblableIgnoresOrderBothWays(env: Env, store: Store, a: seq<Reference>, b: seq<Reference>)
    requires multiset(a) == multiset(b)
    ensures Assemblable(env, store, a) <==> Assemblable(env, store, b)
  {
    if Assemblable(env, store, a) {
      AssemblableIgnoresOrder(env, store, a, b);
    }
    if Assemblable(env, store, b) {
      AssemblableIgnoresOrder(env, store, b, a);
    }
  }

  lemma {:induction false} AssemblableWhenSorted(env: Env, store: Store, refs: seq<Reference>)
    requires refs != [] && Ascending(refs)
    ensures Assemblable(env, store, refs) <==>
      && InRankOrder(refs) && (forall i :: 0 <= i < |refs| ==> Genuine(env, store, refs[i], |refs|))
      && (forall i :: 0 <= i < |refs| ==>
            refs[0].path in store && refs[i].path in store
            && Agree(store[refs[0].path].manifest, store[refs[i].path].manifest))
  {
    SortedExactlyWhenSorted(refs);
    hide Genuine, Agree, InRankOrder, OnePerRank, Ascending;
    if forall i :: 0 <= i < |refs| ==> Genuine(env, store, refs[i], |refs|) {
      GenuineIsStored(env, store, refs);
      AgreeWithFirst(env, store, refs);
    }
  }

  lemma {:induction false} AgreeKeyed(m: Manifest)
    requires Agree(m, m)
    ensures Keyed(m.statistics)
  {
  }

  /** Permuting the references changes neither acceptance nor the aggregate, hence not its digest. */
  lemma {:induction false} AggregateIgnoresOrder(env: Env, store: Store, a: seq<Reference>, b: seq<Reference>)
    requires multiset(a) == multiset(b)
    ensures Assemblable(env, store, a) <==> Assemblable(env, store, b)
    ensures Assemblable(env, store, a) ==> SortByRank(a) == SortByRank(b)
  {
    if Assemblable(env, store, a) {
      AssemblableIgnoresOrder(env, store, a, b);
      SortIgnoresOrder(a, b);
    }
    if Assemblable(env, store, b) {
      AssemblableIgnoresOrder(env, store, b, a);
    }
  }

  /** Reordering a manifest's tensor table changes its agreement with no other manifest. */
  lemma {:induction false} AgreementIgnoresTensorOrder(m: Manifest, m': Manifest, other: Manifest)
    requires multiset(m.tensors) == multiset(m'.tensors) && m' == m.(tensors := m'.tensors)
    ensures Agree(m, other) <==> Agree(m', other)
  {
    TensorOrderIrrelevant(m.tensors, m'.tensors);
  }

  /** The rank-set directories of the store root, each with its manifest unless writing that failed. */
  class RankSetStore {
    var aggregates: map<Digest, Option<Aggregate>>

    constructor ()
      ensures aggregates == map[]
    {
      aggregates := map[];
    }

    /**
     `None` when the set is refused, its address holds something else, or the manifest cannot be written; in the
     last case the new directory stays without one, and blocks its address from then on.
     */
    method AssembleRankSet(env: Env, digest: Aggregate -> Digest, store: Store, references: seq<Reference>,
                           writeFails: bool)
      returns (r: Option<Reference>)
      modifies this
      ensures r.Some? ==> Assemblable(env, store, references)
      ensures Assemblable(env, store, references) ==>
        var sorted := SortByRank(references);
        && InRankOrder(sorted) && sorted != [] && sorted[0].path in store
        && Keyed(store[sorted[0].path].manifest.statistics)
        && var aggregate := AggregateOf(store, sorted);
        && var name := digest(aggregate);
        && (r.Some? <==> if name in old(aggregates) then old(aggregates)[name] == Some(aggregate) else !writeFails)
        && (r.Some? ==> r.value == Reference(RankSetId(Short(name)), name, name, Complete, 0, |references|))
        && aggregates == (if name in old(aggregates) then old(aggregates)
                          else old(aggregates)[name := if writeFails then None else Some(aggregate)])
      ensures !Assemblable(env, store, references) ==> aggregates == old(aggregates)
    {
      var assembled := Assemble(env, store, references);
      hide Assemblable, SortByRank, AggregateOf;
      if assembled == None {
        return None;
      }
      AggregateSize(store, SortByRank(references));
      SortSorts(references);
      var name := digest(assembled.value);
      if name in aggregates {
        if aggregates[name] != Some(assembled.value) {
          return None;
        }
      } else if writeFails {
        aggregates := aggregates[name := None];
        return None;
      } else {
        aggregates := aggregates[name := Some(assembled.value)];
      }
      r := Some(Reference(RankSetId(Short(name)), name, name, Complete, 0, assembled.value.worldSize));
    }
  }

  lemma {:induction false} AggregateSize(store: Store, sorted: seq<Reference>)
    requires sorted != [] && sorted[0].path in store && Keyed(store[sorted[0].path].manifest.statistics)
    ensures AggregateOf(store, sorted).worldSize == |sorted|
  {
  }
}
