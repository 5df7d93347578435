/** The checkpoint inventory: one shard's header, the headers against the index, and the totals per module. */
module Inventory {
  import opened Outcomes
  import opened Ranges

  // ----- One shard's header -----

  /** A tensor as its header states it. */
  datatype Entry = Entry(name: string, dtype: string, shape: seq<int>, start: int, end: int)

  datatype Key = Key(moduleName: string, family: string, layer: Option<nat>)

  /** What the name and shape of a tensor say of its placement. */
  datatype Traits = Traits(key: Key, candidate: bool, replicated: bool)

  datatype Record = Record(name: string, parameters: int, bytes: int, shard: string, traits: Traits, range: Range)

  datatype Fault =
    | Unreadable | UnsupportedDtype | InvalidShape | Reversed | WrongSize | Overlap
    | Duplicate | Missing | Extra | WrongShard | WrongTotal

  /** Bytes per element; 0 for a type that is not supported. */
  function DtypeBytes(dtype: string): nat {
    if dtype in {"BOOL", "U8", "I8", "F8_E4M3", "F8_E5M2"} then 1
    else if dtype in {"U16", "I16", "F16", "BF16"} then 2
    else if dtype in {"U32", "I32", "F32"} then 4
    else if dtype in {"U64", "I64", "F64"} then 8
    else 0
  }

  function Product(shape: seq<int>, n: nat): int
    requires n <= |shape|
  {
    if n == 0 then 1 else Product(shape, n - 1) * shape[n - 1]
  }

  function Elements(e: Entry): int {
    Product(e.shape, |e.shape|)
  }

  function EntryFault(e: Entry): Option<Fault> {
    if DtypeBytes(e.dtype) == 0 then Some(UnsupportedDtype)
    else if (exists i :: 0 <= i < |e.shape| && e.shape[i] < 0) || e.start < 0 || e.end < 0 then Some(InvalidShape)
    else if e.end < e.start then Some(Reversed)
    else if e.end - e.start != Elements(e) * DtypeBytes(e.dtype) then Some(WrongSize)
    else None
  }

  // ----- What a sound entry is -----

  /** The supported types and their widths in bytes. */
  const WIDTHS: map<string, nat> := map[
    "BOOL" := 1, "U8" := 1, "I8" := 1, "F8_E4M3" := 1, "F8_E5M2" := 1, "U16" := 2, "I16" := 2, "F16" := 2, "BF16" := 2,
    "U32" := 4, "I32" := 4, "F32" := 4, "U64" := 8, "I64" := 8, "F64" := 8]

  lemma {:induction false} ProductPrefix(a: seq<int>, b: seq<int>, n: nat)
    requires n <= |a|
    ensures Product(a + b, n) == Product(a, n)
  {
    if n > 0 {
      ProductPrefix(a, b, n - 1);
    }
  }

  /** The element count of joined shapes is the product of theirs; one axis counts its length, and a scalar is one. */
  lemma {:induction false} ProductJoins(a: seq<int>, b: seq<int>, n: nat)
    requires n <= |b|
    ensures Product(a + b, |a| + n) == Product(a, |a|) * Product(b, n)
    ensures n == 1 ==> Product(b, n) == b[0]
    ensures Product([], 0) == 1
  {
    if n == 0 {
      ProductPrefix(a, b, |a|);
    } else {
      ProductJoins(a, b, n - 1);
      Associates(Product(a, |a|), Product(b, n - 1), b[n - 1]);
      assert Product(b, 0) == 1;
    }
  }

  lemma {:induction false} Associates(x: int, y: int, z: int)
    ensures (x * y) * z == x * (y * z)
  {
  }

  /** An entry is sound exactly when its type is supported and its bytes are those its shape needs, from 0 on. */
  lemma {:induction false} SoundExactlyWhen(e: Entry)
    ensures EntryFault(e) == None
       <==> && e.dtype in WIDTHS && (forall n :: n in e.shape ==> n >= 0) && 0 <= e.start
            && e.start <= e.end == e.start + Product(e.shape, |e.shape|) * WIDTHS[e.dtype]
  {
    if forall n :: n in e.shape ==> n >= 0 {
      forall i | 0 <= i < |e.shape|
        ensures e.shape[i] >= 0
      {
        assert e.shape[i] in e.shape;
      }
    }
    hide Product;
  }

  /** What the record of a sound entry says. */
  lemma {:induction false} RecordSays(classify: (string, seq<int>) -> Traits, shard: string, e: Entry)
    requires EntryFault(e) == None
    ensures
      var r := RecordOf(classify, shard, e);
      && e.dtype in WIDTHS && r.name == e.name && r.shard == shard && r.range == Range(e.start, e.end)
      && r.bytes == r.parameters * WIDTHS[e.dtype] == e.end - e.start && r.parameters == Product(e.shape, |e.shape|)
      && r.traits == classify(e.name, e.shape)
  {
    SoundExactlyWhen(e);
    hide Product;
  }

  function RangeOf(e: Entry): Range
    requires EntryFault(e).None?
  {
    Range(e.start, e.end)
  }

  function RecordOf(classify: (string, seq<int>) -> Traits, shard: string, e: Entry): Record
    requires EntryFault(e).None?
  {
    Record(e.name, Elements(e), e.end - e.start, shard, classify(e.name, e.shape), RangeOf(e))
  }

  predicate Sound(entries: seq<Entry>) {
    forall i :: 0 <= i < |entries| ==> EntryFault(entries[i]).None?
  }

  function RangesOf(entries: seq<Entry>): (ranges: seq<Range>)
    requires Sound(entries)
    ensures |ranges| == |entries| && Forward(ranges)
    ensures forall i :: 0 <= i < |entries| ==> ranges[i] == RangeOf(entries[i])
  {
    seq(|entries|, i requires 0 <= i < |entries| => RangeOf(entries[i]))
  }

  function RecordsOf(classify: (string, seq<int>) -> Traits, shard: string, entries: seq<Entry>): (records: seq<Record>)
    requires Sound(entries)
    ensures |records| == |entries|
    ensures forall i :: 0 <= i < |entries| ==> records[i] == RecordOf(classify, shard, entries[i])
  {
    seq(|entries|, i requires 0 <= i < |entries| => RecordOf(classify, shard, entries[i]))
  }

  /** A header is accepted when every entry is sound and the tensors' ranges are pairwise apart. */
  ghost predicate Acceptable(entries: seq<Entry>) {
    Sound(entries) && PairwiseApart(RangesOf(entries))
  }

  /** Two tensors share no byte, and neither is an empty one strictly inside the other. */
  ghost predicate Separate(a: Range, b: Range) {
    !Shares(a, b) && !EmptyInside(a, b) && !EmptyInside(b, a)
  }

  /** Acceptance in terms of bytes. */
  lemma {:induction false} AcceptableExactlyWhen(entries: seq<Entry>)
    ensures Acceptable(entries) <==>
            Sound(entries)
            && forall i, j :: 0 <= i < j < |entries| ==> Separate(RangesOf(entries)[i], RangesOf(entries)[j])
  {
    hide EntryFault;
    if Sound(entries) {
      var ranges := RangesOf(entries);
      forall i, j | 0 <= i < j < |ranges|
        ensures Apart(ranges[i], ranges[j]) <==> Separate(ranges[i], ranges[j])
      {
        ApartExactlyWhen(ranges[i], ranges[j]);
      }
      hide Apart, Separate;
    }
  }

  /** A tensor without elements, placed strictly inside another's bytes, shares none of them and is refused. */
  lemma {:induction false} EmptyTensorRefused()
    ensures
      var entries := [Entry("a", "U8", [10], 0, 10), Entry("b", "U8", [0], 5, 5)];
      Sound(entries) && !Shares(RangesOf(entries)[0], RangesOf(entries)[1]) && !Acceptable(entries)
  {
    var entries := [Entry("a", "U8", [10], 0, 10), Entry("b", "U8", [0], 5, 5)];
    assert Product([10], 0) == 1 && Product([10], 1) == 10 && Product([0], 0) == 1 && Product([0], 1) == 0;
    assert EntryFault(entries[0]).None? && EntryFault(entries[1]).None?;
    assert !Apart(RangesOf(entries)[0], RangesOf(entries)[1]);
  }

  /** `parse_safetensors_header`: it accepts exactly the acceptable headers, by sorting and comparing neighbours. */
  method ParseHeader(classify: (string, seq<int>) -> Traits, shard: string, entries: seq<Entry>)
    returns (r: Result<seq<Record>, Fault>)
    ensures r.Ok? <==> Acceptable(entries)
    ensures r.Ok? ==> r.value == RecordsOf(classify, shard, entries)
  {
    hide EntryFault;
    var records: seq<Record>, ranges: seq<Range> := [], [];
    for i := 0 to |entries|
      invariant Sound(entries[..i])
      invariant records == RecordsOf(classify, shard, entries[..i]) && ranges == RangesOf(entries[..i])
    {
      var fault := EntryFault(entries[i]);
      if fault.Some? {
        return Err(fault.value);
      }
      assert entries[..i + 1] == entries[..i] + [entries[i]];
      records := records + [RecordOf(classify, shard, entries[i])];
      ranges := ranges + [RangeOf(entries[i])];
    }
    assert entries[..|entries|] == entries;
    var overlaps := FindOverlap(ranges);
    return if overlaps then Err(Overlap) else Ok(records);
  }

  method FindOverlap(ranges: seq<Range>) returns (found: bool)
    requires Forward(ranges)
    ensures found <==> !PairwiseApart(ranges)
  {
    var sorted := Sorted(ranges);
    SortSorts(ranges);
    ForwardSorted(ranges);
    hide PairwiseApart, Ascending, Sorted;
    NeighboursSuffice(sorted);
    var i := 1;
    while i < |sorted|
      invariant 1 <= i && forall k :: 0 < k < i && k < |sorted| ==> sorted[k - 1].end <= sorted[k].start
    {
      if sorted[i].start < sorted[i - 1].end {
        return true;
      }
      i := i + 1;
    }
    return false;
  }

  /** The bytes of an accepted header's tensors fit the span of data they lie in. */
  lemma {:induction false} AcceptedFitsSpan(entries: seq<Entry>, lo: nat, hi: nat)
    requires Acceptable(entries) && Inside(RangesOf(entries), lo, hi) && lo <= hi
    ensures Bytes(RangesOf(entries), |entries|) <= hi - lo
  {
    hide EntryFault;
    BytesWithinSpan(RangesOf(entries), lo, hi);
  }

  // ----- The headers against the index -----

  /** What the shards' files say: a header per shard, or that it cannot be read. */
  type Headers = string -> Result<seq<Entry>, Fault>

  /** A header's entries have distinct names, as the keys of one object. */
  predicate DistinctEntries(entries: seq<Entry>) {
    forall i, j :: 0 <= i < j < |entries| ==> entries[i].name != entries[j].name
  }

  predicate DistinctNames(records: seq<Record>) {
    forall i, j :: 0 <= i < j < |records| ==> records[i].name != records[j].name
  }

  function NamesOf(records: seq<Record>): set<string> {
    set i | 0 <= i < |records| :: records[i].name
  }

  ghost predicate Readable(read: Headers, shards: seq<string>) {
    forall i :: 0 <= i < |shards| ==> read(shards[i]).Ok? && Acceptable(read(shards[i]).value)
  }

  /** The records of the first `n` shards, in the order they are observed. */
  function Observed(classify: (string, seq<int>) -> Traits, read: Headers, shards: seq<string>, n: nat): seq<Record>
    requires n <= |shards| && Readable(read, shards)
  {
    if n == 0 then [] else
      Observed(classify, read, shards, n - 1) + RecordsOf(classify, shards[n - 1], read(shards[n - 1]).value)
  }

  function RecordBytes(records: seq<Record>, n: nat): int
    requires n <= |records|
  {
    if n == 0 then 0 else RecordBytes(records, n - 1) + records[n - 1].bytes
  }

  /** Joined records have the bytes of both; one record has its own. */
  lemma {:induction false} RecordBytesJoin(a: seq<Record>, b: seq<Record>, n: nat)
    requires n <= |b|
    ensures RecordBytes(a + b, |a| + n) == RecordBytes(a, |a|) + RecordBytes(b, n)
    ensures n == 1 ==> RecordBytes(b, n) == b[0].bytes
  {
    if n == 0 {
      RecordBytesPrefix(a, b, |a|);
    } else {
      RecordBytesJoin(a, b, n - 1);
    }
    assert RecordBytes([], 0) == 0;
  }

  lemma {:induction false} RecordBytesPrefix(a: seq<Record>, b: seq<Record>, n: nat)
    requires n <= |a|
    ensures RecordBytes(a + b, n) == RecordBytes(a, n)
  {
    if n > 0 {
      RecordBytesPrefix(a, b, n - 1);
    }
  }

  /** The index names exactly the tensors a shard's header holds. */
  ghost predicate ShardAgrees(index: map<string, string>, shard: string, entries: seq<Entry>) {
    && (forall i :: 0 <= i < |entries| ==> entries[i].name in index && index[entries[i].name] == shard)
    && (forall name :: name in index && index[name] == shard ==>
          exists i :: 0 <= i < |entries| && entries[i].name == name)
  }

  /** Every shard's header is accepted, and holds exactly the tensors the index assigns to it. */
  ghost predicate Agrees(index: map<string, string>, read: Headers, shards: seq<string>) {
    && Readable(read, shards)
    && (forall i :: 0 <= i < |shards| ==> ShardAgrees(index, shards[i], read(shards[i]).value))
  }

  /** What the code compares once all records are in: names with names, then shards with shards. */
  ghost predicate Matches(index: map<string, string>, records: seq<Record>) {
    && DistinctNames(records) && NamesOf(records) == index.Keys
    && (forall i :: 0 <= i < |records| ==> records[i].name in index && index[records[i].name] == records[i].shard)
  }

  /** The shards the code visits: those the index names, once each; and headers are objects with distinct keys. */
  ghost predicate Visited(index: map<string, string>, read: Headers, shards: seq<string>) {
    && (forall s :: s in shards <==> s in index.Values)
    && (forall i, j :: 0 <= i < j < |shards| ==> shards[i] != shards[j])
    && (forall i :: 0 <= i < |shards| && read(shards[i]).Ok? ==> DistinctEntries(read(shards[i]).value))
  }

  lemma {:induction false} ObservedComesFrom(classify: (string, seq<int>) -> Traits, read: Headers, shards: seq<string>,
                                             n: nat, k: nat) returns (i: nat, j: nat)
    requires n <= |shards| && Readable(read, shards) && k < |Observed(classify, read, shards, n)|
    ensures i < n && j < |read(shards[i]).value|
    ensures Observed(classify, read, shards, n)[k] == RecordOf(classify, shards[i], read(shards[i]).value[j])
  {
    hide EntryFault, Elements, RecordOf;
    var before := Observed(classify, read, shards, n - 1);
    if k < |before| {
      i, j := ObservedComesFrom(classify, read, shards, n - 1, k);
    } else {
      i, j := n - 1, k - |before|;
    }
  }

  lemma {:induction false} ObservedHas(classify: (string, seq<int>) -> Traits, read: Headers, shards: seq<string>,
                                       n: nat, i: nat, j: nat) returns (k: nat)
    requires n <= |shards| && Readable(read, shards) && i < n && j < |read(shards[i]).value|
    ensures k < |Observed(classify, read, shards, n)|
    ensures Observed(classify, read, shards, n)[k] == RecordOf(classify, shards[i], read(shards[i]).value[j])
  {
    hide EntryFault, Elements, RecordOf;
    if i < n - 1 {
      k := ObservedHas(classify, read, shards, n - 1, i, j);
    } else {
      k := |Observed(classify, read, shards, n - 1)| + j;
    }
  }

  lemma {:induction false} AgreeingNamesDistinct(classify: (string, seq<int>) -> Traits, index: map<string, string>,
                                                 read: Headers, shards: seq<string>, n: nat)
    requires n <= |shards| && Visited(index, read, shards) && Agrees(index, read, shards)
    ensures DistinctNames(Observed(classify, read, shards, n))
  {
    hide EntryFault, Elements, Acceptable;
    if n > 0 {
      AgreeingNamesDistinct(classify, index, read, shards, n - 1);
      var before, entries := Observed(classify, read, shards, n - 1), read(shards[n - 1]).value;
      var all := Observed(classify, read, shards, n);
      forall a, b | 0 <= a < b < |all|
        ensures all[a].name != all[b].name
      {
        if a < |before| <= b {
          var i, j := ObservedComesFrom(classify, read, shards, n - 1, a);
          assert index[all[a].name] == shards[i] != shards[n - 1];
        }
      }
    }
  }

  lemma {:induction false} AgreeingMatches(classify: (string, seq<int>) -> Traits, index: map<string, string>,
                                           read: Headers, shards: seq<string>)
    requires Visited(index, read, shards) && Agrees(index, read, shards)
    ensures Matches(index, Observed(classify, read, shards, |shards|))
  {
    hide EntryFault, Elements, Acceptable, Observed;
    var n := |shards|;
    var all := Observed(classify, read, shards, n);
    AgreeingNamesDistinct(classify, index, read, shards, n);
    forall k | 0 <= k < |all|
      ensures all[k].name in index && index[all[k].name] == all[k].shard
    {
      var i, j := ObservedComesFrom(classify, read, shards, n, k);
      assert ShardAgrees(index, shards[i], read(shards[i]).value);
    }
    forall name | name in index
      ensures name in NamesOf(all)
    {
      assert index[name] in index.Values;
      var i: nat :| i < n && shards[i] == index[name];
      assert ShardAgrees(index, shards[i], read(shards[i]).value);
      var j: nat :| j < |read(shards[i]).value| && read(shards[i]).value[j].name == name;
      var k := ObservedHas(classify, read, shards, n, i, j);
    }
  }

  lemma {:induction false} MatchingAgrees(classify: (string, seq<int>) -> Traits, index: map<string, string>,
                                          read: Headers, shards: seq<string>, i: nat)
    requires Readable(read, shards) && Matches(index, Observed(classify, read, shards, |shards|)) && i < |shards|
    ensures ShardAgrees(index, shards[i], read(shards[i]).value)
  {
    hide EntryFault, Elements, Acceptable, Observed;
    var all, entries := Observed(classify, read, shards, |shards|), read(shards[i]).value;
    forall j | 0 <= j < |entries|
      ensures entries[j].name in index && index[entries[j].name] == shards[i]
    {
      var k := ObservedHas(classify, read, shards, |shards|, i, j);
    }
    forall name | name in index && index[name] == shards[i]
      ensures exists j :: 0 <= j < |entries| && entries[j].name == name
    {
      assert name in NamesOf(all);
      var k: nat :| k < |all| && all[k].name == name;
      var i', j' := ObservedComesFrom(classify, read, shards, |shards|, k);
      assert shards[i'] == shards[i];
    }
  }

  /** The comparisons the code makes hold exactly when every shard holds just the tensors the index assigns to it. */
  lemma {:induction false} MatchesExactlyWhen(classify: (string, seq<int>) -> Traits, index: map<string, string>,
                                              read: Headers, shards: seq<string>)
    requires Visited(index, read, shards) && Readable(read, shards)
    ensures Matches(index, Observed(classify, read, shards, |shards|)) <==> Agrees(index, read, shards)
  {
    hide Observed, Acceptable, ShardAgrees, Visited;
    if Agrees(index, read, shards) {
      AgreeingMatches(classify, index, read, shards);
    }
    if Matches(index, Observed(classify, read, shards, |shards|)) {
      forall i | 0 <= i < |shards|
        ensures ShardAgrees(index, shards[i], read(shards[i]).value)
      {
        MatchingAgrees(classify, index, read, shards, i);
      }
    }
  }

  /** The dictionary of observed records by name. */
  ghost predicate Indexes(observed: map<string, Record>, records: seq<Record>) {
    && DistinctNames(records) && observed.Keys == NamesOf(records)
    && (forall k :: 0 <= k < |records| ==> records[k].name in observed && observed[records[k].name] == records[k])
  }

  /** Adds one shard's records, unless a name has been seen before. */
  method Observe(observed: map<string, Record>, records: seq<Record>, more: seq<Record>)
    returns (ok: bool, observed': map<string, Record>)
    requires Indexes(observed, records)
    ensures ok <==> DistinctNames(records + more)
    ensures ok ==> Indexes(observed', records + more)
  {
    observed' := observed;
    assert records + more[..0] == records;
    for j := 0 to |more|
      invariant Indexes(observed', records + more[..j])
    {
      ghost var sofar := records + more[..j];
      ghost var all := records + more;
      assert records + more[..j + 1] == sofar + [more[j]];
      if more[j].name in observed' {
        assert all[|sofar|] == more[j];
        assert forall k :: 0 <= k < |sofar| ==> all[k] == sofar[k];
        return false, observed';
      }
      Added(observed', sofar, more[j]);
      observed' := observed'[more[j].name := more[j]];
    }
    assert more[..|more|] == more;
    ok := true;
  }

  lemma {:induction false} Added(observed: map<string, Record>, records: seq<Record>, r: Record)
    requires Indexes(observed, records) && r.name !in observed
    ensures Indexes(observed[r.name := r], records + [r])
  {
    var all := records + [r];
    assert NamesOf(all) == NamesOf(records) + {r.name} by {
      assert all[|records|].name == r.name;
      forall name | name in NamesOf(records)
        ensures name in NamesOf(all)
      {
        var i :| 0 <= i < |records| && records[i].name == name;
        assert all[i].name == name;
      }
    }
  }

  lemma {:induction false} ObservedGrows(classify: (string, seq<int>) -> Traits, read: Headers, shards: seq<string>,
                                         n: nat, m: nat)
    requires n <= m <= |shards| && Readable(read, shards)
    ensures Observed(classify, read, shards, n) <= Observed(classify, read, shards, m)
  {
    if n < m {
      ObservedGrows(classify, read, shards, n, m - 1);
    }
  }

  lemma {:induction false} ObservedAlong(classify: (string, seq<int>) -> Traits, read: Headers, shards: seq<string>,
                                         n: nat)
    requires n <= |shards| && Readable(read, shards)
    ensures Readable(read, shards[..n])
    ensures Observed(classify, read, shards[..n], n) == Observed(classify, read, shards, n)
    decreases n
  {
    hide Acceptable;
    if n > 0 {
      ObservedAlong(classify, read, shards, n - 1);
      assert shards[..n][..n - 1] == shards[..n - 1];
      ObservedAlong(classify, read, shards[..n], n - 1);
    }
  }

  /** Reads the shards one by one, up to the first header that is not accepted or name that comes twice. */
  method ReadShards(classify: (string, seq<int>) -> Traits, shards: seq<string>, read: Headers)
    returns (r: Result<seq<Record>, Fault>, observed: map<string, Record>)
    ensures r.Ok? <==> Readable(read, shards) && DistinctNames(Observed(classify, read, shards, |shards|))
    ensures r.Ok? ==> r.value == Observed(classify, read, shards, |shards|) && Indexes(observed, r.value)
  {
    hide Acceptable, Indexes, DistinctNames;
    var records: seq<Record> := [];
    observed := map[];
    assert Indexes(observed, records) by {
      NothingIndexed();
    }
    for i := 0 to |shards|
      invariant Readable(read, shards[..i]) && records == Observed(classify, read, shards[..i], i)
      invariant Indexes(observed, records)
    {
      var header := read(shards[i]);
      if header.Err? {
        return Err(header.error), observed;
      }
      var parsed := ParseHeader(classify, shards[i], header.value);
      if parsed.Err? {
        assert !Acceptable(read(shards[i]).value);
        return Err(parsed.error), observed;
      }
      ObservedNext(classify, read, shards, i);
      var ok, next := Observe(observed, records, parsed.value);
      if !ok {
        DuplicateStays(classify, read, shards, i + 1);
        return Err(Duplicate), observed;
      }
      records, observed := records + parsed.value, next;
    }
    assert shards[..|shards|] == shards;
    DistinctWhenIndexed(observed, records);
    r := Ok(records);
  }

  lemma {:induction false} NothingIndexed()
    ensures Indexes(map[], [])
  {
    assert NamesOf([]) == {};
  }

  lemma {:induction false} DistinctWhenIndexed(observed: map<string, Record>, records: seq<Record>)
    requires Indexes(observed, records)
    ensures DistinctNames(records)
  {
  }

  lemma {:induction false} ObservedNext(classify: (string, seq<int>) -> Traits, read: Headers, shards: seq<string>,
                                        i: nat)
    requires i < |shards| && Readable(read, shards[..i]) && read(shards[i]).Ok? && Acceptable(read(shards[i]).value)
    ensures Readable(read, shards[..i + 1])
    ensures Observed(classify, read, shards[..i + 1], i + 1)
         == Observed(classify, read, shards[..i], i) + RecordsOf(classify, shards[i], read(shards[i]).value)
  {
    hide Acceptable;
    var upto := shards[..i + 1];
    assert upto[..i] == shards[..i];
    ObservedAlong(classify, read, upto, i);
  }

  lemma {:induction false} DuplicateStays(classify: (string, seq<int>) -> Traits, read: Headers, shards: seq<string>,
                                          n: nat)
    requires n <= |shards| && Readable(read, shards[..n]) && !DistinctNames(Observed(classify, read, shards[..n], n))
    ensures Readable(read, shards) ==> !DistinctNames(Observed(classify, read, shards, |shards|))
  {
    hide Acceptable;
    if Readable(read, shards) {
      ObservedAlong(classify, read, shards, n);
      ObservedGrows(classify, read, shards, n, |shards|);
    }
  }

  /** `inventory_from_index`: accepted exactly when shards and index agree, and the total, if stated, is right. */
  method InventoryFromIndex(classify: (string, seq<int>) -> Traits, index: map<string, string>, total: Option<int>,
                            shards: seq<string>, read: Headers) returns (r: Result<seq<Record>, Fault>)
    requires Visited(index, read, shards)
    ensures r.Ok? <==>
            Agrees(index, read, shards)
            && (total.Some? ==> total.value == RecordBytes(Observed(classify, read, shards, |shards|),
                                                           |Observed(classify, read, shards, |shards|)|))
    ensures r.Ok? ==> r.value == Observed(classify, read, shards, |shards|) && Matches(index, r.value)
  {
    hide Visited, Readable, DistinctNames, Observed, Acceptable, ShardAgrees, RecordBytes, NamesOf;
    var read', observed := ReadShards(classify, shards, read);
    AgreementNeeds(classify, index, read, shards);
    if read'.Err? {
      return read';
    }
    var records := read'.value;
    MatchesExactlyWhen(classify, index, read, shards);
    DistinctWhenIndexed(observed, records);
    if index.Keys - observed.Keys != {} {
      return Err(Missing);
    }
    if observed.Keys - index.Keys != {} {
      return Err(Extra);
    }
    assert index.Keys == observed.Keys;
    if exists name :: name in index && observed[name].shard != index[name] {
      WrongShardBreaks(index, observed, records);
      return Err(WrongShard);
    }
    if total.Some? {
      var bytes := TotalBytes(records);
      if bytes != total.value {
        return Err(WrongTotal);
      }
    }
    r := Ok(records);
  }

  lemma {:induction false} AgreementNeeds(classify: (string, seq<int>) -> Traits, index: map<string, string>,
                                          read: Headers, shards: seq<string>)
    requires Visited(index, read, shards)
    ensures Agrees(index, read, shards)
        ==> Readable(read, shards) && DistinctNames(Observed(classify, read, shards, |shards|))
  {
    hide Visited, Acceptable, ShardAgrees;
    if Agrees(index, read, shards) {
      AgreeingNamesDistinct(classify, index, read, shards, |shards|);
    }
  }

  lemma {:induction false} WrongShardBreaks(index: map<string, string>, observed: map<string, Record>,
                                            records: seq<Record>)
    requires Indexes(observed, records) && index.Keys == observed.Keys
    requires exists name :: name in index && observed[name].shard != index[name]
    ensures !Matches(index, records)
  {
    var name :| name in index && observed[name].shard != index[name];
    assert name in NamesOf(records);
    var k :| 0 <= k < |records| && records[k].name == name;
  }

  method TotalBytes(records: seq<Record>) returns (bytes: int)
    ensures bytes == RecordBytes(records, |records|)
  {
    bytes := 0;
    for i := 0 to |records|
      invariant bytes == RecordBytes(records, i)
    {
      bytes := bytes + records[i].bytes;
    }
  }
}
