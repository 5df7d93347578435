/** What a verification without failure says about an artifact directory, whoever wrote it. */
module ArtifactSoundness {
  import opened Octets
  import opened Outcomes
  import opened Artifacts
  import opened ArtifactReader
  import opened Multiplicity

  function IdsTo(tensors: seq<Tensor>, n: nat): set<string>
    requires n <= |tensors|
  {
    if n == 0 then {} else IdsTo(tensors, n - 1) + {tensors[n - 1].descriptor.tensorId}
  }

  function UsedTo(tensors: seq<Tensor>, n: nat): seq<int>
    requires n <= |tensors|
  {
    if n == 0 then [] else UsedTo(tensors, n - 1) + tensors[n - 1].indices
  }

  function SizeTo(tensors: seq<Tensor>, n: nat): int
    requires n <= |tensors|
  {
    if n == 0 then 0 else SizeTo(tensors, n - 1) + ByteCount(tensors[n - 1].descriptor)
  }

  /** The raw bytes the table ascribes to the first `j` chunks of an index list. */
  function RawTo(chunks: seq<Chunk>, indices: seq<int>, j: nat): int
    requires j <= |indices| && forall i :: 0 <= i < |indices| ==> 0 <= indices[i] < |chunks|
  {
    if j == 0 then 0 else RawTo(chunks, indices, j - 1) + chunks[indices[j - 1]].rawBytes
  }

  /** The chunk's file is there, is the one recorded, and unpacks to the raw bytes recorded. */
  ghost predicate ChunkIntact(env: Env, dir: Directory, c: int) {
    && 0 <= c < |dir.manifest.chunks|
    && var chunk := dir.manifest.chunks[c];
    && chunk.index == c && chunk.zlib6 && chunk.path.ChunkFile? && chunk.path in dir.files
    && var stored := dir.files[chunk.path];
    && |stored| == chunk.storedBytes && env.sha(stored) == chunk.storedSha
    && var raw := env.decompress(stored);
    && raw.Some? && |raw.value| == chunk.rawBytes && env.sha(raw.value) == chunk.rawSha
  }

  /** A tensor's chunks follow each other without a gap from offset 0 to its byte count. */
  ghost predicate GapFree(m: Manifest, t: Tensor) {
    && (forall j :: 0 <= j < |t.indices| ==> 0 <= t.indices[j] < |m.chunks|)
    && (forall j :: 0 <= j < |t.indices| ==>
          m.chunks[t.indices[j]].tensorId == t.descriptor.tensorId
          && m.chunks[t.indices[j]].offset == RawTo(m.chunks, t.indices, j))
    && RawTo(m.chunks, t.indices, |t.indices|) == ByteCount(t.descriptor)
  }

  lemma {:induction false} ReadIsIntact(env: Env, dir: Directory, id: string, c: int, offset: nat)
    ensures ReadChunk(env, dir, id, c, offset).Ok? <==>
      ChunkIntact(env, dir, c) && dir.manifest.chunks[c].tensorId == id && dir.manifest.chunks[c].offset == offset
    ensures ChunkIntact(env, dir, c) && ReadChunk(env, dir, id, c, offset).Ok? ==>
      |ReadChunk(env, dir, id, c, offset).value| == dir.manifest.chunks[c].rawBytes
  {
  }

  /** A successful collection read every chunk, each where the ones before it ended. */
  lemma {:induction false} CollectReads(env: Env, dir: Directory, id: string, indices: seq<int>, i: nat, output: Bytes)
    requires i <= |indices| && Collect(env, dir, id, indices, i, output).Ok?
    ensures forall j :: i <= j < |indices| ==>
      ChunkIntact(env, dir, indices[j]) && dir.manifest.chunks[indices[j]].tensorId == id
    decreases |indices| - i
  {
    if i < |indices| {
      ReadIsIntact(env, dir, id, indices[i], |output|);
      CollectReads(env, dir, id, indices, i + 1, output + ReadChunk(env, dir, id, indices[i], |output|).value);
    }
  }

  lemma {:induction false} CollectOffsets(env: Env, dir: Directory, id: string, indices: seq<int>, i: nat,
                                          output: Bytes)
    requires i <= |indices| && Collect(env, dir, id, indices, i, output).Ok?
    requires forall j :: 0 <= j < |indices| ==> 0 <= indices[j] < |dir.manifest.chunks|
    requires |output| == RawTo(dir.manifest.chunks, indices, i)
    ensures forall j :: i <= j < |indices| ==>
      dir.manifest.chunks[indices[j]].offset == RawTo(dir.manifest.chunks, indices, j)
    ensures |Collect(env, dir, id, indices, i, output).value| == RawTo(dir.manifest.chunks, indices, |indices|)
    decreases |indices| - i
  {
    if i < |indices| {
      hide ReadChunk;
      ReadIsIntact(env, dir, id, indices[i], |output|);
      CollectOffsets(env, dir, id, indices, i + 1, output + ReadChunk(env, dir, id, indices[i], |output|).value);
    }
  }

  lemma {:induction false} FindFirst(tensors: seq<Tensor>, i: nat, n: nat)
    requires i <= n < |tensors| && tensors[n].descriptor.tensorId !in IdsTo(tensors, n)
    ensures FindTensor(tensors, tensors[n].descriptor.tensorId, i) == Some(tensors[n])
    decreases n - i
  {
    if i < n {
      IdAmong(tensors, i, n);
      FindFirst(tensors, i + 1, n);
    }
  }

  lemma {:induction false} IdAmong(tensors: seq<Tensor>, i: nat, n: nat)
    requires i < n <= |tensors|
    ensures tensors[i].descriptor.tensorId in IdsTo(tensors, n)
    decreases n
  {
    if i < n - 1 {
      IdAmong(tensors, i, n - 1);
    }
  }

  /** Tensor `i` of a verified artifact. */
  ghost predicate TensorSound(env: Env, dir: Directory, name: Digest, i: nat)
    requires i < |dir.manifest.tensors|
  {
    var m, t := dir.manifest, dir.manifest.tensors[i];
    && ValidDescriptor(t.descriptor) && t.descriptor.rank == m.rank && t.descriptor.worldSize == m.worldSize
    && t.descriptor.tensorId !in IdsTo(m.tensors, i)
    && GapFree(m, t) && (forall j :: 0 <= j < |t.indices| ==> ChunkIntact(env, dir, t.indices[j]))
    && Reconstruct(env, dir, name, t.descriptor.tensorId, false).Ok?
  }

  function ScanAt(tensors: seq<Tensor>, n: nat, bytes: nat): Scan
    requires n <= |tensors|
  {
    Scan(IdsTo(tensors, n), UsedTo(tensors, n), n, bytes)
  }

  lemma {:induction false} ScanOne(env: Env, dir: Directory, name: Digest, i: nat, bytes: nat)
    requires i < |dir.manifest.tensors| && bytes == SizeTo(dir.manifest.tensors, i)
    ensures
      var tensors := dir.manifest.tensors;
      var next := ScanTensor(env, dir, name, tensors[i], ScanAt(tensors, i, bytes));
      next.Ok? ==>
        && TensorSound(env, dir, name, i)
        && SizeTo(tensors, i + 1) >= 0
        && next.value == ScanAt(tensors, i + 1, SizeTo(tensors, i + 1))
  {
    var tensors, t := dir.manifest.tensors, dir.manifest.tensors[i];
    if ScanTensor(env, dir, name, t, ScanAt(tensors, i, bytes)).Ok? {
      FindFirst(tensors, 0, i);
      hide ValidDescriptor, ReadChunk, ByteCount, ChunkIntact;
      CollectReads(env, dir, t.descriptor.tensorId, t.indices, 0, []);
      IntactInTable(env, dir, t.indices);
      CollectOffsets(env, dir, t.descriptor.tensorId, t.indices, 0, []);
    }
  }

  lemma {:induction false} IntactInTable(env: Env, dir: Directory, indices: seq<int>)
    requires forall j :: 0 <= j < |indices| ==> ChunkIntact(env, dir, indices[j])
    ensures forall j :: 0 <= j < |indices| ==> 0 <= indices[j] < |dir.manifest.chunks|
  {
    forall j | 0 <= j < |indices|
      ensures 0 <= indices[j] < |dir.manifest.chunks|
    {
      assert ChunkIntact(env, dir, indices[j]);
    }
  }

  lemma {:induction false} ScanAll(env: Env, dir: Directory, name: Digest, i: nat, bytes: nat)
    requires i <= |dir.manifest.tensors| && bytes == SizeTo(dir.manifest.tensors, i)
    requires ScanFrom(env, dir, name, i, ScanAt(dir.manifest.tensors, i, bytes)).failure == None
    ensures forall k :: i <= k < |dir.manifest.tensors| ==> TensorSound(env, dir, name, k)
    ensures SizeTo(dir.manifest.tensors, |dir.manifest.tensors|) >= 0
    ensures ScanFrom(env, dir, name, i, ScanAt(dir.manifest.tensors, i, bytes)).scan
         == ScanAt(dir.manifest.tensors, |dir.manifest.tensors|,
                   SizeTo(dir.manifest.tensors, |dir.manifest.tensors|))
    decreases |dir.manifest.tensors| - i
  {
    if i < |dir.manifest.tensors| {
      hide TensorSound, ScanTensor, ScanAt;
      ScanOne(env, dir, name, i, bytes);
      ScanAll(env, dir, name, i + 1, SizeTo(dir.manifest.tensors, i + 1));
    }
  }

  /** Every chunk number up to the chunk count occurs exactly once among all tensors' chunk lists. */
  ghost predicate Partition(m: Manifest) {
    var used := UsedTo(m.tensors, |m.tensors|);
    && |used| == |m.chunks|
    && (forall c :: 0 <= c < |m.chunks| ==> c in used)
    && (forall a, b :: 0 <= a < b < |used| ==> used[a] != used[b])
  }

  lemma {:induction false} MultisetOfRange(n: nat, c: int)
    ensures multiset(Range(0, n))[c] == if 0 <= c < n then 1 else 0
  {
    if n > 0 {
      MultisetOfRange(n - 1, c);
      assert Range(0, n) == Range(0, n - 1) + [n - 1];
    }
  }

  lemma {:induction false} ReferencesPartition(m: Manifest)
    requires multiset(UsedTo(m.tensors, |m.tensors|)) == multiset(Range(0, |m.chunks|))
    ensures Partition(m)
  {
    var used, range := UsedTo(m.tensors, |m.tensors|), Range(0, |m.chunks|);
    assert |used| == |multiset(used)| == |multiset(range)| == |m.chunks|;
    forall c | 0 <= c < |m.chunks|
      ensures c in used
    {
      MultisetOfRange(|m.chunks|, c);
      assert c in multiset(used);
    }
    forall a, b | 0 <= a < b < |used|
      ensures used[a] != used[b]
    {
      if used[a] == used[b] {
        CountsTwice(used, a, b);
        MultisetOfRange(|m.chunks|, used[a]);
      }
    }
  }

  /**
   Soundness: a verification without failure means that the tensors' chunk lists partition the chunk table, every
   tensor is gap-free from 0 and intact, ids are unique, and the counts and both totals are the real ones.
   */
  lemma {:induction false} VerifiedIsSound(env: Env, dir: Directory, name: Digest)
    requires Verify(env, dir, name).failure == None
    ensures env.digest(dir.manifest) == name
    ensures
      var m, v := dir.manifest, Verify(env, dir, name);
      && (forall i :: 0 <= i < |m.tensors| ==> TensorSound(env, dir, name, i))
      && Partition(m)
      && v.state == m.state && v.tensors == |m.tensors| && v.bytes == SizeTo(m.tensors, |m.tensors|)
      && m.totalRaw == v.bytes + RecordBytes(env, m.statistics, |m.statistics|)
      && m.totalStored == StoredBytes(m.chunks, |m.chunks|)
  {
    var m := dir.manifest;
    assert ScanAt(m.tensors, 0, 0) == NOTHING;
    ScanAll(env, dir, name, 0, 0);
    hide TensorSound, ScanTensor, ScanFrom, Partition;
    ReferencesPartition(m);
  }

  // ----- Exactly the sound artifacts verify -----

  /** Tensor `i` by itself: valid, of the manifest's rank, new, and a gap-free row of intact chunks. */
  ghost predicate TensorWhole(env: Env, dir: Directory, i: nat)
    requires i < |dir.manifest.tensors|
  {
    var m, t := dir.manifest, dir.manifest.tensors[i];
    && Plausible(t.descriptor) && t.descriptor.rank == m.rank && t.descriptor.worldSize == m.worldSize
    && t.descriptor.tensorId !in IdsTo(m.tensors, i)
    && GapFree(m, t) && (forall j :: 0 <= j < |t.indices| ==> ChunkIntact(env, dir, t.indices[j]))
  }

  /** A tensor with elements, of a rank among others; a shard of a larger one only along the axis it names. */
  predicate Plausible(d: Descriptor) {
    && |d.shape| > 0 && (forall n :: n in d.shape ==> n >= 1)
    && 0 <= d.rank < d.worldSize
    && d.tokenStart >= 0 && d.tokenCount >= 1 && d.eventSequence >= 0 && (d.layer == None || d.layer.value >= 0)
    && match d.globalShape
       case None => d.shardAxis == None
       case Some(whole) =>
         && |whole| == |d.shape| && (d.shardAxis == None || 0 <= d.shardAxis.value < |d.shape|)
         && (forall i :: 0 <= i < |whole| ==>
               whole[i] == d.shape[i] || (whole[i] > d.shape[i] && d.shardAxis == Some(i)))
  }

  lemma {:induction false} PlausibleExactlyWhen(d: Descriptor)
    ensures ValidDescriptor(d) <==> Plausible(d)
  {
    PositiveExactlyWhen(d.shape);
    if d.globalShape.Some? {
      var whole := d.globalShape.value;
      if Plausible(d) {
        forall i | 0 <= i < |whole|
          ensures whole[i] > 0
        {
          assert d.shape[i] > 0;
        }
      }
    }
  }

  /** The byte counts of a tensor of three elements, type by type. */
  lemma {:induction false} WidthOfTypes(d: Descriptor)
    requires d.shape == [3]
    ensures d.dtype in {Bool, Int8, UInt8} ==> ByteCount(d) == 3
    ensures d.dtype in {BFloat16, Float16, Int16} ==> ByteCount(d) == 6
    ensures d.dtype in {Float32, Int32} ==> ByteCount(d) == 12
    ensures d.dtype in {Float64, Int64} ==> ByteCount(d) == 24
  {
    assert [3][..0] == [] && Product([]) == 1 && Product([3]) == 3;
  }

  /** The byte count is the number of elements times the type's width; axes multiply. */
  lemma {:induction false} AxesMultiply(a: seq<int>, b: seq<int>)
    ensures Product(a + b) == Product(a) * Product(b)
    ensures Product([]) == 1 && (|a| == 1 ==> Product(a) == a[0])
    ensures forall d: Descriptor :: d.shape == a ==> ByteCount(d) == Product(a) * DtypeBytes(d.dtype)
  {
    if |a| == 1 {
      assert a[..0] == [];
    }
    if b == [] {
      assert a + b == a;
    } else {
      var c := b[..|b| - 1];
      assert (a + b)[..|a + b| - 1] == a + c;
      AxesMultiply(a, c);
      Associates(Product(a), Product(c), b[|b| - 1]);
    }
  }

  lemma {:induction false} Associates(x: int, y: int, z: int)
    ensures (x * y) * z == x * (y * z)
  {
  }

  lemma {:induction false} PositiveExactlyWhen(shape: seq<int>)
    ensures Positive(shape) <==> forall n :: n in shape ==> n >= 1
  {
    if forall n :: n in shape ==> n >= 1 {
      forall i | 0 <= i < |shape|
        ensures shape[i] > 0
      {
        assert shape[i] in shape;
      }
    }
  }

  /** What a manifest says of itself: an end that fits its barriers, errors and contents, and who may see it. */
  ghost predicate SoundManifest(env: Env, m: Manifest, name: Digest) {
    && env.digest(m) == name && m.state != Planned && m.state != Running
    && (m.state == Complete <==> m.errors == [])
    && (m.state == Complete ==>
          m.barrier.preFinalize && m.barrier.postFlush && |m.tensors| + |m.statistics| > 0)
    && 0 <= m.rank < m.worldSize && m.runRef.kind == RUN_MANIFEST_KIND && m.runRef.identifier == m.runId
    && m.chunkCount == |m.chunks|
    && (m.tensors != [] ==> m.sensitivity == RestrictedPrivate)
    && (m.sensitivity == PublicAggregate ==>
          m.retention == None && forall i :: 0 <= i < |m.statistics| ==> env.publicSafe(m.statistics[i]))
    && (m.sensitivity != PublicAggregate ==> m.retention.Some? && m.retention.value > 0)
  }

  /** A sound artifact, said without any order of checks. */
  ghost predicate SoundArtifact(env: Env, dir: Directory, name: Digest) {
    var m := dir.manifest;
    && SoundManifest(env, m, name) && Partition(m)
    && (forall i :: 0 <= i < |m.tensors| ==> TensorWhole(env, dir, i))
    && (forall c :: 0 <= c < |m.chunks| ==> m.chunks[c].storedBytes >= 0)
    && m.totalRaw == SizeTo(m.tensors, |m.tensors|) + RecordBytes(env, m.statistics, |m.statistics|)
    && m.totalStored == StoredBytes(m.chunks, |m.chunks|)
  }

  /** A gap-free row of intact chunks is collected whole. */
  lemma {:induction false} CollectsWhole(env: Env, dir: Directory, t: Tensor, i: nat, output: Bytes)
    requires GapFree(dir.manifest, t) && i <= |t.indices|
    requires forall j :: 0 <= j < |t.indices| ==> ChunkIntact(env, dir, t.indices[j])
    requires |output| == RawTo(dir.manifest.chunks, t.indices, i)
    ensures var r := Collect(env, dir, t.descriptor.tensorId, t.indices, i, output);
            r.Ok? && |r.value| == ByteCount(t.descriptor)
    decreases |t.indices| - i
  {
    hide ReadChunk, ChunkIntact, ByteCount;
    if i < |t.indices| {
      var r := ReadChunk(env, dir, t.descriptor.tensorId, t.indices[i], |output|);
      ReadIsIntact(env, dir, t.descriptor.tensorId, t.indices[i], |output|);
      CollectsWhole(env, dir, t, i + 1, output + r.value);
    }
  }

  lemma {:induction false} WholeScans(env: Env, dir: Directory, name: Digest, i: nat)
    requires i < |dir.manifest.tensors| && env.digest(dir.manifest) == name && TensorWhole(env, dir, i)
    requires SizeTo(dir.manifest.tensors, i) >= 0
    ensures SizeTo(dir.manifest.tensors, i + 1) >= 0
    ensures
      var tensors := dir.manifest.tensors;
      ScanTensor(env, dir, name, tensors[i], ScanAt(tensors, i, SizeTo(tensors, i)))
      == Ok(ScanAt(tensors, i + 1, SizeTo(tensors, i + 1)))
  {
    var t := dir.manifest.tensors[i];
    FindFirst(dir.manifest.tensors, 0, i);
    PlausibleExactlyWhen(t.descriptor);
    hide Plausible, ValidDescriptor, ChunkIntact, ByteCount, GapFree;
    NoneRaw(dir.manifest, t);
    CollectsWhole(env, dir, t, 0, []);
    hide Collect;
  }

  lemma {:induction false} NoneRaw(m: Manifest, t: Tensor)
    requires GapFree(m, t)
    ensures RawTo(m.chunks, t.indices, 0) == 0
  {
  }

  lemma {:induction false} WholeScansAll(env: Env, dir: Directory, name: Digest, i: nat)
    requires i <= |dir.manifest.tensors| && env.digest(dir.manifest) == name
    requires forall k :: 0 <= k < |dir.manifest.tensors| ==> TensorWhole(env, dir, k)
    requires SizeTo(dir.manifest.tensors, i) >= 0
    ensures SizeTo(dir.manifest.tensors, |dir.manifest.tensors|) >= 0
    ensures
      var tensors, n := dir.manifest.tensors, |dir.manifest.tensors|;
      ScanFrom(env, dir, name, i, ScanAt(tensors, i, SizeTo(tensors, i)))
      == ScanResult(ScanAt(tensors, n, SizeTo(tensors, n)), None)
    decreases |dir.manifest.tensors| - i
  {
    if i < |dir.manifest.tensors| {
      hide TensorWhole, ScanTensor, ScanAt, SizeTo;
      WholeScans(env, dir, name, i);
      WholeScansAll(env, dir, name, i + 1);
    }
  }

  lemma {:induction false} UsedInTable(env: Env, dir: Directory, n: nat, c: int)
    requires n <= |dir.manifest.tensors| && c in UsedTo(dir.manifest.tensors, n)
    requires forall k :: 0 <= k < |dir.manifest.tensors| ==> TensorWhole(env, dir, k)
    ensures 0 <= c < |dir.manifest.chunks|
  {
    var i, j := UsedBy(dir.manifest.tensors, n, c);
    hide Plausible, ChunkIntact;
    assert TensorWhole(env, dir, i);
  }

  lemma {:induction false} PartitionReferences(env: Env, dir: Directory)
    requires Partition(dir.manifest)
    requires forall k :: 0 <= k < |dir.manifest.tensors| ==> TensorWhole(env, dir, k)
    ensures var m := dir.manifest;
            multiset(UsedTo(m.tensors, |m.tensors|)) == multiset(Range(0, |m.chunks|))
  {
    var m := dir.manifest;
    var used := UsedTo(m.tensors, |m.tensors|);
    forall c: int
      ensures multiset(used)[c] == multiset(Range(0, |m.chunks|))[c]
    {
      MultisetOfRange(|m.chunks|, c);
      if c in used {
        hide TensorWhole;
        UsedInTable(env, dir, |m.tensors|, c);
        var p :| 0 <= p < |used| && used[p] == c;
        CountsOnce(used, p);
      } else {
        assert c !in multiset(used);
      }
    }
  }

  lemma {:induction false} WholeIsSound(env: Env, dir: Directory, name: Digest, i: nat)
    requires i < |dir.manifest.tensors| && TensorSound(env, dir, name, i)
    ensures TensorWhole(env, dir, i)
  {
    PlausibleExactlyWhen(dir.manifest.tensors[i].descriptor);
    hide Plausible, ValidDescriptor, ChunkIntact, GapFree, Reconstruct;
  }

  lemma {:induction false} ManifestExactlyWhen(env: Env, m: Manifest, name: Digest)
    ensures SoundManifest(env, m, name)
       <==> Preliminary(env, m, name) == None && !(m.state.Complete? && m.tensors == [] && m.statistics == [])
  {
  }

  /** The verifier passes exactly the sound artifacts. */
  lemma {:induction false} VerifiedExactlyWhen(env: Env, dir: Directory, name: Digest)
    ensures Verify(env, dir, name).failure == None <==> SoundArtifact(env, dir, name)
    ensures var v := Verify(env, dir, name);
            && v.sha == name && v.state == (if SoundArtifact(env, dir, name) then dir.manifest.state else Corrupt)
            && (env.digest(dir.manifest) != name ==> v == Verification(Corrupt, name, 0, 0, Some(DigestMismatch)))
  {
    var m := dir.manifest;
    ManifestExactlyWhen(env, m, name);
    assert ScanAt(m.tensors, 0, SizeTo(m.tensors, 0)) == NOTHING;
    if Verify(env, dir, name).failure == None {
      VerifiedIsSound(env, dir, name);
      hide TensorSound, TensorWhole, SoundManifest, Preliminary, ScanFrom, Partition;
      forall i | 0 <= i < |m.tensors|
        ensures TensorWhole(env, dir, i)
      {
        WholeIsSound(env, dir, name, i);
      }
    } else if SoundArtifact(env, dir, name) {
      hide TensorSound, TensorWhole, Preliminary, ScanFrom, Partition;
      WholeScansAll(env, dir, name, 0);
      PartitionReferences(env, dir);
    }
  }

  lemma {:induction false} FoundIsFirst(tensors: seq<Tensor>, id: string, i: nat)
    requires i <= |tensors|
    ensures
      match FindTensor(tensors, id, i)
      case None => forall k :: i <= k < |tensors| ==> tensors[k].descriptor.tensorId != id
      case Some(t) =>
        exists n :: i <= n < |tensors| && tensors[n] == t && t.descriptor.tensorId == id
                    && forall k :: i <= k < n ==> tensors[k].descriptor.tensorId != id
    decreases |tensors| - i
  {
    if i < |tensors| && tensors[i].descriptor.tensorId != id {
      FoundIsFirst(tensors, id, i + 1);
    }
  }

  /** A tensor can be read exactly when the manifest has its name and its first record is a gap-free, intact tensor. */
  lemma {:induction false} ReconstructsExactlyWhen(env: Env, dir: Directory, name: Digest, id: string)
    ensures
      var t := FindTensor(dir.manifest.tensors, id, 0);
      Reconstruct(env, dir, name, id, false).Ok?
      <==>
      && env.digest(dir.manifest) == name && t.Some? && Plausible(t.value.descriptor)
      && GapFree(dir.manifest, t.value)
      && forall j :: 0 <= j < |t.value.indices| ==> ChunkIntact(env, dir, t.value.indices[j])
  {
    var found := FindTensor(dir.manifest.tensors, id, 0);
    if found.Some? {
      var t := found.value;
      FoundIsFirst(dir.manifest.tensors, id, 0);
      PlausibleExactlyWhen(t.descriptor);
      hide Plausible, ValidDescriptor, ByteCount, ChunkIntact, ReadChunk;
      if Reconstruct(env, dir, name, id, false).Ok? {
        CollectReads(env, dir, id, t.indices, 0, []);
        IntactInTable(env, dir, t.indices);
        CollectOffsets(env, dir, id, t.indices, 0, []);
      } else if GapFree(dir.manifest, t) && forall j :: 0 <= j < |t.indices| ==> ChunkIntact(env, dir, t.indices[j]) {
        NoneRaw(dir.manifest, t);
        CollectsWhole(env, dir, t, 0, []);
      }
    }
  }

  /** In its default mode the reader gives what it gives otherwise, for complete artifacts and for no others. */
  lemma {:induction false} CompleteExactlyWhen(env: Env, dir: Directory, name: Digest, id: string)
    ensures
      var any, strict := Reconstruct(env, dir, name, id, false), Reconstruct(env, dir, name, id, true);
      && (dir.manifest.state == Complete ==> strict == any)
      && (env.digest(dir.manifest) != name ==> strict == any == Err(DigestMismatch))
      && (dir.manifest.state != Complete && env.digest(dir.manifest) == name ==> strict == Err(NotComplete))
  {
  }

  /** No chunk of a verified artifact is left unread. */
  lemma {:induction false} EveryChunkRead(env: Env, dir: Directory, name: Digest, c: nat)
    requires Verify(env, dir, name).failure == None && c < |dir.manifest.chunks|
    ensures ChunkIntact(env, dir, c)
  {
    VerifiedIsSound(env, dir, name);
    var tensors := dir.manifest.tensors;
    assert c in UsedTo(tensors, |tensors|);
    var i, j := UsedBy(tensors, |tensors|, c);
    hide ChunkIntact;
    assert TensorSound(env, dir, name, i);
    assert ChunkIntact(env, dir, tensors[i].indices[j]);
  }

  lemma {:induction false} UsedBy(tensors: seq<Tensor>, n: nat, c: int) returns (i: nat, j: nat)
    requires n <= |tensors| && c in UsedTo(tensors, n)
    ensures i < n && j < |tensors[i].indices| && tensors[i].indices[j] == c
  {
    if c in tensors[n - 1].indices {
      i := n - 1;
      j :| j < |tensors[i].indices| && tensors[i].indices[j] == c;
    } else {
      i, j := UsedBy(tensors, n - 1, c);
    }
  }

  /** With collision-free digests, replacing or removing the file of any chunk makes verification fail. */
  lemma {:induction false} TamperingIsFound(env: Env, dir: Directory, name: Digest, c: nat, forged: Directory)
    requires CollisionFree(env) && Verify(env, dir, name).failure == None && c < |dir.manifest.chunks|
    requires
      var path := dir.manifest.chunks[c].path;
      path !in forged.files || (path in dir.files && forged.files[path] != dir.files[path])
    ensures Verify(env, forged, name).failure.Some?
  {
    if Verify(env, forged, name).failure == None {
      SameNameSameChunks(env, dir, forged, name);
    }
  }

  /** The content address determines the manifest and every chunk file it records. */
  lemma {:induction false} SameNameSameChunks(env: Env, a: Directory, b: Directory, name: Digest)
    requires CollisionFree(env)
    requires Verify(env, a, name).failure == None && Verify(env, b, name).failure == None
    ensures a.manifest == b.manifest
    ensures forall c :: 0 <= c < |a.manifest.chunks| ==>
      var path := a.manifest.chunks[c].path;
      path in a.files && path in b.files && a.files[path] == b.files[path]
  {
    VerifiedIsSound(env, a, name);
    VerifiedIsSound(env, b, name);
    hide Verify, Partition, TensorSound;
    assert a.manifest == b.manifest;
    forall c | 0 <= c < |a.manifest.chunks|
      ensures
        var path := a.manifest.chunks[c].path;
        path in a.files && path in b.files && a.files[path] == b.files[path]
    {
      EveryChunkRead(env, a, name, c);
      EveryChunkRead(env, b, name, c);
    }
  }

  lemma {:induction false} CollectAgrees(env: Env, a: Directory, b: Directory, id: string, indices: seq<int>, i: nat,
                                         output: Bytes)
    requires a.manifest == b.manifest && i <= |indices|
    requires forall c :: 0 <= c < |a.manifest.chunks| ==>
      var path := a.manifest.chunks[c].path;
      path in a.files && path in b.files && a.files[path] == b.files[path]
    ensures Collect(env, a, id, indices, i, output) == Collect(env, b, id, indices, i, output)
    decreases |indices| - i
  {
    if i < |indices| {
      var r := ReadChunk(env, a, id, indices[i], |output|);
      assert r == ReadChunk(env, b, id, indices[i], |output|);
      if r.Ok? {
        CollectAgrees(env, a, b, id, indices, i + 1, output + r.value);
      }
    }
  }

  /** Two verified directories of the same name give the same bytes for every tensor. */
  lemma {:induction false} SameNameSameTensors(env: Env, a: Directory, b: Directory, name: Digest, id: string,
                                               requireComplete: bool)
    requires CollisionFree(env)
    requires Verify(env, a, name).failure == None && Verify(env, b, name).failure == None
    ensures Reconstruct(env, a, name, id, requireComplete) == Reconstruct(env, b, name, id, requireComplete)
  {
    SameNameSameChunks(env, a, b, name);
    hide Verify;
    var t := FindTensor(a.manifest.tensors, id, 0);
    if t.Some? {
      CollectAgrees(env, a, b, id, t.value.indices, 0, []);
    }
  }
}
