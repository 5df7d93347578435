/** The values of the activation artifact store: descriptors, chunk tables, manifests, directories. */
module Artifacts {
  import opened Octets
  import opened Outcomes

  datatype Completeness = Planned | Running | Complete | Partial | Corrupt | Failed

  predicate Terminal(state: Completeness) {
    state.Complete? || state.Partial? || state.Corrupt? || state.Failed?
  }

  datatype Sensitivity = PublicAggregate | Restricted | RestrictedModelEvidence | RestrictedPrivate

  datatype Dtype = Bool | Int8 | UInt8 | BFloat16 | Float16 | Int16 | Float32 | Int32 | Float64 | Int64

  function DtypeBytes(dtype: Dtype): nat {
    match dtype
    case Bool | Int8 | UInt8 => 1
    case BFloat16 | Float16 | Int16 => 2
    case Float32 | Int32 => 4
    case Float64 | Int64 => 8
  }

  /** Module kinds matter only in that runtime metadata is exempt from rank alignment. */
  datatype ModuleKind = RuntimeMetadata | Kind(name: string)

  datatype Descriptor = Descriptor(
    tensorId: string, selectorId: string, probeId: string, kind: ModuleKind, layer: Option<int>,
    tokenStart: int, tokenCount: int, eventSequence: int, shape: seq<int>, dtype: Dtype,
    rank: int, worldSize: int, phase: string, shardAxis: Option<int>, globalShape: Option<seq<int>>,
    boundary: Option<string>)

  function Product(shape: seq<int>): int {
    if shape == [] then 1 else Product(shape[..|shape| - 1]) * shape[|shape| - 1]
  }

  function ByteCount(d: Descriptor): int {
    Product(d.shape) * DtypeBytes(d.dtype)
  }

  predicate Positive(shape: seq<int>) {
    forall i :: 0 <= i < |shape| ==> shape[i] > 0
  }

  /** What constructing a descriptor demands. */
  predicate ValidDescriptor(d: Descriptor) {
    && (d.layer.Some? ==> d.layer.value >= 0)
    && d.tokenStart >= 0 && d.tokenCount > 0 && d.eventSequence >= 0
    && d.shape != [] && Positive(d.shape)
    && d.worldSize > 0 && 0 <= d.rank < d.worldSize
    && (d.shardAxis.Some? ==> 0 <= d.shardAxis.value < |d.shape| && d.globalShape.Some?)
    && (d.globalShape.Some? ==>
          && |d.globalShape.value| == |d.shape| && Positive(d.globalShape.value)
          && forall axis :: 0 <= axis < |d.shape| ==>
               if d.shardAxis == Some(axis) then d.shape[axis] <= d.globalShape.value[axis]
               else d.shape[axis] == d.globalShape.value[axis])
  }

  /** The fields a statistics record needs to take part in rank alignment. */
  datatype StatisticsKey = StatisticsKey(
    selectorId: string, probeId: string, kind: ModuleKind, layer: Option<int>,
    tokenStart: int, tokenCount: int, eventSequence: int, phase: string, boundary: Option<string>)

  /** A statistics record; `key` is None when one of the alignment fields is missing. */
  datatype Record = Record(key: Option<StatisticsKey>, body: Bytes)

  /** Paths inside an artifact: the numbered chunk files, or anything the reader calls unsafe. */
  datatype Path = ChunkFile(number: nat) | Unsafe(text: string)

  datatype Chunk = Chunk(
    index: int, path: Path, tensorId: string, offset: int, rawBytes: int, storedBytes: int,
    rawSha: Digest, storedSha: Digest, zlib6: bool)

  datatype Tensor = Tensor(descriptor: Descriptor, indices: seq<int>)

  datatype RunRef = RunRef(kind: string, identifier: string, sha: Digest, uri: string)

  const RUN_MANIFEST_KIND := "mechanistic-run-manifest"

  datatype Barrier = Barrier(id: string, preFinalize: bool, postFlush: bool)

  datatype Manifest = Manifest(
    runId: string, runRef: RunRef, profileId: string, rank: int, worldSize: int, barrier: Barrier,
    state: Completeness, sensitivity: Sensitivity, retention: Option<int>,
    totalRaw: int, totalStored: int, chunkCount: int,
    chunks: seq<Chunk>, tensors: seq<Tensor>, statistics: seq<Record>, errors: seq<string>)

  /** What a directory of the store holds: its manifest and its chunk files. */
  datatype Directory = Directory(manifest: Manifest, files: map<Path, Bytes>)

  type Store = map<Digest, Directory>

  /**
   The functions the store relies on but does not define: zlib, SHA-256, canonical JSON and the digest of a
   manifest's canonical JSON, and the public-aggregate field check.
   */
  datatype Env = Env(
    compress: Bytes -> Bytes, decompress: Bytes -> Option<Bytes>, sha: Bytes -> Digest,
    canonical: Record -> Bytes, digest: Manifest -> Digest, publicSafe: Record -> bool)

  /** The codec law. */
  ghost predicate Lossless(env: Env) {
    forall raw: Bytes :: env.decompress(env.compress(raw)) == Some(raw)
  }

  /** Digests identify their content. */
  ghost predicate CollisionFree(env: Env) {
    && (forall a: Bytes, b: Bytes :: env.sha(a) == env.sha(b) ==> a == b)
    && (forall m: Manifest, n: Manifest :: env.digest(m) == env.digest(n) ==> m == n)
  }

  /** Bytes of the statistics records from the front up to number `n`. */
  function RecordBytes(env: Env, records: seq<Record>, n: nat): nat
    requires n <= |records|
  {
    if n == 0 then 0 else RecordBytes(env, records, n - 1) + |env.canonical(records[n - 1])|
  }

  function StoredBytes(chunks: seq<Chunk>, n: nat): int
    requires n <= |chunks|
  {
    if n == 0 then 0 else StoredBytes(chunks, n - 1) + chunks[n - 1].storedBytes
  }

  function Range(lo: nat, hi: nat): (r: seq<int>)
    requires lo <= hi
    ensures |r| == hi - lo && forall i :: 0 <= i < |r| ==> r[i] == lo + i
  {
    seq(hi - lo, i => lo + i)
  }
}
