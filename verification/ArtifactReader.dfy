/** Reading a stored artifact back: reconstruction of one tensor, verification of the whole. */
module ArtifactReader {
  import opened Octets
  import opened Outcomes
  import opened Artifacts

  datatype ReadError =
    | DigestMismatch | NotComplete | NoSuchTensor | BadDescriptor
    | MissingChunk | IdentityMismatch | OffsetGap | BadCompression | UnsafePath
    | MissingFile | StoredLength | StoredChecksum | CorruptStream | RawMismatch | LengthMismatch
    | NotTerminal | BadRank | BadRunRef | BadCompletion | NoExplicitError | BadSensitivity | ChunkCount
    | BadTensor | ChunkReferences | NegativeStored | TotalRaw | TotalStored | Empty

  // ----- One tensor -----

  /** The first tensor record from `i` on that carries the id. */
  function FindTensor(tensors: seq<Tensor>, id: string, i: nat): (r: Option<Tensor>)
    requires i <= |tensors|
    decreases |tensors| - i
  {
    if i == |tensors| then None
    else if tensors[i].descriptor.tensorId == id then Some(tensors[i])
    else FindTensor(tensors, id, i + 1)
  }

  /** The raw bytes of chunk `index` of tensor `id`, expected at `offset`. */
  function ReadChunk(env: Env, dir: Directory, id: string, index: int, offset: nat): Result<Bytes, ReadError> {
    var chunks := dir.manifest.chunks;
    if !(0 <= index < |chunks|) then Err(MissingChunk)
    else
      var chunk := chunks[index];
      if chunk.index != index || chunk.tensorId != id then Err(IdentityMismatch)
      else if chunk.offset != offset then Err(OffsetGap)
      else if !chunk.zlib6 then Err(BadCompression)
      else if !chunk.path.ChunkFile? then Err(UnsafePath)
      else if chunk.path !in dir.files then Err(MissingFile)
      else
        var stored := dir.files[chunk.path];
        if |stored| != chunk.storedBytes then Err(StoredLength)
        else if env.sha(stored) != chunk.storedSha then Err(StoredChecksum)
        else match env.decompress(stored)
          case None => Err(CorruptStream)
          case Some(raw) =>
            if |raw| != chunk.rawBytes || env.sha(raw) != chunk.rawSha then Err(RawMismatch) else Ok(raw)
  }

  /** The chunks from number `i` of the index list on, appended to `output`. */
  function Collect(env: Env, dir: Directory, id: string, indices: seq<int>, i: nat, output: Bytes)
    : Result<Bytes, ReadError>
    requires i <= |indices|
    decreases |indices| - i
  {
    if i == |indices| then Ok(output)
    else match ReadChunk(env, dir, id, indices[i], |output|)
      case Err(e) => Err(e)
      case Ok(raw) => Collect(env, dir, id, indices, i + 1, output + raw)
  }

  function Reconstruct(env: Env, dir: Directory, name: Digest, id: string, requireComplete: bool)
    : Result<Bytes, ReadError>
  {
    if env.digest(dir.manifest) != name then Err(DigestMismatch)
    else if requireComplete && !dir.manifest.state.Complete? then Err(NotComplete)
    else match FindTensor(dir.manifest.tensors, id, 0)
      case None => Err(NoSuchTensor)
      case Some(t) =>
        if !ValidDescriptor(t.descriptor) then Err(BadDescriptor)
        else match Collect(env, dir, id, t.indices, 0, [])
          case Err(e) => Err(e)
          case Ok(output) => if |output| != ByteCount(t.descriptor) then Err(LengthMismatch) else Ok(output)
  }

  method ReconstructTensor(env: Env, dir: Directory, name: Digest, id: string, requireComplete: bool)
    returns (r: Result<Bytes, ReadError>)
    ensures r == Reconstruct(env, dir, name, id, requireComplete)
  {
    if env.digest(dir.manifest) != name {
      return Err(DigestMismatch);
    }
    if requireComplete && !dir.manifest.state.Complete? {
      return Err(NotComplete);
    }
    var tensors := dir.manifest.tensors;
    var t := 0;
    while t < |tensors| && tensors[t].descriptor.tensorId != id
      invariant t <= |tensors| && FindTensor(tensors, id, t) == FindTensor(tensors, id, 0)
    {
      t := t + 1;
    }
    if t == |tensors| {
      return Err(NoSuchTensor);
    }
    var descriptor, indices := tensors[t].descriptor, tensors[t].indices;
    if !ValidDescriptor(descriptor) {
      return Err(BadDescriptor);
    }
    hide ReadChunk, ValidDescriptor;
    var output: Bytes := [];
    var i := 0;
    while i < |indices|
      invariant i <= |indices|
      invariant Collect(env, dir, id, indices, 0, []) == Collect(env, dir, id, indices, i, output)
    {
      var raw := ReadChunk(env, dir, id, indices[i], |output|);
      if raw.Err? {
        return raw;
      }
      output := output + raw.value;
      i := i + 1;
    }
    r := if |output| != ByteCount(descriptor) then Err(LengthMismatch) else Ok(output);
  }

  // ----- The whole artifact -----

  datatype Verification = Verification(
    state: Completeness, sha: Digest, tensors: nat, bytes: nat, failure: Option<ReadError>)

  /** The checks that precede the tensor table. */
  function Preliminary(env: Env, m: Manifest, name: Digest): Option<ReadError> {
    if env.digest(m) != name then Some(DigestMismatch)
    else if !Terminal(m.state) then Some(NotTerminal)
    else if m.worldSize <= 0 || !(0 <= m.rank < m.worldSize) then Some(BadRank)
    else if m.runRef.kind != RUN_MANIFEST_KIND || m.runRef.identifier != m.runId then Some(BadRunRef)
    else if m.state.Complete? && (!m.barrier.preFinalize || !m.barrier.postFlush || m.errors != [])
    then Some(BadCompletion)
    else if !m.state.Complete? && m.errors == [] then Some(NoExplicitError)
    else if !SensitivityHolds(env, m) then Some(BadSensitivity)
    else if m.chunkCount != |m.chunks| then Some(ChunkCount)
    else None
  }

  predicate SensitivityHolds(env: Env, m: Manifest) {
    if m.sensitivity.PublicAggregate?
    then m.tensors == [] && m.retention == None
      && forall i :: 0 <= i < |m.statistics| ==> env.publicSafe(m.statistics[i])
    else
      && (m.tensors == [] || m.sensitivity.RestrictedPrivate?)
      && m.retention.Some? && m.retention.value > 0
  }

  /** What the tensor loop has gathered: ids seen, chunk indices used, bytes reconstructed. */
  datatype Scan = Scan(ids: set<string>, used: seq<int>, count: nat, bytes: nat)

  function ScanTensor(env: Env, dir: Directory, name: Digest, t: Tensor, scan: Scan): Result<Scan, ReadError> {
    if !ValidDescriptor(t.descriptor) then Err(BadDescriptor)
    else if t.descriptor.rank != dir.manifest.rank || t.descriptor.worldSize != dir.manifest.worldSize
         || t.descriptor.tensorId in scan.ids
    then Err(BadTensor)
    else match Reconstruct(env, dir, name, t.descriptor.tensorId, false)
      case Err(e) => Err(e)
      case Ok(payload) =>
        Ok(Scan(scan.ids + {t.descriptor.tensorId}, scan.used + t.indices, scan.count + 1, scan.bytes + |payload|))
  }

  datatype ScanResult = ScanResult(scan: Scan, failure: Option<ReadError>)

  /** The tensor table from record `i` on. */
  function ScanFrom(env: Env, dir: Directory, name: Digest, i: nat, scan: Scan): ScanResult
    requires i <= |dir.manifest.tensors|
    decreases |dir.manifest.tensors| - i
  {
    if i == |dir.manifest.tensors| then ScanResult(scan, None)
    else match ScanTensor(env, dir, name, dir.manifest.tensors[i], scan)
      case Err(e) => ScanResult(scan, Some(e))
      case Ok(next) => ScanFrom(env, dir, name, i + 1, next)
  }

  /** The totals that the manifest has to agree with once every tensor was read. */
  function Reconcile(env: Env, m: Manifest, scan: Scan): Option<ReadError> {
    if multiset(scan.used) != multiset(Range(0, |m.chunks|)) then Some(ChunkReferences)
    else if exists i :: 0 <= i < |m.chunks| && m.chunks[i].storedBytes < 0 then Some(NegativeStored)
    else if m.totalRaw != scan.bytes + RecordBytes(env, m.statistics, |m.statistics|) then Some(TotalRaw)
    else if m.totalStored != StoredBytes(m.chunks, |m.chunks|) then Some(TotalStored)
    else if m.state.Complete? && m.tensors == [] && m.statistics == [] then Some(Empty)
    else None
  }

  const NOTHING := Scan({}, [], 0, 0)

  function Verify(env: Env, dir: Directory, name: Digest): Verification {
    var m := dir.manifest;
    var early := Preliminary(env, m, name);
    if early.Some? then Verification(Corrupt, name, 0, 0, early)
    else
      var scanned := ScanFrom(env, dir, name, 0, NOTHING);
      var failure := if scanned.failure.Some? then scanned.failure else Reconcile(env, m, scanned.scan);
      Verification(if failure.Some? then Corrupt else m.state, name, scanned.scan.count, scanned.scan.bytes, failure)
  }

  method VerifyArtifact(env: Env, dir: Directory, name: Digest) returns (v: Verification)
    ensures v == Verify(env, dir, name)
  {
    var m := dir.manifest;
    var early := Preliminary(env, m, name);
    if early.Some? {
      return Verification(Corrupt, name, 0, 0, early);
    }
    hide Preliminary, ScanTensor, Reconcile;
    var scan, i, failure := NOTHING, 0, None;
    while i < |m.tensors| && failure == None
      invariant i <= |m.tensors|
      invariant ScanFrom(env, dir, name, 0, NOTHING)
             == if failure.Some? then ScanResult(scan, failure) else ScanFrom(env, dir, name, i, scan)
      decreases |m.tensors| - i, failure == None
    {
      var next := ScanTensor(env, dir, name, m.tensors[i], scan);
      if next.Err? {
        failure := Some(next.error);
      } else {
        scan, i := next.value, i + 1;
      }
    }
    if failure == None {
      failure := Totals(env, m, scan);
    }
    v := Verification(if failure.Some? then Corrupt else m.state, name, scan.count, scan.bytes, failure);
  }

  /** The sums over statistics and chunks that follow the tensor loop. */
  method Totals(env: Env, m: Manifest, scan: Scan) returns (failure: Option<ReadError>)
    ensures failure == Reconcile(env, m, scan)
  {
    if multiset(scan.used) != multiset(Range(0, |m.chunks|)) {
      return Some(ChunkReferences);
    }
    var rawBytes := scan.bytes;
    for i := 0 to |m.statistics|
      invariant rawBytes == scan.bytes + RecordBytes(env, m.statistics, i)
    {
      rawBytes := rawBytes + |env.canonical(m.statistics[i])|;
    }
    var storedBytes := 0;
    for i := 0 to |m.chunks|
      invariant storedBytes == StoredBytes(m.chunks, i)
      invariant forall k :: 0 <= k < i ==> m.chunks[k].storedBytes >= 0
    {
      if m.chunks[i].storedBytes < 0 {
        return Some(NegativeStored);
      }
      storedBytes := storedBytes + m.chunks[i].storedBytes;
    }
    failure :=
      if m.totalRaw != rawBytes then Some(TotalRaw)
      else if m.totalStored != storedBytes then Some(TotalStored)
      else if m.state.Complete? && m.tensors == [] && m.statistics == [] then Some(Empty)
      else None;
  }
}
