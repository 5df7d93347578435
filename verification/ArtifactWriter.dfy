/**
 The streaming artifact writer: bounded chunks, a byte budget, rollback on failure, finalization into a
 digest-named directory.

 `Written`, `Noted` and `Finalized` say what one call does to the writer's state and its outcome; the class
 computes them with the original's fields and loops.
 */
module ArtifactWriter {
  import opened Octets
  import opened Outcomes
  import opened Artifacts
  import opened ArtifactReader

  datatype Config = Config(
    runId: string, runRef: RunRef, profileId: string, barrierId: string, rank: int, worldSize: int,
    sensitivity: Sensitivity, retention: Option<int>, byteBudget: int, maxInflight: int, chunkBytes: int)

  /** What constructing a writer demands. */
  predicate ValidConfig(cfg: Config) {
    && cfg.runRef.kind == RUN_MANIFEST_KIND && cfg.runRef.identifier == cfg.runId
    && cfg.worldSize > 0 && 0 <= cfg.rank < cfg.worldSize
    && 0 < cfg.maxInflight <= cfg.byteBudget
    && 4096 <= cfg.chunkBytes <= cfg.maxInflight
    && (cfg.sensitivity.PublicAggregate? <==> cfg.retention == None)
    && (cfg.retention.Some? ==> cfg.retention.value > 0)
  }

  /** What goes wrong while a chunk is written; `Interrupted` strikes between writing its file and recording it. */
  datatype Fault = NoFault | CompressFault | WriteFault | Interrupted

  /** What goes wrong in a finalization: writing the manifest, leaving no file, or moving or dropping the staging. */
  datatype FinalFault = Smooth | ManifestFault | PublishFault

  datatype WriteError =
    | AlreadyFinalized | RankMismatch | ByteCountMismatch | NotPrivate | NoRetention | DuplicateId
    | OverInflight | OverBudget | CompressFailed | ChunkExists | WriteFailed | InterruptedWrite | NotPublic
    | NonTerminal | MissingBarrier | EmptyArtifact | CompleteWithErrors | NoErrorGiven
    | ManifestExists | ManifestFailed | Collision | ExistingCorrupt | PublishFailed

  /** The writer's fields as a value; `files` is the staging directory's chunk files. */
  datatype State = State(
    chunks: seq<Chunk>, tensors: seq<Tensor>, ids: set<string>, statistics: seq<Record>,
    consumed: nat, stored: nat, files: map<Path, Bytes>)

  const INITIAL := State([], [], {}, [], 0, 0, map[])

  // ----- Splitting a payload into chunks -----

  /** Where chunk `k` of a payload begins. */
  function Offset(cfg: Config, k: nat): nat
    requires cfg.chunkBytes > 0
  {
    if k == 0 then 0 else Offset(cfg, k - 1) + cfg.chunkBytes
  }

  function Piece(cfg: Config, payload: Bytes, k: nat): Bytes
    requires cfg.chunkBytes > 0
  {
    payload[Least(Offset(cfg, k), |payload|)..Least(Offset(cfg, k) + cfg.chunkBytes, |payload|)]
  }

  /** The number of chunks, counting from `k`. */
  function CountFrom(cfg: Config, payload: Bytes, k: nat): (n: nat)
    requires cfg.chunkBytes > 0
    ensures k <= n && Offset(cfg, n) >= |payload|
    ensures forall i :: k <= i < n ==> Offset(cfg, i) < |payload|
    decreases |payload| - Offset(cfg, k)
  {
    if Offset(cfg, k) >= |payload| then k else CountFrom(cfg, payload, k + 1)
  }

  function Count(cfg: Config, payload: Bytes): nat
    requires cfg.chunkBytes > 0
  {
    CountFrom(cfg, payload, 0)
  }

  /** The record of chunk `k` of a payload whose first chunk has number `base`. */
  function ChunkOf(env: Env, cfg: Config, id: string, payload: Bytes, base: nat, k: nat): Chunk
    requires cfg.chunkBytes > 0
  {
    var raw := Piece(cfg, payload, k);
    var packed := env.compress(raw);
    Chunk(base + k, ChunkFile(base + k), id, Offset(cfg, k), |raw|, |packed|, env.sha(raw), env.sha(packed), true)
  }

  function ChunksTo(env: Env, cfg: Config, id: string, payload: Bytes, base: nat, k: nat): (chunks: seq<Chunk>)
    requires cfg.chunkBytes > 0
    ensures |chunks| == k
  {
    if k == 0 then []
    else ChunksTo(env, cfg, id, payload, base, k - 1) + [ChunkOf(env, cfg, id, payload, base, k - 1)]
  }

  function FilesTo(env: Env, cfg: Config, payload: Bytes, base: nat, k: nat, files: map<Path, Bytes>)
    : map<Path, Bytes>
    requires cfg.chunkBytes > 0
  {
    if k == 0 then files
    else FilesTo(env, cfg, payload, base, k - 1, files)
           [ChunkFile(base + k - 1) := env.compress(Piece(cfg, payload, k - 1))]
  }

  function StoredTo(env: Env, cfg: Config, payload: Bytes, k: nat): nat
    requires cfg.chunkBytes > 0
  {
    if k == 0 then 0 else StoredTo(env, cfg, payload, k - 1) + |env.compress(Piece(cfg, payload, k - 1))|
  }

  // ----- One call -----

  function ReserveFailure(cfg: Config, consumed: nat, n: nat): Option<WriteError> {
    if n > cfg.maxInflight then Some(OverInflight)
    else if consumed + n > cfg.byteBudget then Some(OverBudget)
    else None
  }

  /** Why chunk `k` of the payload cannot be recorded; the chunks before it were. */
  function ChunkFailure(cfg: Config, s: State, payload: Bytes, k: nat, fault: nat -> Fault): Option<WriteError>
    requires cfg.chunkBytes > 0
  {
    var refused := ReserveFailure(cfg, s.consumed + Least(Offset(cfg, k), |payload|), |Piece(cfg, payload, k)|);
    if refused.Some? then refused
    else if fault(k).CompressFault? then Some(CompressFailed)
    else if ChunkFile(|s.chunks| + k) in s.files then Some(ChunkExists)
    else if fault(k).WriteFault? then Some(WriteFailed)
    else if fault(k).Interrupted? then Some(InterruptedWrite)
    else None
  }

  /** The first chunk from `k` on that cannot be recorded, or the chunk count. */
  function StopFrom(cfg: Config, s: State, payload: Bytes, k: nat, fault: nat -> Fault): (stop: nat)
    requires cfg.chunkBytes > 0 && k <= Count(cfg, payload)
    ensures k <= stop <= Count(cfg, payload)
    ensures forall i :: k <= i < stop ==> ChunkFailure(cfg, s, payload, i, fault) == None
    ensures stop < Count(cfg, payload) ==> ChunkFailure(cfg, s, payload, stop, fault).Some?
    decreases Count(cfg, payload) - k
  {
    if k == Count(cfg, payload) || ChunkFailure(cfg, s, payload, k, fault).Some? then k
    else StopFrom(cfg, s, payload, k + 1, fault)
  }

  function TensorRefusal(cfg: Config, s: State, finalized: bool, d: Descriptor, payload: Bytes): Option<WriteError> {
    if finalized then Some(AlreadyFinalized)
    else if d.rank != cfg.rank || d.worldSize != cfg.worldSize then Some(RankMismatch)
    else if ByteCount(d) != |payload| then Some(ByteCountMismatch)
    else if !cfg.sensitivity.RestrictedPrivate? then Some(NotPrivate)
    else if cfg.retention == None then Some(NoRetention)
    else if d.tensorId in s.ids then Some(DuplicateId)
    else None
  }

  /** The state after all chunks of the payload were recorded. */
  function Recorded(env: Env, cfg: Config, s: State, d: Descriptor, payload: Bytes): State
    requires cfg.chunkBytes > 0
  {
    var base, n := |s.chunks|, Count(cfg, payload);
    State(
      s.chunks + ChunksTo(env, cfg, d.tensorId, payload, base, n),
      s.tensors + [Tensor(d, Range(base, base + n))],
      s.ids + {d.tensorId}, s.statistics,
      s.consumed + |payload|, s.stored + StoredTo(env, cfg, payload, n),
      FilesTo(env, cfg, payload, base, n, s.files))
  }

  /**
   `write_tensor`: everything is recorded, or nothing is.  Only an interruption between writing a chunk's file
   and recording it leaves a trace, namely that file.
   */
  function Written(env: Env, cfg: Config, s: State, finalized: bool, d: Descriptor, payload: Bytes,
                   fault: nat -> Fault): (State, Option<WriteError>)
    requires cfg.chunkBytes > 0
  {
    var refused := TensorRefusal(cfg, s, finalized, d, payload);
    if refused.Some? then (s, refused)
    else
      var stop := StopFrom(cfg, s, payload, 0, fault);
      if stop == Count(cfg, payload) then (Recorded(env, cfg, s, d, payload), None)
      else
        var failure := ChunkFailure(cfg, s, payload, stop, fault);
        (if failure == Some(InterruptedWrite)
         then s.(files := s.files[ChunkFile(|s.chunks| + stop) := env.compress(Piece(cfg, payload, stop))])
         else s,
         failure)
  }

  /** `write_statistics`. */
  function Noted(env: Env, cfg: Config, s: State, finalized: bool, record: Record): (State, Option<WriteError>) {
    if finalized then (s, Some(AlreadyFinalized))
    else if cfg.sensitivity.PublicAggregate? && !env.publicSafe(record) then (s, Some(NotPublic))
    else
      var n := |env.canonical(record)|;
      var refused := ReserveFailure(cfg, s.consumed, n);
      if refused.Some? then (s, refused)
      else (s.(statistics := s.statistics + [record], consumed := s.consumed + n), None)
  }

  // ----- Finalization -----

  function ManifestOf(cfg: Config, s: State, state: Completeness, errors: seq<string>, pre: bool, post: bool): Manifest
  {
    Manifest(cfg.runId, cfg.runRef, cfg.profileId, cfg.rank, cfg.worldSize, Barrier(cfg.barrierId, pre, post),
             state, cfg.sensitivity, cfg.retention, s.consumed, s.stored, |s.chunks|,
             s.chunks, s.tensors, s.statistics, errors)
  }

  /** The refusals that precede the manifest. */
  function FinalRefusal(s: State, finalized: bool, state: Completeness, errors: seq<string>, pre: bool, post: bool)
    : Option<WriteError>
  {
    if finalized then Some(AlreadyFinalized)
    else if !Terminal(state) then Some(NonTerminal)
    else if state.Complete? && !(pre && post) then Some(MissingBarrier)
    else if state.Complete? && s.tensors == [] && s.statistics == [] then Some(EmptyArtifact)
    else if state.Complete? && errors != [] then Some(CompleteWithErrors)
    else if !state.Complete? && errors == [] then Some(NoErrorGiven)
    else None
  }

  /** The content address the artifact would go to, and what stands in its way there. */
  function DestinationRefusal(env: Env, store: Store, m: Manifest): Option<WriteError> {
    var digest := env.digest(m);
    if digest !in store then None
    else if store[digest].manifest != m then Some(Collision)
    else
      var v := Verify(env, store[digest], digest);
      if v.failure.Some? || v.state != m.state then Some(ExistingCorrupt) else None
  }

  datatype Finalization = Finalization(store: Store, staged: bool, finalized: bool, outcome: Result<Digest, WriteError>)

  /** `finalize`; `staged` says whether the staging directory already holds a manifest file. */
  function Finalized(env: Env, cfg: Config, s: State, finalized: bool, staged: bool, store: Store,
                     state: Completeness, errors: seq<string>, pre: bool, post: bool, fault: FinalFault): Finalization
  {
    var refused := FinalRefusal(s, finalized, state, errors, pre, post);
    if refused.Some? then Finalization(store, staged, finalized, Err(refused.value))
    else if staged then Finalization(store, staged, finalized, Err(ManifestExists))
    else if fault.ManifestFault? then Finalization(store, staged, finalized, Err(ManifestFailed))
    else
      var m := ManifestOf(cfg, s, state, errors, pre, post);
      var digest, blocked := env.digest(m), DestinationRefusal(env, store, m);
      if blocked.Some? then Finalization(store, true, finalized, Err(blocked.value))
      else if fault.PublishFault? then Finalization(store, true, finalized, Err(PublishFailed))
      else
        Finalization(if digest in store then store else store[digest := Directory(m, s.files)], true, true, Ok(digest))
  }

  // ----- Facts the loops need -----

  /** Below the chunk count there is payload left; at it there is none. */
  lemma {:induction false} MoreToWrite(cfg: Config, payload: Bytes, k: nat)
    requires cfg.chunkBytes > 0 && k <= Count(cfg, payload)
    ensures k < Count(cfg, payload) <==> Offset(cfg, k) < |payload|
  {
  }

  lemma {:induction false} ChunksToAt(env: Env, cfg: Config, id: string, payload: Bytes, base: nat, k: nat, i: nat)
    requires cfg.chunkBytes > 0 && i < k
    ensures ChunksTo(env, cfg, id, payload, base, k)[i] == ChunkOf(env, cfg, id, payload, base, i)
    decreases k
  {
    if i < k - 1 {
      ChunksToAt(env, cfg, id, payload, base, k - 1, i);
    }
  }

  predicate Between(p: Path, lo: nat, hi: nat) {
    p.ChunkFile? && lo <= p.number < hi
  }

  lemma {:induction false} FilesToAt(env: Env, cfg: Config, payload: Bytes, base: nat, k: nat, files: map<Path, Bytes>,
                                     p: Path)
    requires cfg.chunkBytes > 0
    ensures
      var after := FilesTo(env, cfg, payload, base, k, files);
      && (p in after <==> Between(p, base, base + k) || p in files)
      && (Between(p, base, base + k) ==> after[p] == env.compress(Piece(cfg, payload, p.number - base)))
      && (!Between(p, base, base + k) && p in files ==> after[p] == files[p])
    decreases k
  {
    if k > 0 {
      FilesToAt(env, cfg, payload, base, k - 1, files, p);
    }
  }

  /** Unlinking chunk files `base` to `base + k - 1`, in order. */
  function Unlinked(files: map<Path, Bytes>, base: nat, k: nat): map<Path, Bytes> {
    if k == 0 then files else Unlinked(files, base, k - 1) - {ChunkFile(base + k - 1)}
  }

  lemma {:induction false} UnlinkedAt(files: map<Path, Bytes>, base: nat, k: nat, p: Path)
    ensures p in Unlinked(files, base, k) <==> p in files && !Between(p, base, base + k)
    ensures p in Unlinked(files, base, k) ==> Unlinked(files, base, k)[p] == files[p]
    decreases k
  {
    if k > 0 {
      UnlinkedAt(files, base, k - 1, p);
    }
  }

  /** Unlinking what a failed call had written gives the files from before the call, an orphan apart. */
  lemma {:induction false} RollbackFiles(env: Env, cfg: Config, payload: Bytes, base: nat, k: nat,
                                         files: map<Path, Bytes>, orphan: Option<Bytes>)
    requires cfg.chunkBytes > 0 && Unused(files, base, k)
    ensures
      var failed := FilesTo(env, cfg, payload, base, k, files);
      && Unlinked(failed, base, k) == files
      && (orphan.Some? ==>
            Unlinked(failed[ChunkFile(base + k) := orphan.value], base, k)
            == files[ChunkFile(base + k) := orphan.value])
  {
    var failed := FilesTo(env, cfg, payload, base, k, files);
    forall p
      ensures p in Unlinked(failed, base, k) <==> p in files
      ensures p in files ==> Unlinked(failed, base, k)[p] == files[p]
    {
      UnlinkedAt(failed, base, k, p);
      FilesToAt(env, cfg, payload, base, k, files, p);
    }
    if orphan.Some? {
      var failed', files' := failed[ChunkFile(base + k) := orphan.value], files[ChunkFile(base + k) := orphan.value];
      forall p
        ensures p in Unlinked(failed', base, k) <==> p in files'
        ensures p in files' ==> Unlinked(failed', base, k)[p] == files'[p]
      {
        UnlinkedAt(failed', base, k, p);
        FilesToAt(env, cfg, payload, base, k, files, p);
      }
    }
  }

  /** No file is named like chunks `base` to `base + k - 1`. */
  ghost predicate Unused(files: map<Path, Bytes>, base: nat, k: nat) {
    forall p :: p in files ==> !Between(p, base, base + k)
  }

  /** The writer in the middle of a tensor: chunks 0 to k - 1 of the payload are recorded. */
  ghost predicate Midway(env: Env, cfg: Config, s: State, id: string, payload: Bytes, fault: nat -> Fault, k: nat,
                         now: State)
  {
    && cfg.chunkBytes > 0 && k <= Count(cfg, payload)
    && StopFrom(cfg, s, payload, 0, fault) == StopFrom(cfg, s, payload, k, fault)
    && Unused(s.files, |s.chunks|, k)
    && now == State(s.chunks + ChunksTo(env, cfg, id, payload, |s.chunks|, k), s.tensors, s.ids + {id}, s.statistics,
                    s.consumed + Least(Offset(cfg, k), |payload|), s.stored + StoredTo(env, cfg, payload, k),
                    FilesTo(env, cfg, payload, |s.chunks|, k, s.files))
  }

  /** The writer after chunk `k` was compressed, written and recorded. */
  function WithChunk(env: Env, cfg: Config, id: string, payload: Bytes, base: nat, k: nat, now: State): State
    requires cfg.chunkBytes > 0
  {
    var packed := env.compress(Piece(cfg, payload, k));
    now.(chunks := now.chunks + [ChunkOf(env, cfg, id, payload, base, k)],
         consumed := now.consumed + |Piece(cfg, payload, k)|, stored := now.stored + |packed|,
         files := now.files[ChunkFile(base + k) := packed])
  }

  lemma {:induction false} PieceLength(cfg: Config, payload: Bytes, k: nat)
    requires cfg.chunkBytes > 0 && Offset(cfg, k) < |payload|
    ensures Least(Offset(cfg, k + 1), |payload|) == Offset(cfg, k) + |Piece(cfg, payload, k)|
    ensures Piece(cfg, payload, k) == payload[Offset(cfg, k)..Least(Offset(cfg, k) + cfg.chunkBytes, |payload|)]
  {
  }

  lemma {:induction false} MidwayStart(env: Env, cfg: Config, s: State, id: string, payload: Bytes, fault: nat -> Fault)
    requires cfg.chunkBytes > 0
    ensures Midway(env, cfg, s, id, payload, fault, 0, s.(ids := s.ids + {id}))
  {
    assert s.chunks + [] == s.chunks;
  }

  /** One turn of the chunk loop: chunk `k` fails as `ChunkFailure` says, or the writer is midway at `k + 1`. */
  lemma {:induction false} MidwayStep(env: Env, cfg: Config, s: State, id: string, payload: Bytes, fault: nat -> Fault,
                                      k: nat, now: State)
    requires Midway(env, cfg, s, id, payload, fault, k, now) && Offset(cfg, k) < |payload|
    ensures k < Count(cfg, payload)
    ensures now.consumed == s.consumed + Offset(cfg, k) && |now.chunks| == |s.chunks| + k
    ensures ChunkFile(|s.chunks| + k) in now.files <==> ChunkFile(|s.chunks| + k) in s.files
    ensures Least(Offset(cfg, k + 1), |payload|) == Offset(cfg, k) + |Piece(cfg, payload, k)|
    ensures ChunkFailure(cfg, s, payload, k, fault) == None
        ==> Midway(env, cfg, s, id, payload, fault, k + 1, WithChunk(env, cfg, id, payload, |s.chunks|, k, now))
    ensures ChunkFailure(cfg, s, payload, k, fault).Some? ==> StopFrom(cfg, s, payload, 0, fault) == k
  {
    hide ChunkOf, Piece, ReserveFailure, CountFrom;
    var base := |s.chunks|;
    MoreToWrite(cfg, payload, k);
    PieceLength(cfg, payload, k);
    FilesToAt(env, cfg, payload, base, k, s.files, ChunkFile(base + k));
    if ChunkFailure(cfg, s, payload, k, fault) == None {
      forall p | p in s.files
        ensures !Between(p, base, base + k + 1)
      {
        assert p != ChunkFile(base + k);
      }
      var now' := WithChunk(env, cfg, id, payload, base, k, now);
      assert now'.chunks == s.chunks + ChunksTo(env, cfg, id, payload, base, k + 1);
    }
  }

  /** One chunk: reserved, compressed, written, recorded; or what failed, and what it left behind. */
  function Attempted(env: Env, cfg: Config, now: State, id: string, raw: Bytes, offset: nat, fault: Fault)
    : (State, Option<WriteError>)
  {
    var refused := ReserveFailure(cfg, now.consumed, |raw|);
    if refused.Some? then (now, refused)
    else
      var reserved := now.(consumed := now.consumed + |raw|);
      var packed, index := env.compress(raw), |now.chunks|;
      if fault.CompressFault? then (reserved, Some(CompressFailed))
      else if ChunkFile(index) in now.files then (reserved, Some(ChunkExists))
      else if fault.WriteFault? then (reserved, Some(WriteFailed))
      else
        var onDisk := reserved.(files := now.files[ChunkFile(index) := packed]);
        if fault.Interrupted? then (onDisk, Some(InterruptedWrite))
        else
          (onDisk.(chunks := now.chunks + [Chunk(index, ChunkFile(index), id, offset, |raw|, |packed|, env.sha(raw),
                                                 env.sha(packed), true)],
                   stored := now.stored + |packed|),
           None)
  }

  /** One turn, in the writer's own terms. */
  lemma {:induction false} Turn(env: Env, cfg: Config, s: State, id: string, payload: Bytes, fault: nat -> Fault,
                                k: nat, now: State)
    requires Midway(env, cfg, s, id, payload, fault, k, now) && Least(Offset(cfg, k), |payload|) < |payload|
    ensures cfg.chunkBytes > 0 && |now.chunks| == |s.chunks| + k
    ensures
      var offset := Least(Offset(cfg, k), |payload|);
      var end := Least(offset + cfg.chunkBytes, |payload|);
      && offset < end == Least(Offset(cfg, k + 1), |payload|)
      && payload[offset..end] == Piece(cfg, payload, k)
      && var (next, failure) := Attempted(env, cfg, now, id, payload[offset..end], offset, fault(k));
      && failure == ChunkFailure(cfg, s, payload, k, fault)
      && (failure == None ==>
            Midway(env, cfg, s, id, payload, fault, k + 1, next) && |next.chunks| == |s.chunks| + k + 1)
  {
    hide StopFrom, FilesTo, ChunksTo, StoredTo, CountFrom;
    MidwayStep(env, cfg, s, id, payload, fault, k, now);
    PieceLength(cfg, payload, k);
  }

  /** What a failed attempt leaves to roll back. */
  lemma {:induction false} LeftBehind(env: Env, cfg: Config, now: State, id: string, raw: Bytes, offset: nat,
                                      fault: Fault)
    ensures
      var (next, failure) := Attempted(env, cfg, now, id, raw, offset, fault);
      failure.Some? ==>
        && next.chunks == now.chunks && next.tensors == now.tensors && next.ids == now.ids
        && next.statistics == now.statistics
        && next.files == if failure == Some(InterruptedWrite)
                         then now.files[ChunkFile(|now.chunks|) := env.compress(raw)] else now.files
  {
  }

  /** A tensor call that stopped at chunk `k`, before its rollback: what unlinking and truncating will restore. */
  ghost predicate Stopped(env: Env, cfg: Config, s: State, id: string, payload: Bytes, fault: nat -> Fault, k: nat,
                          next: State, failure: Option<WriteError>)
  {
    && cfg.chunkBytes > 0
    && k == StopFrom(cfg, s, payload, 0, fault) < Count(cfg, payload)
    && failure == ChunkFailure(cfg, s, payload, k, fault)
    && |next.chunks| == |s.chunks| + k && next.chunks[..|s.chunks|] == s.chunks
    && (forall i :: |s.chunks| <= i < |next.chunks| ==> next.chunks[i].path == ChunkFile(i))
    && next.tensors == s.tensors && next.ids == s.ids + {id} && next.statistics == s.statistics
    && Unlinked(next.files, |s.chunks|, k)
       == if failure == Some(InterruptedWrite)
          then s.files[ChunkFile(|s.chunks| + k) := env.compress(Piece(cfg, payload, k))] else s.files
  }

  lemma {:induction false} MidwayFailed(env: Env, cfg: Config, s: State, id: string, payload: Bytes,
                                        fault: nat -> Fault, k: nat, now: State, offset: nat, raw: Bytes)
    requires Midway(env, cfg, s, id, payload, fault, k, now) && Least(Offset(cfg, k), |payload|) < |payload|
    requires raw == Piece(cfg, payload, k)
    requires
      var failure := Attempted(env, cfg, now, id, raw, offset, fault(k)).1;
      failure.Some? && failure == ChunkFailure(cfg, s, payload, k, fault)
    ensures
      var (next, failure) := Attempted(env, cfg, now, id, raw, offset, fault(k));
      Stopped(env, cfg, s, id, payload, fault, k, next, failure)
  {
    hide ChunkOf, Piece, ReserveFailure, CountFrom, FilesTo, ChunksTo, StoredTo, Recorded, Unlinked, StopFrom,
         ChunkFailure, Attempted;
    var base, next := |s.chunks|, Attempted(env, cfg, now, id, raw, offset, fault(k)).0;
    LeftBehind(env, cfg, now, id, raw, offset, fault(k));
    MidwayStep(env, cfg, s, id, payload, fault, k, now);
    forall i | base <= i < |next.chunks|
      ensures next.chunks[i].path == ChunkFile(i)
    {
      ChunksToAt(env, cfg, id, payload, base, k, i - base);
      ChunkPath(env, cfg, id, payload, base, i - base);
    }
    RollbackFiles(env, cfg, payload, base, k, s.files, Some(env.compress(Piece(cfg, payload, k))));
  }

  /** A stopped call, rolled back, leaves what `Written` says. */
  lemma {:induction false} StoppedIsWritten(env: Env, cfg: Config, s: State, d: Descriptor, payload: Bytes,
                                            fault: nat -> Fault, k: nat, next: State, failure: Option<WriteError>)
    requires Stopped(env, cfg, s, d.tensorId, payload, fault, k, next, failure)
    requires TensorRefusal(cfg, s, false, d, payload) == None
    ensures
      Written(env, cfg, s, false, d, payload, fault)
      == (State(next.chunks[..|s.chunks|], next.tensors, next.ids - {d.tensorId}, next.statistics, s.consumed,
                s.stored, Unlinked(next.files, |s.chunks|, |next.chunks| - |s.chunks|)), failure)
  {
    hide Piece, CountFrom, Recorded, StopFrom, ChunkFailure, Unlinked;
    assert (s.ids + {d.tensorId}) - {d.tensorId} == s.ids;
  }

  lemma {:induction false} StoppedPaths(env: Env, cfg: Config, s: State, id: string, payload: Bytes,
                                        fault: nat -> Fault, k: nat, next: State, failure: Option<WriteError>)
    requires Stopped(env, cfg, s, id, payload, fault, k, next, failure)
    ensures |s.chunks| <= |next.chunks|
    ensures forall i :: |s.chunks| <= i < |next.chunks| ==> next.chunks[i].path == ChunkFile(i)
  {
  }

  lemma {:induction false} ChunkPath(env: Env, cfg: Config, id: string, payload: Bytes, base: nat, k: nat)
    requires cfg.chunkBytes > 0
    ensures ChunkOf(env, cfg, id, payload, base, k).path == ChunkFile(base + k)
  {
  }

  lemma {:induction false} MidwayEnd(env: Env, cfg: Config, s: State, d: Descriptor, payload: Bytes,
                                     fault: nat -> Fault, k: nat, now: State)
    requires Midway(env, cfg, s, d.tensorId, payload, fault, k, now) && Least(Offset(cfg, k), |payload|) >= |payload|
    requires TensorRefusal(cfg, s, false, d, payload) == None
    ensures
      Written(env, cfg, s, false, d, payload, fault)
      == (now.(tensors := now.tensors + [Tensor(d, Range(|s.chunks|, |s.chunks| + k))]), None)
  {
    MoreToWrite(cfg, payload, k);
  }

  // ----- The writer -----

  /** The store root: the content-addressed directories. */
  class ArtifactStore {
    var dirs: Store

    constructor ()
      ensures dirs == map[]
    {
      dirs := map[];
    }
  }

  class ActivationArtifactWriter {
    const env: Env
    const cfg: Config
    var chunks: seq<Chunk>
    var tensors: seq<Tensor>
    var tensorIds: set<string>
    var statistics: seq<Record>
    var consumedBytes: nat
    var storedBytes: nat
    var finalized: bool
    var files: map<Path, Bytes>  // the staging directory's chunk files
    var manifestStaged: bool     // whether the staging directory holds a manifest

    function Now(): State
      reads this
    {
      State(chunks, tensors, tensorIds, statistics, consumedBytes, storedBytes, files)
    }

    constructor (env: Env, cfg: Config)
      requires ValidConfig(cfg)
      ensures this.env == env && this.cfg == cfg
      ensures Now() == INITIAL && !finalized && !manifestStaged
    {
      this.env, this.cfg := env, cfg;
      chunks, tensors, tensorIds, statistics := [], [], {}, [];
      consumedBytes, storedBytes, finalized, files, manifestStaged := 0, 0, false, map[], false;
    }

    method Reserve(byteCount: nat) returns (refused: Option<WriteError>)
      modifies this`consumedBytes
      ensures refused == ReserveFailure(cfg, old(consumedBytes), byteCount)
      ensures consumedBytes == old(consumedBytes) + (if refused == None then byteCount else 0)
    {
      if byteCount > cfg.maxInflight {
        return Some(OverInflight);
      }
      if consumedBytes + byteCount > cfg.byteBudget {
        return Some(OverBudget);
      }
      consumedBytes := consumedBytes + byteCount;
      refused := None;
    }

    /** Reserves, compresses, writes and records one chunk, or says what failed. */
    method WriteChunk(id: string, raw: Bytes, offset: nat, fault: Fault) returns (failure: Option<WriteError>)
      modifies this`consumedBytes, this`files, this`chunks, this`storedBytes
      ensures (Now(), failure) == Attempted(env, cfg, old(Now()), id, raw, offset, fault)
    {
      failure := Reserve(|raw|);
      if failure.Some? {
        return;
      }
      if fault.CompressFault? {
        return Some(CompressFailed);
      }
      var compressed, chunkIndex := env.compress(raw), |chunks|;
      var path := ChunkFile(chunkIndex);
      if path in files {
        return Some(ChunkExists);
      }
      if fault.WriteFault? {
        return Some(WriteFailed);
      }
      files := files[path := compressed];
      if fault.Interrupted? {
        return Some(InterruptedWrite);
      }
      chunks := chunks + [Chunk(chunkIndex, path, id, offset, |raw|, |compressed|, env.sha(raw), env.sha(compressed),
                                true)];
      storedBytes := storedBytes + |compressed|;
    }

    /** Undoes the chunks recorded since the call began. */
    method Rollback(id: string, initialChunks: nat, initialConsumed: nat, initialStored: nat)
      requires initialChunks <= |chunks|
      requires forall i :: initialChunks <= i < |chunks| ==> chunks[i].path == ChunkFile(i)
      modifies this
      ensures finalized == old(finalized) && manifestStaged == old(manifestStaged)
      ensures Now() == State(old(chunks)[..initialChunks], old(tensors), old(tensorIds) - {id}, old(statistics),
                             initialConsumed, initialStored,
                             Unlinked(old(files), initialChunks, |old(chunks)| - initialChunks))
    {
      var i := initialChunks;
      while i < |chunks|
        invariant initialChunks <= i <= |chunks|
        invariant Now().(files := old(files)) == old(Now())
        invariant finalized == old(finalized) && manifestStaged == old(manifestStaged)
        invariant files == Unlinked(old(files), initialChunks, i - initialChunks)
      {
        files := files - {chunks[i].path};
        i := i + 1;
      }
      chunks := chunks[..initialChunks];
      consumedBytes, storedBytes := initialConsumed, initialStored;
      tensorIds := tensorIds - {id};
    }

    /** One turn of the chunk loop, from chunk `k`, which begins at `offset`. */
    method WriteNext(id: string, payload: Bytes, offset: nat, fault: Fault, ghost faults: nat -> Fault, ghost s: State,
                     ghost k: nat)
      returns (failure: Option<WriteError>, end: nat)
      requires Midway(env, cfg, s, id, payload, faults, k, Now()) && fault == faults(k)
      requires offset == Least(Offset(cfg, k), |payload|) < |payload|
      modifies this`chunks, this`consumedBytes, this`storedBytes, this`files
      ensures offset < end == Least(Offset(cfg, k + 1), |payload|)
      ensures failure == None ==>
        Midway(env, cfg, s, id, payload, faults, k + 1, Now()) && |chunks| == |s.chunks| + k + 1
      ensures failure.Some? ==> Stopped(env, cfg, s, id, payload, faults, k, Now(), failure)
    {
      hide Midway, Attempted, Stopped, Offset, Piece, ChunkFailure;
      ghost var now := Now();
      Turn(env, cfg, s, id, payload, faults, k, now);
      end := Least(offset + cfg.chunkBytes, |payload|);
      failure := WriteChunk(id, payload[offset..end], offset, fault);
      if failure.Some? {
        MidwayFailed(env, cfg, s, id, payload, faults, k, now, offset, payload[offset..end]);
      }
    }

    /** The chunk loop; `k` counts the chunks recorded. */
    method WriteChunks(id: string, payload: Bytes, fault: nat -> Fault, ghost s: State)
      returns (failure: Option<WriteError>, ghost k: nat)
      requires Midway(env, cfg, s, id, payload, fault, 0, Now())
      modifies this`chunks, this`consumedBytes, this`storedBytes, this`files
      ensures failure == None ==>
        && Midway(env, cfg, s, id, payload, fault, k, Now()) && Least(Offset(cfg, k), |payload|) >= |payload|
        && |chunks| == |s.chunks| + k
      ensures failure.Some? ==> Stopped(env, cfg, s, id, payload, fault, k, Now(), failure)
    {
      var offset, initialChunks := 0, |chunks|;
      failure, k := None, 0;
      assert initialChunks == |s.chunks| && Offset(cfg, k) == Least(0, |payload|) == 0;
      hide Midway, Attempted, Stopped, Offset, Piece, ChunkFailure, Least, Range;
      while offset < |payload|
        invariant failure == None && Midway(env, cfg, s, id, payload, fault, k, Now())
        invariant offset == Least(Offset(cfg, k), |payload|) && |chunks| == |s.chunks| + k
        decreases |payload| - offset
      {
        failure, offset := WriteNext(id, payload, offset, fault(|chunks| - initialChunks), fault, s, k);
        if failure.Some? {
          return;
        }
        k := k + 1;
      }
    }

    method WriteTensor(d: Descriptor, payload: Bytes, fault: nat -> Fault) returns (failure: Option<WriteError>)
      requires ValidConfig(cfg)
      modifies this
      ensures (Now(), failure) == Written(env, cfg, old(Now()), old(finalized), d, payload, fault)
      ensures finalized == old(finalized) && manifestStaged == old(manifestStaged)
    {
      failure := TensorRefusal(cfg, Now(), finalized, d, payload);
      if failure == None {
        assert !finalized;
        hide Written, TensorRefusal;
        failure := WriteAdmitted(d, payload, fault);
      }
    }

    /** The part of `write_tensor` that runs under its rollback. */
    method WriteAdmitted(d: Descriptor, payload: Bytes, fault: nat -> Fault) returns (failure: Option<WriteError>)
      requires ValidConfig(cfg) && !finalized && TensorRefusal(cfg, Now(), false, d, payload) == None
      modifies this
      ensures (Now(), failure) == Written(env, cfg, old(Now()), false, d, payload, fault)
      ensures finalized == old(finalized) && manifestStaged == old(manifestStaged)
    {
      hide TensorRefusal, Written, Midway, Stopped, Unlinked, Range;
      ghost var s := Now();
      tensorIds := tensorIds + {d.tensorId};
      var initialChunks, initialConsumed, initialStored := |chunks|, consumedBytes, storedBytes;
      MidwayStart(env, cfg, s, d.tensorId, payload, fault);
      ghost var k;
      failure, k := WriteChunks(d.tensorId, payload, fault, s);
      if failure.Some? {
        StoppedIsWritten(env, cfg, s, d, payload, fault, k, Now(), failure);
        StoppedPaths(env, cfg, s, d.tensorId, payload, fault, k, Now(), failure);
        Rollback(d.tensorId, initialChunks, initialConsumed, initialStored);
      } else {
        MidwayEnd(env, cfg, s, d, payload, fault, k, Now());
        tensors := tensors + [Tensor(d, Range(initialChunks, |chunks|))];
      }
    }

    method WriteStatistics(record: Record) returns (failure: Option<WriteError>)
      modifies this
      ensures (Now(), failure) == Noted(env, cfg, old(Now()), old(finalized), record)
      ensures finalized == old(finalized) && manifestStaged == old(manifestStaged)
    {
      if finalized {
        return Some(AlreadyFinalized);
      }
      if cfg.sensitivity.PublicAggregate? && !env.publicSafe(record) {
        return Some(NotPublic);
      }
      failure := Reserve(|env.canonical(record)|);
      if failure == None {
        statistics := statistics + [record];
      }
    }

    /** Renames the staging directory to its digest, or drops it for an identical artifact already there. */
    method Publish(store: ArtifactStore, manifest: Manifest, fault: FinalFault) returns (blocked: Option<WriteError>)
      modifies store
      ensures
        var refused := DestinationRefusal(env, old(store.dirs), manifest);
        blocked == if refused == None && fault.PublishFault? then Some(PublishFailed) else refused
      ensures
        var digest := env.digest(manifest);
        store.dirs == (if blocked.Some? || digest in old(store.dirs) then old(store.dirs)
                       else old(store.dirs)[digest := Directory(manifest, files)])
    {
      hide Verify;
      var digest := env.digest(manifest);
      if digest in store.dirs {
        if store.dirs[digest].manifest != manifest {
          return Some(Collision);
        }
        var v := VerifyArtifact(env, store.dirs[digest], digest);
        if v.failure.Some? || v.state != manifest.state {
          return Some(ExistingCorrupt);
        }
      }
      if fault.PublishFault? {
        return Some(PublishFailed);
      }
      if digest !in store.dirs {
        store.dirs := store.dirs[digest := Directory(manifest, files)];
      }
      blocked := None;
    }

    method Finalize(store: ArtifactStore, state: Completeness, errors: seq<string>, pre: bool, post: bool,
                    fault: FinalFault)
      returns (outcome: Result<Digest, WriteError>)
      modifies this, store
      ensures
        Finalization(store.dirs, manifestStaged, finalized, outcome)
        == Finalized(env, cfg, old(Now()), old(finalized), old(manifestStaged), old(store.dirs), state, errors, pre,
                     post, fault)
      ensures Now() == old(Now())
    {
      var refused := FinalRefusal(Now(), finalized, state, errors, pre, post);
      if refused.Some? {
        return Err(refused.value);
      }
      if manifestStaged {
        return Err(ManifestExists);
      }
      if fault.ManifestFault? {
        return Err(ManifestFailed);
      }
      hide DestinationRefusal;
      var manifest := ManifestOf(cfg, Now(), state, errors, pre, post);
      manifestStaged := true;
      var blocked := Publish(store, manifest, fault);
      if blocked.Some? {
        return Err(blocked.value);
      }
      finalized := true;
      outcome := Ok(env.digest(manifest));
    }

    /** Leaving the writer's scope: whatever was not finalized becomes a partial artifact. */
    method Exit(store: ArtifactStore, reason: string, fault: FinalFault)
      returns (outcome: Option<Result<Digest, WriteError>>)
      modifies this, store
      ensures old(finalized) ==> outcome == None && finalized && store.dirs == old(store.dirs)
      ensures !old(finalized) ==>
        && outcome.Some?
        && Finalization(store.dirs, manifestStaged, finalized, outcome.value)
           == Finalized(env, cfg, old(Now()), false, old(manifestStaged), old(store.dirs), Partial, [reason], false,
                        false, fault)
      ensures Now() == old(Now())
    {
      outcome := None;
      if !finalized {
        var o := Finalize(store, Partial, [reason], false, false, fault);
        outcome := Some(o);
      }
    }
  }
}
