/**
 Whole runs of the writer: any sequence of tensor and statistics calls, failed ones included, then a
 finalization.
 */
module ArtifactRuns {
  import opened Octets
  import opened Outcomes
  import opened Artifacts
  import opened ArtifactReader
  import opened ArtifactWriter
  import opened ArtifactSoundness

  datatype Op = WriteOp(descriptor: Descriptor, payload: Bytes, fault: nat -> Fault) | NoteOp(record: Record)

  /** The writer's state together with the payloads it accepted, in order. */
  datatype Ledger = Ledger(state: State, payloads: seq<Bytes>)

  function Outcome(env: Env, cfg: Config, s: State, op: Op): (State, Option<WriteError>)
    requires cfg.chunkBytes > 0
  {
    match op
    case WriteOp(d, payload, fault) => Written(env, cfg, s, false, d, payload, fault)
    case NoteOp(record) => Noted(env, cfg, s, false, record)
  }

  function Step(env: Env, cfg: Config, l: Ledger, op: Op): Ledger
    requires cfg.chunkBytes > 0
  {
    var (state, failure) := Outcome(env, cfg, l.state, op);
    Ledger(state, if op.WriteOp? && failure == None then l.payloads + [op.payload] else l.payloads)
  }

  /** The first `n` calls of a run. */
  function Run(env: Env, cfg: Config, ops: seq<Op>, n: nat): Ledger
    requires cfg.chunkBytes > 0 && n <= |ops|
  {
    if n == 0 then Ledger(INITIAL, []) else Step(env, cfg, Run(env, cfg, ops, n - 1), ops[n - 1])
  }

  /** Descriptors are validated when they are built. */
  ghost predicate ValidOps(ops: seq<Op>) {
    forall i :: 0 <= i < |ops| && ops[i].WriteOp? ==> ValidDescriptor(ops[i].descriptor)
  }

  // ----- What every call keeps -----

  /** The number of the first chunk of payload `i`. */
  function Base(cfg: Config, payloads: seq<Bytes>, i: nat): nat
    requires cfg.chunkBytes > 0 && i <= |payloads|
  {
    if i == 0 then 0 else Base(cfg, payloads, i - 1) + Count(cfg, payloads[i - 1])
  }

  function PayloadBytes(payloads: seq<Bytes>, i: nat): nat
    requires i <= |payloads|
  {
    if i == 0 then 0 else PayloadBytes(payloads, i - 1) + |payloads[i - 1]|
  }

  /** Chunk `k` of tensor `i` is in the chunk table and on disk. */
  ghost predicate ChunkKept(env: Env, cfg: Config, s: State, id: string, payload: Bytes, base: nat, k: nat)
    requires cfg.chunkBytes > 0
  {
    && base + k < |s.chunks| && s.chunks[base + k] == ChunkOf(env, cfg, id, payload, base, k)
    && ChunkFile(base + k) in s.files && s.files[ChunkFile(base + k)] == env.compress(Piece(cfg, payload, k))
  }

  ghost predicate TensorKept(env: Env, cfg: Config, l: Ledger, i: nat)
    requires cfg.chunkBytes > 0 && i < |l.payloads| == |l.state.tensors|
  {
    var t, payload, base := l.state.tensors[i], l.payloads[i], Base(cfg, l.payloads, i);
    && ValidDescriptor(t.descriptor) && t.descriptor.rank == cfg.rank && t.descriptor.worldSize == cfg.worldSize
    && ByteCount(t.descriptor) == |payload|
    && t.indices == Range(base, base + Count(cfg, payload))
    && t.descriptor.tensorId !in IdsTo(l.state.tensors, i)
    && forall k :: 0 <= k < Count(cfg, payload)
         ==> ChunkKept(env, cfg, l.state, t.descriptor.tensorId, payload, base, k)
  }

  ghost predicate Accounted(env: Env, cfg: Config, l: Ledger)
    requires cfg.chunkBytes > 0
  {
    var s := l.state;
    && |l.payloads| == |s.tensors| && |s.chunks| == Base(cfg, l.payloads, |l.payloads|)
    && s.ids == IdsTo(s.tensors, |s.tensors|)
    && s.consumed == PayloadBytes(l.payloads, |l.payloads|) + RecordBytes(env, s.statistics, |s.statistics|)
    && s.consumed <= cfg.byteBudget
    && s.stored == StoredBytes(s.chunks, |s.chunks|)
    && (forall c :: 0 <= c < |s.chunks| ==> s.chunks[c].storedBytes >= 0)
    && (s.tensors != [] ==> cfg.sensitivity.RestrictedPrivate? && cfg.retention.Some?)
    && (cfg.sensitivity.PublicAggregate? ==> forall r :: 0 <= r < |s.statistics| ==> env.publicSafe(s.statistics[r]))
  }

  /** The invariant of every run. */
  ghost predicate Kept(env: Env, cfg: Config, l: Ledger)
    requires cfg.chunkBytes > 0
  {
    && Accounted(env, cfg, l)
    && forall i :: 0 <= i < |l.payloads| ==> TensorKept(env, cfg, l, i)
  }

  lemma {:induction false} BasePrefix(cfg: Config, payloads: seq<Bytes>, payload: Bytes, i: nat)
    requires cfg.chunkBytes > 0 && i <= |payloads|
    ensures Base(cfg, payloads + [payload], i) == Base(cfg, payloads, i)
    ensures PayloadBytes(payloads + [payload], i) == PayloadBytes(payloads, i)
  {
    if i > 0 {
      BasePrefix(cfg, payloads, payload, i - 1);
    }
  }

  lemma {:induction false} IdsPrefix(tensors: seq<Tensor>, t: Tensor, i: nat)
    requires i <= |tensors|
    ensures IdsTo(tensors + [t], i) == IdsTo(tensors, i)
  {
    if i > 0 {
      IdsPrefix(tensors, t, i - 1);
    }
  }

  lemma {:induction false} RecordBytesPrefix(env: Env, records: seq<Record>, record: Record, i: nat)
    requires i <= |records|
    ensures RecordBytes(env, records + [record], i) == RecordBytes(env, records, i)
  {
    if i > 0 {
      RecordBytesPrefix(env, records, record, i - 1);
    }
  }

  lemma {:induction false} StoredBytesPrefix(a: seq<Chunk>, b: seq<Chunk>, i: nat)
    requires i <= |a|
    ensures StoredBytes(a + b, i) == StoredBytes(a, i)
  {
    if i > 0 {
      StoredBytesPrefix(a, b, i - 1);
    }
  }

  lemma {:induction false} StoredBytesOfChunks(env: Env, cfg: Config, a: seq<Chunk>, id: string, payload: Bytes,
                                               base: nat, k: nat)
    requires cfg.chunkBytes > 0
    ensures
      var all := a + ChunksTo(env, cfg, id, payload, base, k);
      StoredBytes(all, |all|) == StoredBytes(a, |a|) + StoredTo(env, cfg, payload, k)
  {
    if k == 0 {
      assert a + [] == a;
    } else {
      var most := a + ChunksTo(env, cfg, id, payload, base, k - 1);
      var last := ChunkOf(env, cfg, id, payload, base, k - 1);
      StoredBytesOfChunks(env, cfg, a, id, payload, base, k - 1);
      StoredBytesPrefix(most, [last], |most|);
      assert a + ChunksTo(env, cfg, id, payload, base, k) == most + [last];
    }
  }

  /** Every admitted chunk was within the budget, so the whole payload is. */
  lemma {:induction false} WithinBudget(cfg: Config, s: State, payload: Bytes, fault: nat -> Fault)
    requires cfg.chunkBytes > 0 && s.consumed <= cfg.byteBudget
    requires StopFrom(cfg, s, payload, 0, fault) == Count(cfg, payload)
    ensures s.consumed + |payload| <= cfg.byteBudget
  {
    var n := Count(cfg, payload);
    if n > 0 {
      assert ChunkFailure(cfg, s, payload, n - 1, fault) == None;
      PieceLength(cfg, payload, n - 1);
    }
  }

  /** The chunks of a tensor just recorded. */
  lemma {:induction false} NewTensorChunk(env: Env, cfg: Config, s: State, d: Descriptor, payload: Bytes, k: nat)
    requires cfg.chunkBytes > 0 && k < Count(cfg, payload)
    ensures ChunkKept(env, cfg, Recorded(env, cfg, s, d, payload), d.tensorId, payload, |s.chunks|, k)
  {
    var base, n := |s.chunks|, Count(cfg, payload);
    ChunksToAt(env, cfg, d.tensorId, payload, base, n, k);
    FilesToAt(env, cfg, payload, base, n, s.files, ChunkFile(base + k));
  }

  /** The chunks of an earlier tensor survive a later one. */
  lemma {:induction false} OldTensorChunk(env: Env, cfg: Config, s: State, d: Descriptor, payload: Bytes, id: string,
                                          old': Bytes, base: nat, k: nat)
    requires cfg.chunkBytes > 0 && ChunkKept(env, cfg, s, id, old', base, k)
    ensures ChunkKept(env, cfg, Recorded(env, cfg, s, d, payload), id, old', base, k)
  {
    FilesToAt(env, cfg, payload, |s.chunks|, Count(cfg, payload), s.files, ChunkFile(base + k));
  }

  lemma {:induction false} TensorAdded(env: Env, cfg: Config, l: Ledger, d: Descriptor, payload: Bytes)
    requires cfg.chunkBytes > 0 && Kept(env, cfg, l) && ValidDescriptor(d)
    requires TensorRefusal(cfg, l.state, false, d, payload) == None
    requires l.state.consumed + |payload| <= cfg.byteBudget
    ensures Kept(env, cfg, Ledger(Recorded(env, cfg, l.state, d, payload), l.payloads + [payload]))
  {
    var l' := Ledger(Recorded(env, cfg, l.state, d, payload), l.payloads + [payload]);
    AddedAccounts(env, cfg, l, d, payload);
    AddedParts(env, cfg, l.state, d, payload);
    hide Recorded, TensorKept, ValidDescriptor, TensorRefusal;
    forall i | 0 <= i < |l'.payloads|
      ensures TensorKept(env, cfg, l', i)
    {
      if i < |l.payloads| {
        OldTensorKept(env, cfg, l, d, payload, i);
      } else {
        NewTensorKept(env, cfg, l, d, payload);
      }
    }
  }

  lemma {:induction false} OldTensorKept(env: Env, cfg: Config, l: Ledger, d: Descriptor, payload: Bytes, i: nat)
    requires cfg.chunkBytes > 0 && i < |l.payloads| == |l.state.tensors| && TensorKept(env, cfg, l, i)
    ensures |Recorded(env, cfg, l.state, d, payload).tensors| == |l.payloads| + 1
    ensures TensorKept(env, cfg, Ledger(Recorded(env, cfg, l.state, d, payload), l.payloads + [payload]), i)
  {
    var s, base := l.state, Base(cfg, l.payloads, i);
    var s' := Recorded(env, cfg, s, d, payload);
    AddedParts(env, cfg, s, d, payload);
    hide Recorded, ChunkKept, ValidDescriptor, ByteCount, CountFrom, ChunkOf, Piece;
    BasePrefix(cfg, l.payloads, payload, i);
    IdsPrefix(s.tensors, s'.tensors[|l.payloads|], i);
    forall k | 0 <= k < Count(cfg, l.payloads[i])
      ensures ChunkKept(env, cfg, s', s.tensors[i].descriptor.tensorId, l.payloads[i], base, k)
    {
      OldTensorChunk(env, cfg, s, d, payload, s.tensors[i].descriptor.tensorId, l.payloads[i], base, k);
    }
  }

  lemma {:induction false} NewTensorKept(env: Env, cfg: Config, l: Ledger, d: Descriptor, payload: Bytes)
    requires cfg.chunkBytes > 0 && Accounted(env, cfg, l) && ValidDescriptor(d)
    requires d.rank == cfg.rank && d.worldSize == cfg.worldSize && ByteCount(d) == |payload|
    requires d.tensorId !in IdsTo(l.state.tensors, |l.payloads|)
    ensures |Recorded(env, cfg, l.state, d, payload).tensors| == |l.payloads| + 1
    ensures
      TensorKept(env, cfg, Ledger(Recorded(env, cfg, l.state, d, payload), l.payloads + [payload]), |l.payloads|)
  {
    var s, n := l.state, |l.payloads|;
    var s' := Recorded(env, cfg, s, d, payload);
    AddedParts(env, cfg, s, d, payload);
    hide Recorded, ChunkKept, ValidDescriptor, ByteCount, CountFrom, ChunkOf, Piece;
    BasePrefix(cfg, l.payloads, payload, n);
    IdsPrefix(s.tensors, s'.tensors[n], n);
    forall k | 0 <= k < Count(cfg, payload)
      ensures ChunkKept(env, cfg, s', d.tensorId, payload, |s.chunks|, k)
    {
      NewTensorChunk(env, cfg, s, d, payload, k);
    }
  }

  lemma {:induction false} AddedParts(env: Env, cfg: Config, s: State, d: Descriptor, payload: Bytes)
    requires cfg.chunkBytes > 0
    ensures
      var s', base, n := Recorded(env, cfg, s, d, payload), |s.chunks|, Count(cfg, payload);
      && s'.tensors == s.tensors + [Tensor(d, Range(base, base + n))]
      && s'.chunks == s.chunks + ChunksTo(env, cfg, d.tensorId, payload, base, n)
      && |s'.chunks| == base + n
  {
  }

  lemma {:induction false} AddedAccounts(env: Env, cfg: Config, l: Ledger, d: Descriptor, payload: Bytes)
    requires cfg.chunkBytes > 0 && Accounted(env, cfg, l)
    requires TensorRefusal(cfg, l.state, false, d, payload) == None
    requires l.state.consumed + |payload| <= cfg.byteBudget
    ensures Accounted(env, cfg, Ledger(Recorded(env, cfg, l.state, d, payload), l.payloads + [payload]))
    ensures d.tensorId !in IdsTo(l.state.tensors, |l.payloads|)
    ensures d.rank == cfg.rank && d.worldSize == cfg.worldSize && ByteCount(d) == |payload|
  {
    var s, n := l.state, Count(cfg, payload);
    var s' := Recorded(env, cfg, s, d, payload);
    BasePrefix(cfg, l.payloads, payload, |l.payloads|);
    IdsPrefix(s.tensors, s'.tensors[|s.tensors|], |s.tensors|);
    StoredBytesOfChunks(env, cfg, s.chunks, d.tensorId, payload, |s.chunks|, n);
    AddedStoredBytes(env, cfg, s, d, payload);
  }

  lemma {:induction false} AddedStoredBytes(env: Env, cfg: Config, s: State, d: Descriptor, payload: Bytes)
    requires cfg.chunkBytes > 0 && forall c :: 0 <= c < |s.chunks| ==> s.chunks[c].storedBytes >= 0
    ensures var s' := Recorded(env, cfg, s, d, payload);
            forall c :: 0 <= c < |s'.chunks| ==> s'.chunks[c].storedBytes >= 0
  {
    var s' := Recorded(env, cfg, s, d, payload);
    forall c | 0 <= c < |s'.chunks|
      ensures s'.chunks[c].storedBytes >= 0
    {
      if c >= |s.chunks| {
        ChunksToAt(env, cfg, d.tensorId, payload, |s.chunks|, Count(cfg, payload), c - |s.chunks|);
      }
    }
  }

  lemma {:induction false} RecordAdded(env: Env, cfg: Config, l: Ledger, record: Record)
    requires cfg.chunkBytes > 0 && Kept(env, cfg, l) && Noted(env, cfg, l.state, false, record).1 == None
    ensures Kept(env, cfg, Ledger(Noted(env, cfg, l.state, false, record).0, l.payloads))
  {
    var l' := Ledger(Noted(env, cfg, l.state, false, record).0, l.payloads);
    RecordBytesPrefix(env, l.state.statistics, record, |l.state.statistics|);
    forall i | 0 <= i < |l.payloads|
      ensures TensorKept(env, cfg, l', i)
    {
      assert TensorKept(env, cfg, l, i);
      SameTables(env, cfg, l, l', i);
    }
  }

  /** Tensors stay kept when only accounts, statistics or an unrecorded file change. */
  lemma {:induction false} SameTables(env: Env, cfg: Config, l: Ledger, l': Ledger, i: nat)
    requires cfg.chunkBytes > 0 && i < |l.payloads| == |l.state.tensors| && TensorKept(env, cfg, l, i)
    requires l'.payloads == l.payloads && l'.state.tensors == l.state.tensors && l'.state.chunks == l.state.chunks
    requires forall p :: p in l.state.files && Between(p, 0, |l.state.chunks|)
               ==> p in l'.state.files && l'.state.files[p] == l.state.files[p]
    ensures TensorKept(env, cfg, l', i)
  {
    hide ChunkOf, Piece, CountFrom, ValidDescriptor, ByteCount;
    var t, payload, base := l.state.tensors[i], l.payloads[i], Base(cfg, l.payloads, i);
    forall k | 0 <= k < Count(cfg, payload)
      ensures ChunkKept(env, cfg, l'.state, t.descriptor.tensorId, payload, base, k)
    {
      assert ChunkKept(env, cfg, l.state, t.descriptor.tensorId, payload, base, k);
    }
  }

  /** An interrupted chunk leaves its file behind under a number no recorded chunk has. */
  lemma {:induction false} OrphanLeft(env: Env, cfg: Config, l: Ledger, n: nat, packed: Bytes)
    requires cfg.chunkBytes > 0 && Kept(env, cfg, l) && n >= |l.state.chunks|
    ensures Kept(env, cfg, Ledger(l.state.(files := l.state.files[ChunkFile(n) := packed]), l.payloads))
  {
    var l' := Ledger(l.state.(files := l.state.files[ChunkFile(n) := packed]), l.payloads);
    forall i | 0 <= i < |l.payloads|
      ensures TensorKept(env, cfg, l', i)
    {
      SameTables(env, cfg, l, l', i);
    }
  }

  lemma {:induction false} StepKeeps(env: Env, cfg: Config, l: Ledger, op: Op)
    requires cfg.chunkBytes > 0 && Kept(env, cfg, l)
    requires op.WriteOp? ==> ValidDescriptor(op.descriptor)
    ensures Kept(env, cfg, Step(env, cfg, l, op))
  {
    match op
    case NoteOp(record) =>
      if Noted(env, cfg, l.state, false, record).1 == None {
        RecordAdded(env, cfg, l, record);
      } else {
        assert Ledger(l.state, l.payloads) == l;
      }
    case WriteOp(d, payload, fault) =>
      hide Kept, Recorded;
      if TensorRefusal(cfg, l.state, false, d, payload) == None {
        var stop := StopFrom(cfg, l.state, payload, 0, fault);
        if stop == Count(cfg, payload) {
          KeptBudget(env, cfg, l);
          WithinBudget(cfg, l.state, payload, fault);
          TensorAdded(env, cfg, l, d, payload);
        } else {
          OrphanLeft(env, cfg, l, |l.state.chunks| + stop, env.compress(Piece(cfg, payload, stop)));
        }
      }
      assert Ledger(l.state, l.payloads) == l;
  }

  lemma {:induction false} KeptBudget(env: Env, cfg: Config, l: Ledger)
    requires cfg.chunkBytes > 0 && Kept(env, cfg, l)
    ensures l.state.consumed <= cfg.byteBudget
  {
  }

  /** The invariant holds after any number of calls of any run. */
  lemma {:induction false} RunKeeps(env: Env, cfg: Config, ops: seq<Op>, n: nat)
    requires ValidConfig(cfg) && ValidOps(ops) && n <= |ops|
    ensures Kept(env, cfg, Run(env, cfg, ops, n))
    ensures
      var l := Run(env, cfg, ops, n);
      && |l.state.tensors| == |l.payloads| && l.state.consumed <= cfg.byteBudget
      && l.state.consumed == PayloadBytes(l.payloads, |l.payloads|)
                             + RecordBytes(env, l.state.statistics, |l.state.statistics|)
      && l.state.stored == StoredBytes(l.state.chunks, |l.state.chunks|)
  {
    if n > 0 {
      RunKeeps(env, cfg, ops, n - 1);
      StepKeeps(env, cfg, Run(env, cfg, ops, n - 1), ops[n - 1]);
    }
  }

  // ----- Which calls are accepted -----

  lemma {:induction false} PiecesFit(cfg: Config, s: State, payload: Bytes, k: nat)
    requires ValidConfig(cfg) && s.consumed + |payload| <= cfg.byteBudget && k < Count(cfg, payload)
    ensures Fits(cfg, s, payload, k) <==> ChunkFile(|s.chunks| + k) !in s.files
  {
  }

  /** The number of chunk `k` is free, and nothing goes wrong on disk while it is written. */
  predicate Clear(s: State, fault: nat -> Fault, k: nat) {
    ChunkFile(|s.chunks| + k) !in s.files && fault(k) == NoFault
  }

  /**
   A tensor is accepted exactly when it is this writer's, private under a retention limit, new, of the stated size and
   within the budget as a whole, none of the chunk numbers it needs is taken, and nothing goes wrong on disk.
   */
  lemma {:induction false} AcceptedExactlyWhen(env: Env, cfg: Config, s: State, d: Descriptor, payload: Bytes,
                                               fault: nat -> Fault)
    requires ValidConfig(cfg) && s.consumed <= cfg.byteBudget
    ensures
      Written(env, cfg, s, false, d, payload, fault).1 == None
      <==>
      && d.rank == cfg.rank && d.worldSize == cfg.worldSize && |payload| == ByteCount(d)
      && cfg.sensitivity == RestrictedPrivate && d.tensorId !in s.ids && s.consumed + |payload| <= cfg.byteBudget
      && (forall k: nat :: k < Count(cfg, payload) ==> Clear(s, fault, k))
    ensures Written(env, cfg, s, true, d, payload, fault) == (s, Some(AlreadyFinalized))
  {
    hide StopFrom, CountFrom, Recorded, TensorRefusal, ByteCount;
    AdmittedExactlyWhen(cfg, s, d, payload);
    if StopFrom(cfg, s, payload, 0, fault) == Count(cfg, payload) {
      WithinBudget(cfg, s, payload, fault);
    }
    if s.consumed + |payload| <= cfg.byteBudget {
      StopsNowhere(cfg, s, payload, fault);
    }
  }

  lemma {:induction false} AdmittedExactlyWhen(cfg: Config, s: State, d: Descriptor, payload: Bytes)
    requires ValidConfig(cfg)
    ensures
      TensorRefusal(cfg, s, false, d, payload) == None
      <==>
      && d.rank == cfg.rank && d.worldSize == cfg.worldSize && |payload| == ByteCount(d)
      && cfg.sensitivity == RestrictedPrivate && d.tensorId !in s.ids
    ensures TensorRefusal(cfg, s, true, d, payload) == Some(AlreadyFinalized)
  {
    hide ByteCount;
  }

  lemma {:induction false} StopsNowhere(cfg: Config, s: State, payload: Bytes, fault: nat -> Fault)
    requires ValidConfig(cfg) && s.consumed + |payload| <= cfg.byteBudget
    ensures StopFrom(cfg, s, payload, 0, fault) == Count(cfg, payload)
       <==> forall k: nat :: k < Count(cfg, payload) ==> Clear(s, fault, k)
  {
    forall k: nat | k < Count(cfg, payload)
      ensures ChunkFailure(cfg, s, payload, k, fault) == None
         <==> Clear(s, fault, k)
    {
      PiecesFit(cfg, s, payload, k);
      ChunkOutcome(cfg, s, payload, k, fault);
    }
    hide ChunkFailure, Fits, CountFrom;
    if StopFrom(cfg, s, payload, 0, fault) == Count(cfg, payload) {
      forall k: nat | k < Count(cfg, payload)
        ensures Clear(s, fault, k)
      {
        assert ChunkFailure(cfg, s, payload, k, fault) == None;
      }
    } else {
      var stop := StopFrom(cfg, s, payload, 0, fault);
      assert ChunkFailure(cfg, s, payload, stop, fault).Some?;
      assert !Clear(s, fault, stop);
    }
  }

  /** A statistics record is accepted exactly when it is fit to be seen and within both limits. */
  lemma {:induction false} NotedExactlyWhen(env: Env, cfg: Config, s: State, record: Record)
    ensures
      var n := |env.canonical(record)|;
      Noted(env, cfg, s, false, record).1 == None
      <==>
      && (cfg.sensitivity == PublicAggregate ==> env.publicSafe(record))
      && n <= cfg.maxInflight && s.consumed + n <= cfg.byteBudget
    ensures Noted(env, cfg, s, true, record) == (s, Some(AlreadyFinalized))
  {
  }

  // ----- The staging directory -----

  /** On disk are exactly the recorded chunks. */
  ghost predicate Clean(s: State) {
    forall p :: p in s.files <==> Between(p, 0, |s.chunks|)
  }

  /** Chunk `k` of the payload is within both limits, and its number is free. */
  predicate Fits(cfg: Config, s: State, payload: Bytes, k: nat)
    requires cfg.chunkBytes > 0
  {
    var begin := Least(Offset(cfg, k), |payload|);
    && |Piece(cfg, payload, k)| <= cfg.maxInflight
    && s.consumed + begin + |Piece(cfg, payload, k)| <= cfg.byteBudget
    && ChunkFile(|s.chunks| + k) !in s.files
  }

  /** The chunks before `k` go well, and `k` is interrupted once its file is on disk. */
  predicate InterruptedAt(cfg: Config, s: State, payload: Bytes, fault: nat -> Fault, k: nat)
    requires cfg.chunkBytes > 0
  {
    && k < Count(cfg, payload) && Fits(cfg, s, payload, k) && fault(k).Interrupted?
    && (forall i: nat :: i < k ==> Fits(cfg, s, payload, i) && fault(i).NoFault?)
  }

  /** The call is admitted, and interrupted between writing a chunk's file and recording it. */
  ghost predicate LeavesOrphan(cfg: Config, s: State, op: Op)
    requires cfg.chunkBytes > 0
  {
    && op.WriteOp? && TensorRefusal(cfg, s, false, op.descriptor, op.payload) == None
    && exists k: nat :: InterruptedAt(cfg, s, op.payload, op.fault, k)
  }

  lemma {:induction false} ChunkOutcome(cfg: Config, s: State, payload: Bytes, k: nat, fault: nat -> Fault)
    requires cfg.chunkBytes > 0
    ensures ChunkFailure(cfg, s, payload, k, fault) == None <==> Fits(cfg, s, payload, k) && fault(k).NoFault?
    ensures ChunkFailure(cfg, s, payload, k, fault) == Some(InterruptedWrite)
        <==> Fits(cfg, s, payload, k) && fault(k).Interrupted?
  {
  }

  lemma {:induction false} InterruptedStop(cfg: Config, s: State, payload: Bytes, fault: nat -> Fault, k: nat)
    requires cfg.chunkBytes > 0
    ensures var stop := StopFrom(cfg, s, payload, 0, fault);
            InterruptedAt(cfg, s, payload, fault, k)
            <==> k == stop < Count(cfg, payload) && ChunkFailure(cfg, s, payload, stop, fault) == Some(InterruptedWrite)
  {
    var stop := StopFrom(cfg, s, payload, 0, fault);
    forall i: nat
      ensures ChunkFailure(cfg, s, payload, i, fault) == None <==> Fits(cfg, s, payload, i) && fault(i).NoFault?
      ensures ChunkFailure(cfg, s, payload, i, fault) == Some(InterruptedWrite)
          <==> Fits(cfg, s, payload, i) && fault(i).Interrupted?
    {
      ChunkOutcome(cfg, s, payload, i, fault);
    }
    hide ChunkFailure, Fits, CountFrom;
  }

  /** Said of the inputs, this is exactly when the call ends with an interrupted write. */
  lemma {:induction false} InterruptedExactlyWhen(env: Env, cfg: Config, s: State, op: Op)
    requires cfg.chunkBytes > 0
    ensures Outcome(env, cfg, s, op).1 == Some(InterruptedWrite) <==> LeavesOrphan(cfg, s, op)
  {
    if op.WriteOp? {
      hide StopFrom, ChunkFailure, InterruptedAt, Fits, CountFrom;
      var stop := StopFrom(cfg, s, op.payload, 0, op.fault);
      InterruptedStop(cfg, s, op.payload, op.fault, stop);
      forall k: nat
        ensures InterruptedAt(cfg, s, op.payload, op.fault, k) ==> k == stop
      {
        InterruptedStop(cfg, s, op.payload, op.fault, k);
      }
    }
  }

  /** The file of chunk `p` is there, and that number is not recorded yet. */
  predicate Taken(s: State, p: nat) {
    ChunkFile(p) in s.files && p >= |s.chunks|
  }

  /** A file that no recorded chunk accounts for, at or above the next chunk's number. */
  ghost predicate Orphaned(s: State) {
    exists p: nat :: Taken(s, p)
  }

  /** A call that would need a taken number is not recorded, whatever else happens to it. */
  lemma {:induction false} TakenStops(cfg: Config, s: State, payload: Bytes, fault: nat -> Fault, p: nat)
    requires cfg.chunkBytes > 0 && Taken(s, p) && p < |s.chunks| + Count(cfg, payload)
    ensures StopFrom(cfg, s, payload, 0, fault) < Count(cfg, payload)
  {
    assert ChunkFailure(cfg, s, payload, p - |s.chunks|, fault).Some?;
  }

  lemma {:induction false} TakenStays(env: Env, cfg: Config, l: Ledger, op: Op, p: nat)
    requires cfg.chunkBytes > 0 && Taken(l.state, p)
    ensures Taken(Step(env, cfg, l, op).state, p)
    ensures op.WriteOp? && |l.state.chunks| + Count(cfg, op.payload) > p ==> Outcome(env, cfg, l.state, op).1.Some?
  {
    var s := l.state;
    if op.WriteOp? {
      if |s.chunks| + Count(cfg, op.payload) > p {
        TakenStops(cfg, s, op.payload, op.fault, p);
      }
      FilesToAt(env, cfg, op.payload, |s.chunks|, Count(cfg, op.payload), s.files, ChunkFile(p));
      hide StopFrom, ChunkFailure, TensorRefusal, CountFrom, Piece, FilesTo;
    }
  }

  lemma {:induction false} CleanStep(env: Env, cfg: Config, l: Ledger, op: Op)
    requires cfg.chunkBytes > 0 && Clean(l.state)
    ensures Clean(Step(env, cfg, l, op).state) <==> !LeavesOrphan(cfg, l.state, op)
    ensures LeavesOrphan(cfg, l.state, op) ==> Orphaned(Step(env, cfg, l, op).state)
  {
    InterruptedExactlyWhen(env, cfg, l.state, op);
    hide LeavesOrphan;
    match op
    case NoteOp(record) =>
    case WriteOp(d, payload, fault) =>
      var s := l.state;
      if TensorRefusal(cfg, s, false, d, payload) == None {
        var stop, n := StopFrom(cfg, s, payload, 0, fault), Count(cfg, payload);
        hide StopFrom, ChunkFailure, TensorRefusal, CountFrom, Piece;
        if stop == n {
          forall p
            ensures p in Recorded(env, cfg, s, d, payload).files <==> Between(p, 0, |s.chunks| + n)
          {
            FilesToAt(env, cfg, payload, |s.chunks|, n, s.files, p);
          }
        } else if LeavesOrphan(cfg, s, op) {
          var p := ChunkFile(|s.chunks| + stop);
          assert p in Step(env, cfg, l, op).state.files && !Between(p, 0, |s.chunks|);
          assert Taken(Step(env, cfg, l, op).state, |s.chunks| + stop);
        }
      }
  }

  lemma {:induction false} OrphanStays(env: Env, cfg: Config, l: Ledger, op: Op)
    requires cfg.chunkBytes > 0 && Orphaned(l.state)
    ensures Orphaned(Step(env, cfg, l, op).state)
  {
    var p: nat :| Taken(l.state, p);
    hide Step, Taken;
    TakenStays(env, cfg, l, op, p);
  }

  /** None of the first `n` calls was interrupted so. */
  ghost predicate Uninterrupted(env: Env, cfg: Config, ops: seq<Op>, n: nat)
    requires cfg.chunkBytes > 0 && n <= |ops|
  {
    n == 0
    || (Uninterrupted(env, cfg, ops, n - 1) && !LeavesOrphan(cfg, Run(env, cfg, ops, n - 1).state, ops[n - 1]))
  }

  /**
   After any run the staging directory holds exactly the recorded chunks if and only if no call of the run was
   interrupted between writing a chunk's file and recording it.
   */
  lemma {:induction false} CleanExactlyWhen(env: Env, cfg: Config, ops: seq<Op>, n: nat)
    requires cfg.chunkBytes > 0 && n <= |ops|
    ensures Clean(Run(env, cfg, ops, n).state) <==> Uninterrupted(env, cfg, ops, n)
    ensures Clean(Run(env, cfg, ops, n).state) || Orphaned(Run(env, cfg, ops, n).state)
  {
    if n > 0 {
      var l := Run(env, cfg, ops, n - 1);
      CleanExactlyWhen(env, cfg, ops, n - 1);
      assert Run(env, cfg, ops, n) == Step(env, cfg, l, ops[n - 1]);
      hide Run, Step, Clean, Orphaned, LeavesOrphan;
      if Clean(l.state) {
        CleanStep(env, cfg, l, ops[n - 1]);
      } else {
        OrphanStays(env, cfg, l, ops[n - 1]);
        OrphanedIsUnclean(Step(env, cfg, l, ops[n - 1]).state);
      }
    }
  }

  lemma {:induction false} OrphanedIsUnclean(s: State)
    requires Orphaned(s)
    ensures !Clean(s)
  {
  }

  /** A failed call leaves everything as it was, an orphaned chunk file apart. */
  lemma {:induction false} FailureRestores(env: Env, cfg: Config, l: Ledger, op: Op)
    requires cfg.chunkBytes > 0 && Outcome(env, cfg, l.state, op).1.Some?
    ensures Step(env, cfg, l, op).(state := l.state) == l
    ensures Step(env, cfg, l, op).state.(files := l.state.files) == l.state
    ensures Step(env, cfg, l, op) == l <==>
      !LeavesOrphan(cfg, l.state, op)
  {
    InterruptedExactlyWhen(env, cfg, l.state, op);
    hide LeavesOrphan;
    match op
    case NoteOp(record) =>
    case WriteOp(d, payload, fault) =>
      if LeavesOrphan(cfg, l.state, op) {
        var p := ChunkFile(|l.state.chunks| + StopFrom(cfg, l.state, payload, 0, fault));
        assert p in Step(env, cfg, l, op).state.files && p !in l.state.files;
      }
  }

  const SMALL := Config("run", RunRef(RUN_MANIFEST_KIND, "run", [], ""), "profile", "barrier", 0, 1,
                        RestrictedPrivate, Some(1), 4096, 4096, 4096)

  const ONE_BYTE :=
    Descriptor("t", "s", "p", RuntimeMetadata, None, 0, 1, 0, [1], UInt8, 0, 1, "prefill", None, None, None)

  /**
   A one-byte tensor whose chunk is interrupted leaves the file of chunk 0 behind, recorded nowhere; the same
   tensor, written again without any fault, is then refused for it.
   */
  lemma {:induction false} OrphanBlocksRetry(env: Env)
    ensures ValidConfig(SMALL) && ValidDescriptor(ONE_BYTE)
    ensures
      var first := WriteOp(ONE_BYTE, [7], k => Interrupted);
      var again := WriteOp(ONE_BYTE, [7], k => NoFault);
      var left := INITIAL.(files := map[ChunkFile(0) := env.compress([7])]);
      && LeavesOrphan(SMALL, INITIAL, first) && !LeavesOrphan(SMALL, left, again)
      && Outcome(env, SMALL, INITIAL, first) == (left, Some(InterruptedWrite))
      && Outcome(env, SMALL, left, again) == (left, Some(ChunkExists))
  {
    var payload: Bytes := [7];
    var left := INITIAL.(files := map[ChunkFile(0) := env.compress(payload)]);
    assert Offset(SMALL, 1) == 4096;
    assert CountFrom(SMALL, payload, 1) == 1 && Count(SMALL, payload) == 1;
    assert Piece(SMALL, payload, 0) == payload;
    assert Product([1][..0]) == 1 && Product([1]) == 1;
    assert InterruptedAt(SMALL, INITIAL, payload, k => Interrupted, 0);
    assert !Fits(SMALL, left, payload, 0);
  }

  lemma {:induction false} OrphanTakes(env: Env, cfg: Config, l: Ledger, op: Op, k: nat)
    requires cfg.chunkBytes > 0 && op.WriteOp?
    requires TensorRefusal(cfg, l.state, false, op.descriptor, op.payload) == None
    requires InterruptedAt(cfg, l.state, op.payload, op.fault, k)
    ensures Taken(Step(env, cfg, l, op).state, |l.state.chunks| + k)
  {
    InterruptedStop(cfg, l.state, op.payload, op.fault, k);
    hide StopFrom, ChunkFailure, TensorRefusal, InterruptedAt, CountFrom, Piece;
  }

  /**
   For good: once call `i` is interrupted in its chunk `k`, the run never records more chunks than there were before
   that one, and every later tensor that would need more is refused.
   */
  lemma {:induction false} OrphanBlocksForever(env: Env, cfg: Config, ops: seq<Op>, i: nat, k: nat, m: nat)
    requires cfg.chunkBytes > 0 && i < m <= |ops| && ops[i].WriteOp?
    requires TensorRefusal(cfg, Run(env, cfg, ops, i).state, false, ops[i].descriptor, ops[i].payload) == None
    requires InterruptedAt(cfg, Run(env, cfg, ops, i).state, ops[i].payload, ops[i].fault, k)
    ensures
      var p, s := |Run(env, cfg, ops, i).state.chunks| + k, Run(env, cfg, ops, m).state;
      && Taken(s, p) && |s.chunks| <= p
      && (m < |ops| && ops[m].WriteOp? && |s.chunks| + Count(cfg, ops[m].payload) > p ==>
            Outcome(env, cfg, s, ops[m]).1.Some?)
  {
    hide *;
    var before := Run(env, cfg, ops, i);
    RunNext(env, cfg, ops, i);
    OrphanTakes(env, cfg, before, ops[i], k);
    StaysTaken(env, cfg, ops, i + 1, m, |before.state.chunks| + k);
  }

  /** A taken number stays taken, and whatever needs it is refused. */
  lemma {:induction false} StaysTaken(env: Env, cfg: Config, ops: seq<Op>, i: nat, m: nat, p: nat)
    requires cfg.chunkBytes > 0 && i <= m <= |ops| && Taken(Run(env, cfg, ops, i).state, p)
    ensures
      var s := Run(env, cfg, ops, m).state;
      && Taken(s, p) && |s.chunks| <= p
      && (m < |ops| && ops[m].WriteOp? && |s.chunks| + Count(cfg, ops[m].payload) > p ==>
            Outcome(env, cfg, s, ops[m]).1.Some?)
  {
    hide *;
    if i < m {
      StaysTaken(env, cfg, ops, i, m - 1, p);
      RunNext(env, cfg, ops, m - 1);
      TakenStays(env, cfg, Run(env, cfg, ops, m - 1), ops[m - 1], p);
    }
    TakenIsAbove(Run(env, cfg, ops, m).state, p);
    if m < |ops| {
      TakenStays(env, cfg, Run(env, cfg, ops, m), ops[m], p);
    }
  }

  lemma {:induction false} RunNext(env: Env, cfg: Config, ops: seq<Op>, n: nat)
    requires cfg.chunkBytes > 0 && n < |ops|
    ensures Run(env, cfg, ops, n + 1) == Step(env, cfg, Run(env, cfg, ops, n), ops[n])
  {
    hide Step;
  }

  lemma {:induction false} TakenIsAbove(s: State, p: nat)
    requires Taken(s, p)
    ensures |s.chunks| <= p
  {
  }

  // ----- Reading back what was written -----

  lemma {:induction false} PiecesJoin(cfg: Config, payload: Bytes, k: nat)
    requires cfg.chunkBytes > 0 && k < Count(cfg, payload)
    ensures payload[..Least(Offset(cfg, k), |payload|)] + Piece(cfg, payload, k)
         == payload[..Least(Offset(cfg, k + 1), |payload|)]
  {
  }

  /** The reader gets chunk `k` of a kept tensor as it was cut from the payload. */
  lemma {:induction false} KeptChunkReads(env: Env, cfg: Config, dir: Directory, s: State, id: string, payload: Bytes,
                                          base: nat, k: nat)
    requires cfg.chunkBytes > 0 && Lossless(env) && ChunkKept(env, cfg, s, id, payload, base, k)
    requires dir.manifest.chunks == s.chunks && dir.files == s.files
    ensures ReadChunk(env, dir, id, base + k, Offset(cfg, k)) == Ok(Piece(cfg, payload, k))
  {
  }

  lemma {:induction false} KeptTensorCollects(env: Env, cfg: Config, dir: Directory, s: State, id: string,
                                              payload: Bytes, base: nat, k: nat)
    requires cfg.chunkBytes > 0 && Lossless(env) && k <= Count(cfg, payload)
    requires dir.manifest.chunks == s.chunks && dir.files == s.files
    requires forall i :: 0 <= i < Count(cfg, payload) ==> ChunkKept(env, cfg, s, id, payload, base, i)
    ensures
      Collect(env, dir, id, Range(base, base + Count(cfg, payload)), k, payload[..Least(Offset(cfg, k), |payload|)])
      == Ok(payload)
    decreases Count(cfg, payload) - k
  {
    var n := Count(cfg, payload);
    if k == n {
      assert payload[..|payload|] == payload;
    } else {
      assert Least(Offset(cfg, k), |payload|) == Offset(cfg, k) by {
        MoreToWrite(cfg, payload, k);
      }
      hide ReadChunk, ChunkKept, Piece, CountFrom, Offset;
      KeptChunkReads(env, cfg, dir, s, id, payload, base, k);
      PiecesJoin(cfg, payload, k);
      KeptTensorCollects(env, cfg, dir, s, id, payload, base, k + 1);
    }
  }

  /** The directory holds a manifest made from the ledger's state, and its files. */
  ghost predicate Holds(env: Env, cfg: Config, dir: Directory, l: Ledger, name: Digest) {
    && dir.files == l.state.files && name == env.digest(dir.manifest)
    && dir.manifest.chunks == l.state.chunks && dir.manifest.tensors == l.state.tensors
    && dir.manifest.rank == cfg.rank && dir.manifest.worldSize == cfg.worldSize
  }

  /** Round trip: the reader returns exactly the payload the writer accepted. */
  lemma {:induction false} KeptTensorReconstructs(env: Env, cfg: Config, dir: Directory, l: Ledger, name: Digest,
                                                  i: nat)
    requires cfg.chunkBytes > 0 && Lossless(env) && Kept(env, cfg, l) && i < |l.payloads|
    requires Holds(env, cfg, dir, l, name)
    ensures
      Reconstruct(env, dir, name, l.state.tensors[i].descriptor.tensorId, false) == Ok(l.payloads[i])
  {
    var t, payload, base := l.state.tensors[i], l.payloads[i], Base(cfg, l.payloads, i);
    assert TensorKept(env, cfg, l, i);
    FindFirst(l.state.tensors, 0, i);
    assert payload[..0] == [];
    assert Least(Offset(cfg, 0), |payload|) == 0;
    hide ReadChunk, ChunkKept, ValidDescriptor, ByteCount, CountFrom;
    KeptTensorCollects(env, cfg, dir, l.state, t.descriptor.tensorId, payload, base, 0);
  }

  lemma {:induction false} RangesJoin(a: nat, b: nat, c: nat)
    requires a <= b <= c
    ensures Range(a, b) + Range(b, c) == Range(a, c)
  {
  }

  lemma {:induction false} KeptScansOne(env: Env, cfg: Config, dir: Directory, l: Ledger, name: Digest, i: nat)
    requires cfg.chunkBytes > 0 && Lossless(env) && Kept(env, cfg, l) && i < |l.payloads|
    requires Holds(env, cfg, dir, l, name)
    ensures |dir.manifest.tensors| == |l.payloads| == |l.state.tensors|
    ensures
      ScanTensor(env, dir, name, dir.manifest.tensors[i],
                 Scan(IdsTo(l.state.tensors, i), Range(0, Base(cfg, l.payloads, i)), i, PayloadBytes(l.payloads, i)))
      == Ok(Scan(IdsTo(l.state.tensors, i + 1), Range(0, Base(cfg, l.payloads, i + 1)), i + 1,
                 PayloadBytes(l.payloads, i + 1)))
  {
    hide Reconstruct, ChunkKept, ValidDescriptor, CountFrom, ByteCount;
    KeptTensorReconstructs(env, cfg, dir, l, name, i);
    assert TensorKept(env, cfg, l, i);
    RangesJoin(0, Base(cfg, l.payloads, i), Base(cfg, l.payloads, i + 1));
  }

  /** The tensor loop of the verifier over a kept ledger. */
  lemma {:induction false} KeptScans(env: Env, cfg: Config, dir: Directory, l: Ledger, name: Digest, i: nat)
    requires cfg.chunkBytes > 0 && Lossless(env) && Kept(env, cfg, l) && i <= |l.payloads|
    requires Holds(env, cfg, dir, l, name)
    ensures
      var n := |l.payloads|;
      ScanFrom(env, dir, name, i, Scan(IdsTo(l.state.tensors, i), Range(0, Base(cfg, l.payloads, i)), i,
                                       PayloadBytes(l.payloads, i)))
      == ScanResult(Scan(IdsTo(l.state.tensors, n), Range(0, Base(cfg, l.payloads, n)), n,
                         PayloadBytes(l.payloads, n)), None)
    decreases |l.payloads| - i
  {
    if i < |l.payloads| {
      hide TensorKept, Kept, ScanTensor, Holds, Range, Base, PayloadBytes, IdsTo;
      KeptScansOne(env, cfg, dir, l, name, i);
      KeptScans(env, cfg, dir, l, name, i + 1);
    }
  }

  /** A manifest made from a kept ledger verifies: same state, every tensor, every byte. */
  lemma {:induction false} KeptVerifies(env: Env, cfg: Config, l: Ledger, state: Completeness, errors: seq<string>,
                                        pre: bool, post: bool)
    requires ValidConfig(cfg) && Lossless(env) && Kept(env, cfg, l)
    requires FinalRefusal(l.state, false, state, errors, pre, post) == None
    ensures
      var m := ManifestOf(cfg, l.state, state, errors, pre, post);
      Verify(env, Directory(m, l.state.files), env.digest(m))
      == Verification(state, env.digest(m), |l.payloads|, PayloadBytes(l.payloads, |l.payloads|), None)
  {
    var m := ManifestOf(cfg, l.state, state, errors, pre, post);
    var dir, n := Directory(m, l.state.files), |l.payloads|;
    assert IdsTo(l.state.tensors, 0) == {} && Range(0, Base(cfg, l.payloads, 0)) == [];
    KeptScans(env, cfg, dir, l, env.digest(m), 0);
    hide ScanFrom, TensorKept, Base, PayloadBytes, RecordBytes, StoredBytes, IdsTo, Range;
    assert Preliminary(env, m, env.digest(m)) == None;
  }

  /** The manifest says whose run it is, how it ended, and who may see it. */
  predicate Describes(cfg: Config, m: Manifest, state: Completeness, errors: seq<string>, pre: bool, post: bool) {
    && m.runId == cfg.runId && m.runRef == cfg.runRef && m.profileId == cfg.profileId
    && m.rank == cfg.rank && m.worldSize == cfg.worldSize
    && m.barrier == Barrier(cfg.barrierId, pre, post) && m.state == state && m.errors == errors
    && m.sensitivity == cfg.sensitivity && m.retention == cfg.retention
  }

  /**
   Every run of the writer that ends in a successful finalization has put an artifact under the returned digest
   that verifies without failure, in the requested state, with as many tensors and bytes as were accepted; and
   with collision-free digests the reader gives back each accepted payload, even when the artifact stored under
   the digest was put there by someone else.  In its default mode it does so exactly when the state is complete.
   */
  lemma {:induction false} FinalizedRunReadsBack(env: Env, cfg: Config, ops: seq<Op>, store: Store, staged: bool,
                                                 state: Completeness, errors: seq<string>, pre: bool, post: bool,
                                                 fault: FinalFault)
    requires ValidConfig(cfg) && ValidOps(ops) && Lossless(env) && CollisionFree(env)
    requires
      var s := Run(env, cfg, ops, |ops|).state;
      Finalized(env, cfg, s, false, staged, store, state, errors, pre, post, fault).outcome.Ok?
    ensures
      var l := Run(env, cfg, ops, |ops|);
      var f := Finalized(env, cfg, l.state, false, staged, store, state, errors, pre, post, fault);
      var name := f.outcome.value;
      && name in f.store
      && Verify(env, f.store[name], name)
         == Verification(state, name, |l.payloads|, PayloadBytes(l.payloads, |l.payloads|), None)
      && Describes(cfg, f.store[name].manifest, state, errors, pre, post)
      && |l.state.tensors| == |l.payloads| && f.store[name].manifest.tensors == l.state.tensors
      && f.store[name].manifest.statistics == l.state.statistics
      && (forall i :: 0 <= i < |l.payloads| ==>
            var id := l.state.tensors[i].descriptor.tensorId;
            && Reconstruct(env, f.store[name], name, id, false) == Ok(l.payloads[i])
            && (Reconstruct(env, f.store[name], name, id, true) == Ok(l.payloads[i]) <==> state.Complete?))
      && (forall other :: other in store ==> other in f.store && f.store[other] == store[other])
  {
    var l := Run(env, cfg, ops, |ops|);
    var f := Finalized(env, cfg, l.state, false, staged, store, state, errors, pre, post, fault);
    var m := ManifestOf(cfg, l.state, state, errors, pre, post);
    var name, mine := env.digest(m), Directory(m, l.state.files);
    RunKeeps(env, cfg, ops, |ops|);
    KeptVerifies(env, cfg, l, state, errors, pre, post);
    FinalizedDirectory(env, cfg, l.state, store, staged, state, errors, pre, post, fault);
    hide Verify, Kept, Finalized, Run, Reconstruct, ValidConfig, ManifestOf;
    var theirs := f.store[name];
    VerifiedIsSound(env, mine, name);
    VerifiedIsSound(env, theirs, name);
    assert theirs.manifest == m == mine.manifest;
    SaysSo(cfg, l.state, state, errors, pre, post);
    forall i | 0 <= i < |l.payloads|
      ensures var id := l.state.tensors[i].descriptor.tensorId;
              && Reconstruct(env, theirs, name, id, false) == Ok(l.payloads[i])
              && (Reconstruct(env, theirs, name, id, true) == Ok(l.payloads[i]) <==> state.Complete?)
    {
      CompleteExactlyWhen(env, theirs, name, l.state.tensors[i].descriptor.tensorId);
      HoldsMine(env, cfg, l, state, errors, pre, post);
      KeptTensorReconstructs(env, cfg, mine, l, name, i);
      SameNameSameTensors(env, mine, theirs, name, l.state.tensors[i].descriptor.tensorId, false);
    }
  }

  lemma {:induction false} SaysSo(cfg: Config, s: State, state: Completeness, errors: seq<string>, pre: bool,
                                  post: bool)
    ensures var m := ManifestOf(cfg, s, state, errors, pre, post);
            Describes(cfg, m, state, errors, pre, post) && m.tensors == s.tensors && m.statistics == s.statistics
  {
  }

  lemma {:induction false} HoldsMine(env: Env, cfg: Config, l: Ledger, state: Completeness, errors: seq<string>,
                                     pre: bool, post: bool)
    requires cfg.chunkBytes > 0
    ensures
      var m := ManifestOf(cfg, l.state, state, errors, pre, post);
      Holds(env, cfg, Directory(m, l.state.files), l, env.digest(m))
  {
  }

  /** What a successful finalization put, or found, under the digest. */
  lemma {:induction false} FinalizedDirectory(env: Env, cfg: Config, s: State, store: Store, staged: bool,
                                              state: Completeness, errors: seq<string>, pre: bool, post: bool,
                                              fault: FinalFault)
    requires Finalized(env, cfg, s, false, staged, store, state, errors, pre, post, fault).outcome.Ok?
    ensures
      var f := Finalized(env, cfg, s, false, staged, store, state, errors, pre, post, fault);
      var m := ManifestOf(cfg, s, state, errors, pre, post);
      var name := env.digest(m);
      && FinalRefusal(s, false, state, errors, pre, post) == None
      && f.outcome == Ok(name) && name in f.store && f.store[name].manifest == m
      && (f.store[name] == Directory(m, s.files)
          || (Verify(env, f.store[name], name).failure == None && Verify(env, f.store[name], name).state == state))
      && (forall other :: other in store ==> other in f.store && f.store[other] == store[other])
  {
  }

  /** What is to be published is a sound artifact exactly when its arguments are not refused. */
  lemma {:induction false} RefusedExactlyWhen(env: Env, cfg: Config, l: Ledger, state: Completeness,
                                              errors: seq<string>, pre: bool, post: bool)
    requires ValidConfig(cfg) && Lossless(env) && Kept(env, cfg, l)
    ensures
      var m := ManifestOf(cfg, l.state, state, errors, pre, post);
      FinalRefusal(l.state, false, state, errors, pre, post) == None
      <==> Verify(env, Directory(m, l.state.files), env.digest(m)).failure == None
  {
    var m := ManifestOf(cfg, l.state, state, errors, pre, post);
    if FinalRefusal(l.state, false, state, errors, pre, post) == None {
      KeptVerifies(env, cfg, l, state, errors, pre, post);
    } else {
      VerifiedExactlyWhen(env, Directory(m, l.state.files), env.digest(m));
      hide Verify, Kept;
      assert !SoundManifest(env, m, env.digest(m));
    }
  }

  /**
   After any run, an unstaged writer's finalization succeeds exactly when nothing goes wrong on disk, the artifact it
   would publish verifies, and so does whatever stands under its digest already.
   */
  lemma {:induction false} FinalizesExactlyWhen(env: Env, cfg: Config, ops: seq<Op>, store: Store,
                                                state: Completeness, errors: seq<string>, pre: bool, post: bool,
                                                fault: FinalFault)
    requires ValidConfig(cfg) && ValidOps(ops) && Lossless(env) && CollisionFree(env)
    ensures
      var s := Run(env, cfg, ops, |ops|).state;
      var m := ManifestOf(cfg, s, state, errors, pre, post);
      var name := env.digest(m);
      Finalized(env, cfg, s, false, false, store, state, errors, pre, post, fault).outcome == Ok(name)
      <==>
      && fault.Smooth? && Verify(env, Directory(m, s.files), name).failure == None
      && (name in store ==> Verify(env, store[name], name).failure == None)
    ensures
      var s := Run(env, cfg, ops, |ops|).state;
      Finalized(env, cfg, s, true, true, store, state, errors, pre, post, fault)
      == Finalization(store, true, true, Err(AlreadyFinalized))
  {
    var l := Run(env, cfg, ops, |ops|);
    var m := ManifestOf(cfg, l.state, state, errors, pre, post);
    RunKeeps(env, cfg, ops, |ops|);
    RefusedExactlyWhen(env, cfg, l, state, errors, pre, post);
    if env.digest(m) in store && Verify(env, store[env.digest(m)], env.digest(m)).failure == None {
      VerifiedIsSound(env, store[env.digest(m)], env.digest(m));
    }
    assert FinalRefusal(l.state, true, state, errors, pre, post) == Some(AlreadyFinalized);
    hide Verify, Kept, FinalRefusal, Run, ManifestOf;
  }

  // ----- The class follows the run -----

  method Perform(w: ActivationArtifactWriter, ops: seq<Op>)
    requires ValidConfig(w.cfg) && w.Now() == INITIAL && !w.finalized
    modifies w
    ensures w.Now() == Run(w.env, w.cfg, ops, |ops|).state
    ensures !w.finalized && w.manifestStaged == old(w.manifestStaged)
  {
    assert w.cfg.chunkBytes > 0;
    hide Written, Noted, ValidConfig;
    for n := 0 to |ops|
      invariant w.Now() == Run(w.env, w.cfg, ops, n).state
      invariant !w.finalized && w.manifestStaged == old(w.manifestStaged)
    {
      match ops[n]
      case WriteOp(d, payload, fault) =>
        var _ := w.WriteTensor(d, payload, fault);
      case NoteOp(record) =>
        var _ := w.WriteStatistics(record);
    }
  }

  // ----- Leaving the scope -----

  /** One call of `finalize`, with the writer's state at that time. */
  datatype FinalCall =
    FinalCall(s: State, state: Completeness, errors: seq<string>, pre: bool, post: bool, fault: FinalFault)

  function Called(env: Env, cfg: Config, c: FinalCall, finalized: bool, staged: bool, store: Store): Finalization {
    Finalized(env, cfg, c.s, finalized, staged, store, c.state, c.errors, c.pre, c.post, c.fault)
  }

  /** What the first `n` calls do to store and writer; `outcome` is that of the last. */
  function Finals(env: Env, cfg: Config, store: Store, calls: seq<FinalCall>, n: nat): Finalization
    requires n <= |calls|
  {
    if n == 0 then Finalization(store, false, false, Err(NonTerminal)) else
      var before := Finals(env, cfg, store, calls, n - 1);
      Called(env, cfg, calls[n - 1], before.finalized, before.staged, before.store)
  }

  /** The call is not refused for its arguments, and its manifest is written. */
  predicate Stages(c: FinalCall) {
    FinalRefusal(c.s, false, c.state, c.errors, c.pre, c.post) == None && !c.fault.ManifestFault?
  }

  /** The first of the first `n` calls to stage a manifest, or `n`. */
  function FirstStaging(calls: seq<FinalCall>, n: nat): (i: nat)
    requires n <= |calls|
    ensures i <= n && (i < n ==> Stages(calls[i])) && forall j :: 0 <= j < i ==> !Stages(calls[j])
  {
    if n == 0 then 0 else
      var i := FirstStaging(calls, n - 1);
      if i < n - 1 || Stages(calls[n - 1]) then i else n
  }

  /** Nothing stands in the way of a staged manifest. */
  predicate Publishes(env: Env, cfg: Config, store: Store, c: FinalCall) {
    c.fault.Smooth? && DestinationRefusal(env, store, ManifestOf(cfg, c.s, c.state, c.errors, c.pre, c.post)) == None
  }

  function PublishedBy(env: Env, cfg: Config, store: Store, c: FinalCall): Store {
    var m := ManifestOf(cfg, c.s, c.state, c.errors, c.pre, c.post);
    if env.digest(m) in store then store else store[env.digest(m) := Directory(m, c.s.files)]
  }

  /**
   Over any number of finalizations, only the first that stages its manifest can publish: the writer is finalized,
   and the store changed, exactly when that one publishes; all others fail and leave the store alone.
   */
  lemma {:induction false} FirstStagingDecides(env: Env, cfg: Config, store: Store, calls: seq<FinalCall>, n: nat)
    requires n <= |calls|
    ensures
      var f, i := Finals(env, cfg, store, calls, n), FirstStaging(calls, n);
      && (f.staged <==> i < n) && (f.finalized <==> i < n && Publishes(env, cfg, store, calls[i]))
      && f.store == (if f.finalized then PublishedBy(env, cfg, store, calls[i]) else store)
      && (n > 0 ==> (f.outcome.Ok? <==> i == n - 1 && Publishes(env, cfg, store, calls[i])))
  {
    if n > 0 {
      FirstStagingDecides(env, cfg, store, calls, n - 1);
      hide DestinationRefusal;
      var before := Finals(env, cfg, store, calls, n - 1);
      assert Finals(env, cfg, store, calls, n)
          == Called(env, cfg, calls[n - 1], before.finalized, before.staged, before.store);
      hide Finals;
    }
  }

  /** Leaving the scope is one more finalization, unless the writer is finalized already. */
  function ExitCall(s: State, reason: string, fault: FinalFault): FinalCall {
    FinalCall(s, Partial, [reason], false, false, fault)
  }

  /** What a scope leaves behind: its finalizations, then the exit. */
  function Scope(env: Env, cfg: Config, store: Store, calls: seq<FinalCall>, exit: FinalCall): Finalization {
    var f := Finals(env, cfg, store, calls, |calls|);
    if f.finalized then f else Called(env, cfg, exit, false, f.staged, f.store)
  }

  /**
   A scope that is left has published an artifact exactly when its first staged manifest, be it the exit's own
   partial one, met no obstacle; it has published that one and no other.
   */
  lemma {:induction false} ScopePublishesExactlyWhen(env: Env, cfg: Config, store: Store, calls: seq<FinalCall>,
                                                     s: State, reason: string, fault: FinalFault)
    ensures
      var exit := ExitCall(s, reason, fault);
      var i, f := FirstStaging(calls, |calls|), Scope(env, cfg, store, calls, exit);
      var decisive := if i < |calls| then calls[i] else exit;
      && (f.finalized <==> Publishes(env, cfg, store, decisive))
      && f.store == (if f.finalized then PublishedBy(env, cfg, store, decisive) else store)
  {
    FirstStagingDecides(env, cfg, store, calls, |calls|);
    hide DestinationRefusal, Finals;
  }

  method LeaveScope(w: ActivationArtifactWriter, store: ArtifactStore, calls: seq<FinalCall>, reason: string,
                    fault: FinalFault)
    requires !w.finalized && !w.manifestStaged && forall j :: 0 <= j < |calls| ==> calls[j].s == w.Now()
    modifies w, store
    ensures
      var f := Scope(w.env, w.cfg, old(store.dirs), calls, ExitCall(old(w.Now()), reason, fault));
      store.dirs == f.store && w.finalized == f.finalized
    ensures w.Now() == old(w.Now())
  {
    ghost var dirs, now := store.dirs, w.Now();
    hide Finalized;
    for n := 0 to |calls|
      invariant w.Now() == now
      invariant var f := Finals(w.env, w.cfg, dirs, calls, n);
                store.dirs == f.store && w.manifestStaged == f.staged && w.finalized == f.finalized
    {
      var c := calls[n];
      var _ := w.Finalize(store, c.state, c.errors, c.pre, c.post, c.fault);
    }
    var _ := w.Exit(store, reason, fault);
  }
}
