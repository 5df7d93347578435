/**
 When sessions keep a prefix of the file, and when the remote object is the file: exactly when no PUT that is sent
 ahead of the server commits a byte, in any session or in the one that becomes the object.

 Which PUTs are sent, and from where, depends on lengths and answers only, not on the file's content; `Shape` is a
 world without the content.
 */
module UploadDrift {
  import opened Octets
  import opened Outcomes
  import opened Upload
  import opened UploadProofs

  /** `stored` is the session that became the remote object. */
  datatype Shape = Shape(saved: Option<Saved>, lengths: seq<nat>, stored: Option<nat>)

  function PayloadSize(size: nat, chunk: nat, offset: nat, handle: nat): (n: nat)
    requires offset <= size
    ensures n <= size - offset && (n > 0 ==> handle < size)
  {
    Least(handle + Least(chunk, size - offset), size) - Least(handle, size)
  }

  function ShapeCommit(s: Shape, size: nat, id: nat, taken: nat): Shape
    requires id < |s.lengths|
  {
    var grown := s.lengths[id] + taken;
    s.(lengths := s.lengths[id := grown], stored := if s.stored == None && grown == size then Some(id) else s.stored)
  }

  function ShapeConclude(s: Shape, script: Script): Shape {
    if s.stored.Some? && !script.crashBeforeReturn then s.(saved := None) else s
  }

  function ShapeLoop(s: Shape, size: nat, chunk: nat, script: Script, id: nat, offset: nat, handle: nat, k: nat): Shape
    requires id < |s.lengths| && offset <= size
    decreases size - offset
  {
    if offset == size then ShapeConclude(s, script)
    else
      var sent := PayloadSize(size, chunk, offset, handle);
      if sent == 0 then s
      else match script.puts(k)
        case Rejected => s
        case LostAfter(n) => ShapeCommit(s, size, id, Least(n, sent))
        case Accepted(n) =>
          var s' := ShapeCommit(s, size, id, Least(n, sent));
          if n == 0 then s'
          else
            var next := offset + Least(n, sent);
            ShapeLoop(s'.(saved := Some(Saved(id, next))), size, chunk, script, id, next, handle + sent, k + 1)
  }

  /** Where the first PUT sent ahead of the server that commits a byte puts it, and where it comes from. */
  function LoopDrift(size: nat, chunk: nat, script: Script, offset: nat, handle: nat, k: nat): (d: Option<(nat, nat)>)
    requires offset <= size
    ensures d.Some? ==> d.value.0 < d.value.1 < size
    decreases size - offset
  {
    if offset == size || PayloadSize(size, chunk, offset, handle) == 0 || script.puts(k).Rejected? then None
    else if script.puts(k).n == 0 then None
    else if handle > offset then Some((offset, handle))
    else if script.puts(k).LostAfter? then None
    else
      var sent := PayloadSize(size, chunk, offset, handle);
      LoopDrift(size, chunk, script, offset + Least(script.puts(k).n, sent), handle + sent, k + 1)
  }

  function ShapeResume(s: Shape, size: nat, chunk: nat, script: Script, id: nat): Shape
    requires id < |s.lengths|
  {
    var offset := s.lengths[id];
    if offset > size then s
    else if offset == size then ShapeConclude(s, script)
    else ShapeLoop(s, size, chunk, script, id, offset, offset, 0)
  }

  predicate ShapeKnown(s: Shape) {
    s.saved.Some? && s.saved.value.session < |s.lengths|
  }

  function ShapeAsked(s: Shape, size: nat, id: nat, query: Query): (asked: Shape)
    requires id < |s.lengths|
    ensures asked.lengths == s.lengths
  {
    if !query.Expired? && query.finishes then ShapeCommit(s, size, id, 0) else s
  }

  /** The session an attempt works on, once it has one; none if it ends before. */
  function SessionOf(s: Shape, script: Script): Option<nat> {
    if script.describeLost || s.stored.Some? then None
    else if ShapeKnown(s) && script.query.QueryLost? then None
    else if ShapeKnown(s) && script.query.Alive? then Some(s.saved.value.session)
    else if script.crashBeforeSave then None
    else Some(|s.lengths|)
  }

  function Started(s: Shape): Shape {
    s.(lengths := s.lengths + [0], saved := Some(Saved(|s.lengths|, 0)))
  }

  function ShapeAttempt(s: Shape, size: nat, chunk: nat, script: Script): Shape {
    var session := SessionOf(s, script);
    if session.Some? then
      ShapeResume(if session.value < |s.lengths| then ShapeAsked(s, size, session.value, script.query) else Started(s),
                  size, chunk, script, session.value)
    else if script.describeLost || s.stored.Some? then s
    else if ShapeKnown(s) && script.query.QueryLost? then ShapeAsked(s, size, s.saved.value.session, script.query)
    else s.(lengths := s.lengths + [0])
  }

  /** The session that an attempt drifts in, the position and the source of its first misplaced byte. */
  function AttemptDrift(s: Shape, size: nat, chunk: nat, script: Script): (d: Option<(nat, nat, nat)>)
    ensures d.Some? ==> d.value.1 < d.value.2 < size
  {
    var session := SessionOf(s, script);
    if session.None? then None
    else
      var offset := if session.value < |s.lengths| then s.lengths[session.value] else 0;
      if offset > size then None
      else
        var d := LoopDrift(size, chunk, script, offset, offset, 0);
        if d.None? then None else Some((session.value, d.value.0, d.value.1))
  }

  const BLANK := Shape(None, [], None)

  function ShapeRun(size: nat, chunk: nat, scripts: seq<Script>, n: nat): Shape
    requires n <= |scripts|
  {
    if n == 0 then BLANK else ShapeAttempt(ShapeRun(size, chunk, scripts, n - 1), size, chunk, scripts[n - 1])
  }

  /** In one of the first `n` attempts a PUT that is sent ahead of the server commits a byte. */
  predicate Drifts(size: nat, chunk: nat, scripts: seq<Script>, n: nat)
    requires n <= |scripts|
  {
    exists i :: 0 <= i < n && DriftsAt(size, chunk, scripts, i)
  }

  predicate DriftsAt(size: nat, chunk: nat, scripts: seq<Script>, i: nat)
    requires i < |scripts|
  {
    AttemptDrift(ShapeRun(size, chunk, scripts, i), size, chunk, scripts[i]).Some?
  }

  /** The same in session `id`. */
  predicate DriftsIn(size: nat, chunk: nat, scripts: seq<Script>, n: nat, id: nat)
    requires n <= |scripts|
  {
    exists i :: 0 <= i < n && DriftsInAt(size, chunk, scripts, i, id)
  }

  predicate DriftsInAt(size: nat, chunk: nat, scripts: seq<Script>, i: nat, id: nat)
    requires i < |scripts|
  {
    var d := AttemptDrift(ShapeRun(size, chunk, scripts, i), size, chunk, scripts[i]);
    d.Some? && d.value.0 == id
  }

  /** The session that becomes the remote object in the first `n` attempts. */
  function StoredBy(size: nat, chunk: nat, scripts: seq<Script>, n: nat): Option<nat>
    requires n <= |scripts|
  {
    ShapeRun(size, chunk, scripts, n).stored
  }

  // ----- A world has its shape -----

  /** The shape of a world in which every session was opened for this file, and a full one became the object. */
  ghost predicate Shaped(w: World, s: Shape, file: Bytes, digest: Digest) {
    && w.saved == s.saved && |w.sessions| == |s.lengths| && (w.remote.Some? <==> s.stored.Some?)
    && (s.stored.Some? ==>
          && s.stored.value < |w.sessions| && s.lengths[s.stored.value] == |file|
          && w.remote.value == Object(w.sessions[s.stored.value].committed, digest))
    && (forall id :: 0 <= id < |w.sessions| ==>
          && |w.sessions[id].committed| == s.lengths[id] && w.sessions[id].size == |file|
          && w.sessions[id].digest == digest && (s.lengths[id] == |file| > 0 ==> s.stored.Some?))
  }

  lemma {:induction false} CommitShaped(w: World, s: Shape, file: Bytes, digest: Digest, id: nat, payload: Bytes,
                                        n: nat)
    requires Shaped(w, s, file, digest) && id < |w.sessions| && id < |s.lengths| && s.stored == None
    ensures Shaped(Commit(w, id, payload, n), ShapeCommit(s, |file|, id, Least(n, |payload|)), file, digest)
    ensures |Commit(w, id, payload, n).sessions| == |w.sessions|
    ensures |Commit(w, id, payload, n).sessions[id].committed| == s.lengths[id] + Least(n, |payload|)
    ensures var s' := ShapeCommit(s, |file|, id, Least(n, |payload|));
            && |s'.lengths| == |s.lengths| && s'.lengths[id] == s.lengths[id] + Least(n, |payload|)
            && (s'.stored.Some? <==> s'.lengths[id] == |file|)
  {
  }

  lemma {:induction false} SavedShaped(w: World, s: Shape, file: Bytes, digest: Digest, saved: Option<Saved>)
    requires Shaped(w, s, file, digest)
    ensures Shaped(w.(saved := saved), s.(saved := saved), file, digest)
  {
  }

  lemma {:induction false} ConcludeShaped(w: World, s: Shape, file: Bytes, digest: Digest, script: Script)
    requires Shaped(w, s, file, digest)
    ensures Shaped(Conclude(w, |file|, digest, script).0, ShapeConclude(s, script), file, digest)
  {
  }

  lemma {:induction false} PayloadShaped(file: Bytes, chunk: nat, offset: nat, handle: nat)
    requires offset <= |file|
    ensures |Payload(file, chunk, offset, handle)| == PayloadSize(|file|, chunk, offset, handle)
  {
  }

  lemma {:induction false} LoopShaped(w: World, s: Shape, file: Bytes, digest: Digest, chunk: nat, script: Script,
                                      id: nat, offset: nat, handle: nat, k: nat)
    requires Shaped(w, s, file, digest) && id < |w.sessions| && id < |s.lengths| && s.lengths[id] == offset <= |file|
    requires offset < |file| ==> s.stored == None
    ensures Shaped(Loop(w, file, digest, chunk, script, id, offset, handle, k).0,
                   ShapeLoop(s, |file|, chunk, script, id, offset, handle, k), file, digest)
    decreases |file| - offset
  {
    hide Commit, ShapeCommit, Shaped, Payload, PayloadSize, Conclude, ShapeConclude;
    if offset == |file| {
      ConcludeShaped(w, s, file, digest, script);
    } else {
      PayloadShaped(file, chunk, offset, handle);
      var payload := Payload(file, chunk, offset, handle);
      if payload != [] && !script.puts(k).Rejected? {
        var n := script.puts(k).n;
        CommitShaped(w, s, file, digest, id, payload, n);
        if script.puts(k).Accepted? && n > 0 {
          var next := offset + Least(n, |payload|);
          var w', s' := Commit(w, id, payload, n), ShapeCommit(s, |file|, id, Least(n, |payload|));
          SavedShaped(w', s', file, digest, Some(Saved(id, next)));
          LoopShaped(w'.(saved := Some(Saved(id, next))), s'.(saved := Some(Saved(id, next))), file, digest, chunk,
                     script, id, next, handle + |payload|, k + 1);
        }
      }
    }
  }

  lemma {:induction false} ResumeShaped(w: World, s: Shape, file: Bytes, digest: Digest, chunk: nat, script: Script,
                                        id: nat)
    requires Shaped(w, s, file, digest) && id < |w.sessions| && id < |s.lengths|
    requires s.lengths[id] < |file| ==> s.stored == None
    ensures
      Shaped(Resume(w, file, digest, chunk, script, id).0, ShapeResume(s, |file|, chunk, script, id), file, digest)
  {
    var offset := s.lengths[id];
    assert |w.sessions[id].committed| == offset;
    hide Loop, ShapeLoop, Shaped, Conclude, ShapeConclude;
    if offset == |file| {
      ConcludeShaped(w, s, file, digest, script);
    } else if offset < |file| {
      LoopShaped(w, s, file, digest, chunk, script, id, offset, offset, 0);
    }
  }

  lemma {:induction false} AskedShaped(w: World, s: Shape, file: Bytes, digest: Digest, id: nat, query: Query)
    requires Shaped(w, s, file, digest) && id < |w.sessions| && id < |s.lengths| && s.stored == None
    ensures Shaped(Asked(w, id, query), ShapeAsked(s, |file|, id, query), file, digest)
    ensures s.lengths[id] < |file| ==> ShapeAsked(s, |file|, id, query).stored == None
  {
    CommitShaped(w, s, file, digest, id, [], 0);
    hide Commit, Shaped;
  }

  /** What an attempt does to the lengths depends on lengths and answers only. */
  lemma {:induction false} AttemptShaped(w: World, s: Shape, file: Bytes, digest: Digest, chunk: nat, script: Script)
    requires Shaped(w, s, file, digest)
    ensures Shaped(Attempt(w, file, digest, chunk, script).0, ShapeAttempt(s, |file|, chunk, script), file, digest)
  {
    var fresh' := w.(sessions := w.sessions + [Session(|file|, digest, [])]);
    var started := fresh'.(saved := Some(Saved(|w.sessions|, 0)));
    assert Shaped(fresh', s.(lengths := s.lengths + [0]), file, digest);
    assert Shaped(started, Started(s), file, digest);
    hide Resume, ShapeResume, Asked, ShapeAsked;
    if s.stored == None && ShapeKnown(s) {
      AskedShaped(w, s, file, digest, s.saved.value.session, script.query);
    }
    if SessionOf(s, script).Some? {
      var id := SessionOf(s, script).value;
      if id < |s.lengths| {
        ResumeShaped(Asked(w, id, script.query), ShapeAsked(s, |file|, id, script.query), file, digest, chunk, script,
                     id);
      } else {
        ResumeShaped(started, Started(s), file, digest, chunk, script, id);
      }
    }
  }

  lemma {:induction false} RunShaped(file: Bytes, digest: Digest, chunk: nat, scripts: seq<Script>, n: nat)
    requires n <= |scripts|
    ensures Shaped(Run(EMPTY, file, digest, chunk, scripts, n), ShapeRun(|file|, chunk, scripts, n), file, digest)
  {
    hide Attempt, ShapeAttempt;
    if n > 0 {
      hide Shaped;
      RunShaped(file, digest, chunk, scripts, n - 1);
      AttemptShaped(Run(EMPTY, file, digest, chunk, scripts, n - 1), ShapeRun(|file|, chunk, scripts, n - 1), file,
                    digest, chunk, scripts[n - 1]);
    }
  }

  // ----- Without drift -----

  /** Session `id`, if there is one, holds a prefix of the file. */
  ghost predicate Prefixed(w: World, file: Bytes, id: nat) {
    id < |w.sessions| ==> w.sessions[id].committed <= file
  }

  lemma {:induction false} CommitPrefixed(w: World, file: Bytes, chunk: nat, id: nat, offset: nat, n: nat)
    requires id < |w.sessions| && |w.sessions[id].committed| == offset <= |file| && Prefixed(w, file, id)
    ensures Prefixed(Commit(w, id, Payload(file, chunk, offset, offset), n), file, id)
  {
    TakenIsNext(file, chunk, offset, offset, n);
    assert w.sessions[id].committed == file[..offset];
  }

  /** A loop that starts where the server stands and does not drift keeps its session's prefix. */
  lemma {:induction false} LoopPrefixed(w: World, file: Bytes, digest: Digest, chunk: nat, script: Script, id: nat,
                                        offset: nat, k: nat)
    requires id < |w.sessions| && |w.sessions[id].committed| == offset <= |file| && Prefixed(w, file, id)
    requires LoopDrift(|file|, chunk, script, offset, offset, k).None?
    ensures Prefixed(Loop(w, file, digest, chunk, script, id, offset, offset, k).0, file, id)
    decreases |file| - offset
  {
    hide Commit, Payload, PayloadSize;
    if offset < |file| {
      var payload := Payload(file, chunk, offset, offset);
      PayloadShaped(file, chunk, offset, offset);
      if payload != [] && !script.puts(k).Rejected? {
        var n := script.puts(k).n;
        CommitNext(w, id, payload, n);
        CommitPrefixed(w, file, chunk, id, offset, n);
        if script.puts(k).Accepted? && n > 0 {
          var next := offset + Least(n, |payload|);
          var saved := Commit(w, id, payload, n).(saved := Some(Saved(id, next)));
          if n >= |payload| {
            LoopPrefixed(saved, file, digest, chunk, script, id, next, k + 1);
          } else {
            AheadPrefixed(saved, file, digest, chunk, script, id, next, offset + |payload|, k + 1);
          }
        }
      }
    }
  }

  /** Ahead of the server, a loop that does not drift commits nothing more. */
  lemma {:induction false} AheadPrefixed(w: World, file: Bytes, digest: Digest, chunk: nat, script: Script, id: nat,
                                         offset: nat, handle: nat, k: nat)
    requires id < |w.sessions| && |w.sessions[id].committed| == offset < handle && Prefixed(w, file, id)
    requires offset < |file| && LoopDrift(|file|, chunk, script, offset, handle, k).None?
    ensures Prefixed(Loop(w, file, digest, chunk, script, id, offset, handle, k).0, file, id)
  {
    PayloadShaped(file, chunk, offset, handle);
    var payload := Payload(file, chunk, offset, handle);
    if payload != [] && !script.puts(k).Rejected? {
      assert script.puts(k).n == 0;
      assert w.sessions[id].committed + payload[..0] == w.sessions[id].committed;
    }
  }

  /** What a loop does to its own session leaves the others alone. */
  lemma {:induction false} LoopElsewhere(w: World, file: Bytes, digest: Digest, chunk: nat, script: Script, id: nat,
                                         offset: nat, handle: nat, k: nat, other: nat)
    requires id < |w.sessions| && offset <= |file| && id != other && Prefixed(w, file, other)
    ensures Prefixed(Loop(w, file, digest, chunk, script, id, offset, handle, k).0, file, other)
    decreases |file| - offset
  {
    hide Payload;
    var payload := Payload(file, chunk, offset, handle);
    if offset < |file| && payload != [] && script.puts(k).Accepted? {
      var w' := Commit(w, id, payload, script.puts(k).n);
      var next := |w'.sessions[id].committed|;
      if offset < next <= |file| {
        LoopElsewhere(w'.(saved := Some(Saved(id, next))), file, digest, chunk, script, id, next, handle + |payload|,
                      k + 1, other);
      }
    }
  }

  lemma {:induction false} AskedPrefixed(w: World, file: Bytes, id: nat, query: Query, other: nat)
    requires id < |w.sessions| && Prefixed(w, file, other)
    ensures Prefixed(Asked(w, id, query), file, other)
    ensures Asked(w, id, query).sessions[id].committed == w.sessions[id].committed
  {
    assert w.sessions[id].committed + [][..0] == w.sessions[id].committed;
  }

  lemma {:induction false} ResumePrefixed(w: World, file: Bytes, digest: Digest, chunk: nat, script: Script, id: nat,
                                          other: nat)
    requires id < |w.sessions| && Prefixed(w, file, other)
    requires var offset := |w.sessions[id].committed|;
             offset <= |file| && id == other ==> LoopDrift(|file|, chunk, script, offset, offset, 0).None?
    ensures Prefixed(Resume(w, file, digest, chunk, script, id).0, file, other)
  {
    hide Loop, LoopDrift;
    var offset := |w.sessions[id].committed|;
    if offset < |file| {
      if id == other {
        LoopPrefixed(w, file, digest, chunk, script, id, offset, 0);
      } else {
        LoopElsewhere(w, file, digest, chunk, script, id, offset, offset, 0, other);
      }
    }
  }

  /** An attempt that does not drift in a session keeps that session's prefix. */
  lemma {:induction false} AttemptPrefixed(w: World, s: Shape, file: Bytes, digest: Digest, chunk: nat, script: Script,
                                           id: nat)
    requires Shaped(w, s, file, digest) && Prefixed(w, file, id)
    requires var d := AttemptDrift(s, |file|, chunk, script); d.Some? ==> d.value.0 != id
    ensures Prefixed(Attempt(w, file, digest, chunk, script).0, file, id)
  {
    var started := w.(sessions := w.sessions + [Session(|file|, digest, [])], saved := Some(Saved(|w.sessions|, 0)));
    assert Prefixed(started, file, id);
    hide Resume, LoopDrift, Asked;
    if ShapeKnown(s) {
      AskedPrefixed(w, file, s.saved.value.session, script.query, id);
    }
    if SessionOf(s, script).Some? {
      var session := SessionOf(s, script).value;
      if session < |s.lengths| {
        ResumePrefixed(Asked(w, session, script.query), file, digest, chunk, script, session, id);
      } else {
        ResumePrefixed(started, file, digest, chunk, script, session, id);
      }
    }
  }

  /** A session in which no attempt drifts holds a prefix of the file after any run. */
  lemma {:induction false} RunPrefixed(file: Bytes, digest: Digest, chunk: nat, scripts: seq<Script>, n: nat, id: nat)
    requires n <= |scripts| && !DriftsIn(|file|, chunk, scripts, n, id)
    ensures Prefixed(Run(EMPTY, file, digest, chunk, scripts, n), file, id)
  {
    hide *;
    if n == 0 {
      NothingPrefixed(file, digest, chunk, scripts, id);
    } else {
      UndriftedBefore(|file|, chunk, scripts, n, id);
      RunPrefixed(file, digest, chunk, scripts, n - 1, id);
      RunShaped(file, digest, chunk, scripts, n - 1);
      AttemptPrefixed(Run(EMPTY, file, digest, chunk, scripts, n - 1), ShapeRun(|file|, chunk, scripts, n - 1), file,
                      digest, chunk, scripts[n - 1], id);
      RunStep(file, digest, chunk, scripts, n);
    }
  }

  lemma {:induction false} NothingPrefixed(file: Bytes, digest: Digest, chunk: nat, scripts: seq<Script>, id: nat)
    ensures Prefixed(Run(EMPTY, file, digest, chunk, scripts, 0), file, id)
  {
  }

  lemma {:induction false} UndriftedBefore(size: nat, chunk: nat, scripts: seq<Script>, n: nat, id: nat)
    requires 0 < n <= |scripts| && !DriftsIn(size, chunk, scripts, n, id)
    ensures !DriftsIn(size, chunk, scripts, n - 1, id)
    ensures var d := AttemptDrift(ShapeRun(size, chunk, scripts, n - 1), size, chunk, scripts[n - 1]);
            d.Some? ==> d.value.0 != id
  {
    hide AttemptDrift, ShapeRun;
    assert !DriftsInAt(size, chunk, scripts, n - 1, id);
  }

  lemma {:induction false} DriftsInDrifts(size: nat, chunk: nat, scripts: seq<Script>, n: nat, id: nat)
    requires n <= |scripts| && DriftsIn(size, chunk, scripts, n, id)
    ensures Drifts(size, chunk, scripts, n)
  {
    hide AttemptDrift, ShapeRun;
    var i :| 0 <= i < n && DriftsInAt(size, chunk, scripts, i, id);
    assert DriftsAt(size, chunk, scripts, i);
  }

  /** Without drift, every session holds a prefix of the file after any run, and the object, if any, is the file. */
  lemma {:induction false} UndriftedIsFaithful(file: Bytes, digest: Digest, chunk: nat, scripts: seq<Script>, n: nat)
    requires n <= |scripts| && !Drifts(|file|, chunk, scripts, n)
    ensures Faithful(Run(EMPTY, file, digest, chunk, scripts, n), file, digest)
  {
    var w := Run(EMPTY, file, digest, chunk, scripts, n);
    RunShaped(file, digest, chunk, scripts, n);
    hide Run, ShapeRun, AttemptDrift;
    forall id | 0 <= id < |w.sessions|
      ensures w.sessions[id].committed <= file
    {
      if DriftsIn(|file|, chunk, scripts, n, id) {
        DriftsInDrifts(|file|, chunk, scripts, n, id);
      }
      RunPrefixed(file, digest, chunk, scripts, n, id);
    }
    WholePrefix(w, ShapeRun(|file|, chunk, scripts, n), file, digest);
  }

  /** A full session that holds a prefix of the file is the file. */
  lemma {:induction false} WholePrefix(w: World, s: Shape, file: Bytes, digest: Digest)
    requires Shaped(w, s, file, digest)
    ensures forall id :: 0 <= id < |w.sessions| && w.sessions[id].committed <= file && s.lengths[id] == |file| ==>
              w.sessions[id].committed == file
  {
  }

  lemma {:induction false} RunStep(file: Bytes, digest: Digest, chunk: nat, scripts: seq<Script>, n: nat)
    requires 0 < n <= |scripts|
    ensures Run(EMPTY, file, digest, chunk, scripts, n)
         == Attempt(Run(EMPTY, file, digest, chunk, scripts, n - 1), file, digest, chunk, scripts[n - 1]).0
  {
    hide Attempt;
  }

  // ----- With drift -----

  /** Sessions only grow. */
  ghost predicate Grows(w: World, w': World) {
    |w.sessions| <= |w'.sessions|
    && forall id :: 0 <= id < |w.sessions| ==> w.sessions[id].committed <= w'.sessions[id].committed
  }

  /** Byte `at` of a session is byte `source` of the file. */
  ghost predicate Misplaced(w: World, file: Bytes, id: nat, at: nat, source: nat) {
    && id < |w.sessions| && at < |w.sessions[id].committed| && source < |file|
    && w.sessions[id].committed[at] == file[source]
  }

  lemma {:induction false} GrowsOn(a: World, b: World, c: World)
    requires Grows(a, b) && Grows(b, c)
    ensures Grows(a, c)
  {
  }

  lemma {:induction false} MisplacedStays(w: World, w': World, file: Bytes, id: nat, at: nat, source: nat)
    requires Grows(w, w') && Misplaced(w, file, id, at, source)
    ensures Misplaced(w', file, id, at, source)
  {
  }

  lemma {:induction false} LoopGrows(w: World, file: Bytes, digest: Digest, chunk: nat, script: Script, id: nat,
                                     offset: nat, handle: nat, k: nat)
    requires id < |w.sessions| && offset <= |file|
    ensures Grows(w, Loop(w, file, digest, chunk, script, id, offset, handle, k).0)
    decreases |file| - offset
  {
    hide Commit, Payload, Grows, Conclude;
    NoChangeGrows(w);
    if offset == |file| {
      ConcludeGrows(w, file, digest, script);
    } else if Payload(file, chunk, offset, handle) != [] && !script.puts(k).Rejected? {
      var payload, n := Payload(file, chunk, offset, handle), script.puts(k).n;
      var w' := Commit(w, id, payload, n);
      CommitNext(w, id, payload, n);
      CommitGrows(w, id, payload, n);
      var next := |w'.sessions[id].committed|;
      if script.puts(k).Accepted? && offset < next <= |file| {
        var saved := w'.(saved := Some(Saved(id, next)));
        SavedGrows(w, w', saved.saved);
        LoopGrows(saved, file, digest, chunk, script, id, next, handle + |payload|, k + 1);
        GrowsOn(w, saved, Loop(saved, file, digest, chunk, script, id, next, handle + |payload|, k + 1).0);
      }
    }
  }

  lemma {:induction false} CommitGrows(w: World, id: nat, payload: Bytes, n: nat)
    requires id < |w.sessions|
    ensures Grows(w, Commit(w, id, payload, n))
  {
  }

  lemma {:induction false} AskedGrows(w: World, id: nat, query: Query)
    requires id < |w.sessions|
    ensures Grows(w, Asked(w, id, query))
    ensures Asked(w, id, query).sessions[id].committed == w.sessions[id].committed
  {
    assert w.sessions[id].committed + [][..0] == w.sessions[id].committed;
  }

  lemma {:induction false} SavedGrows(w: World, w': World, saved: Option<Saved>)
    requires Grows(w, w')
    ensures Grows(w, w'.(saved := saved))
  {
  }

  lemma {:induction false} ConcludeGrows(w: World, file: Bytes, digest: Digest, script: Script)
    ensures Grows(w, Conclude(w, |file|, digest, script).0)
  {
  }

  lemma {:induction false} AttemptGrows(w: World, file: Bytes, digest: Digest, chunk: nat, script: Script)
    ensures Grows(w, Attempt(w, file, digest, chunk, script).0)
  {
    var fresh' := w.(sessions := w.sessions + [Session(|file|, digest, [])]);
    var started := fresh'.(saved := Some(Saved(|w.sessions|, 0)));
    assert Grows(w, started) && Grows(w, fresh');
    hide Loop, Conclude, Grows;
    ResumeGrows(started, file, digest, chunk, script, |w.sessions|);
    GrowsOn(w, started, Resume(started, file, digest, chunk, script, |w.sessions|).0);
    if Known(w) {
      var id := w.saved.value.session;
      var asked := Asked(w, id, script.query);
      AskedGrows(w, id, script.query);
      ResumeGrows(asked, file, digest, chunk, script, id);
      GrowsOn(w, asked, Resume(asked, file, digest, chunk, script, id).0);
    }
    NoChangeGrows(w);
    hide Resume, Asked;
  }

  lemma {:induction false} NoChangeGrows(w: World)
    ensures Grows(w, w)
  {
  }

  lemma {:induction false} ResumeGrows(w: World, file: Bytes, digest: Digest, chunk: nat, script: Script, id: nat)
    requires id < |w.sessions|
    ensures Grows(w, Resume(w, file, digest, chunk, script, id).0)
  {
    var offset := |w.sessions[id].committed|;
    if offset < |file| {
      hide Loop;
      LoopGrows(w, file, digest, chunk, script, id, offset, offset, 0);
    }
  }

  /** A PUT sent from `handle` while the server stands at `offset` before it puts the wrong byte there. */
  lemma {:induction false} CommitMisplaces(w: World, file: Bytes, chunk: nat, id: nat, offset: nat, handle: nat, n: nat)
    requires id < |w.sessions| && |w.sessions[id].committed| == offset <= |file| && n > 0
    requires Payload(file, chunk, offset, handle) != []
    ensures Misplaced(Commit(w, id, Payload(file, chunk, offset, handle), n), file, id, offset, handle)
  {
    assert Payload(file, chunk, offset, handle)[0] == file[handle];
  }

  lemma {:induction false} LoopMisplaces(w: World, file: Bytes, digest: Digest, chunk: nat, script: Script, id: nat,
                                         offset: nat, handle: nat, k: nat)
    requires id < |w.sessions| && |w.sessions[id].committed| == offset <= |file|
    requires LoopDrift(|file|, chunk, script, offset, handle, k).Some?
    ensures var d := LoopDrift(|file|, chunk, script, offset, handle, k).value;
            Misplaced(Loop(w, file, digest, chunk, script, id, offset, handle, k).0, file, id, d.0, d.1)
    decreases |file| - offset
  {
    hide Commit, Payload, PayloadSize, Misplaced, Conclude;
    PayloadShaped(file, chunk, offset, handle);
    var payload, n := Payload(file, chunk, offset, handle), script.puts(k).n;
    var w' := Commit(w, id, payload, n);
    CommitNext(w, id, payload, n);
    CommitMisplaces(w, file, chunk, id, offset, handle, n);
    if script.puts(k).Accepted? {
      var next := offset + Least(n, |payload|);
      var saved := w'.(saved := Some(Saved(id, next)));
      if handle > offset {
        LoopGrows(saved, file, digest, chunk, script, id, next, handle + |payload|, k + 1);
        SavedMisplaced(w', saved.saved, file, id, offset, handle);
        MisplacedStays(saved, Loop(saved, file, digest, chunk, script, id, next, handle + |payload|, k + 1).0, file, id,
                       offset, handle);
      } else {
        LoopMisplaces(saved, file, digest, chunk, script, id, next, handle + |payload|, k + 1);
      }
    }
  }

  lemma {:induction false} SavedMisplaced(w: World, saved: Option<Saved>, file: Bytes, id: nat, at: nat, source: nat)
    requires Misplaced(w, file, id, at, source)
    ensures Misplaced(w.(saved := saved), file, id, at, source)
  {
  }

  lemma {:induction false} AttemptMisplaces(w: World, s: Shape, file: Bytes, digest: Digest, chunk: nat, script: Script)
    requires Shaped(w, s, file, digest) && AttemptDrift(s, |file|, chunk, script).Some?
    ensures var d := AttemptDrift(s, |file|, chunk, script).value;
            Misplaced(Attempt(w, file, digest, chunk, script).0, file, d.0, d.1, d.2)
  {
    var id := SessionOf(s, script).value;
    var started := w.(sessions := w.sessions + [Session(|file|, digest, [])], saved := Some(Saved(|w.sessions|, 0)));
    var current := if id < |s.lengths| then Asked(w, id, script.query) else started;
    if id < |s.lengths| {
      AskedGrows(w, id, script.query);
    }
    var offset := |current.sessions[id].committed|;
    hide Misplaced, LoopDrift, Asked;
    LoopMisplaces(current, file, digest, chunk, script, id, offset, offset, 0);
    hide Loop, Conclude;
  }

  lemma {:induction false} RunGrows(file: Bytes, digest: Digest, chunk: nat, scripts: seq<Script>, n: nat, m: nat)
    requires n <= m <= |scripts|
    ensures Grows(Run(EMPTY, file, digest, chunk, scripts, n), Run(EMPTY, file, digest, chunk, scripts, m))
  {
    hide Grows, Attempt;
    NoChangeGrows(Run(EMPTY, file, digest, chunk, scripts, n));
    if n < m {
      var before := Run(EMPTY, file, digest, chunk, scripts, m - 1);
      RunGrows(file, digest, chunk, scripts, n, m - 1);
      AttemptGrows(before, file, digest, chunk, scripts[m - 1]);
      GrowsOn(Run(EMPTY, file, digest, chunk, scripts, n), before,
              Attempt(before, file, digest, chunk, scripts[m - 1]).0);
    }
  }

  /** All zeros, but for one byte. */
  function OneMarked(size: nat, source: nat): (file: Bytes)
    ensures |file| == size && forall i :: 0 <= i < size ==> file[i] == if i == source then 1 else 0
  {
    seq(size, i => if i == source then 1 else 0)
  }

  /** Every session of the run holds a prefix of the file. */
  ghost predicate KeepsPrefixes(file: Bytes, digest: Digest, chunk: nat, scripts: seq<Script>, n: nat)
    requires n <= |scripts|
  {
    var w := Run(EMPTY, file, digest, chunk, scripts, n);
    forall id :: 0 <= id < |w.sessions| ==> w.sessions[id].committed <= file
  }

  /** A misplaced byte stays in its session: after the run the marked file is not what the session holds. */
  lemma {:induction false} DriftedSession(size: nat, digest: Digest, chunk: nat, scripts: seq<Script>, n: nat, i: nat)
    returns (file: Bytes)
    requires i < n <= |scripts| && DriftsAt(size, chunk, scripts, i)
    ensures |file| == size
    ensures var w := Run(EMPTY, file, digest, chunk, scripts, n);
            var id := AttemptDrift(ShapeRun(size, chunk, scripts, i), size, chunk, scripts[i]).value.0;
            id < |w.sessions| && !(w.sessions[id].committed <= file)
  {
    hide Run, ShapeRun, AttemptDrift, Attempt, Shaped, Misplaced, Grows;
    var s := ShapeRun(size, chunk, scripts, i);
    var d := AttemptDrift(s, size, chunk, scripts[i]).value;
    file := OneMarked(size, d.2);
    var w, w' := Run(EMPTY, file, digest, chunk, scripts, i), Run(EMPTY, file, digest, chunk, scripts, i + 1);
    RunShaped(file, digest, chunk, scripts, i);
    AttemptMisplaces(w, s, file, digest, chunk, scripts[i]);
    RunStep(file, digest, chunk, scripts, i + 1);
    RunGrows(file, digest, chunk, scripts, i + 1, n);
    MisplacedStays(w', Run(EMPTY, file, digest, chunk, scripts, n), file, d.0, d.1, d.2);
    MisplacedBreaks(Run(EMPTY, file, digest, chunk, scripts, n), file, d.0, d.1, d.2);
  }

  lemma {:induction false} MisplacedBreaks(w: World, file: Bytes, id: nat, at: nat, source: nat)
    requires Misplaced(w, file, id, at, source) && at < |file| && file[at] != file[source]
    ensures id < |w.sessions| && !(w.sessions[id].committed <= file)
  {
  }

  ghost predicate PutKeepsPrefix(file: Bytes, chunk: nat, offset: nat, handle: nat, n: nat)
    requires offset <= |file|
  {
    var payload := Payload(file, chunk, offset, handle);
    file[..offset] + payload[..Least(n, |payload|)] <= file
  }

  /** One PUT keeps the prefix, for every file of that size, exactly when it is sent in step or nothing is taken. */
  lemma {:induction false} PutKeepsPrefixExactlyWhen(size: nat, chunk: nat, offset: nat, handle: nat, n: nat)
    requires offset <= size && handle >= offset
    ensures (forall file: Bytes :: |file| == size ==> PutKeepsPrefix(file, chunk, offset, handle, n))
       <==> handle == offset || n == 0 || PayloadSize(size, chunk, offset, handle) == 0
  {
    if handle == offset || n == 0 || PayloadSize(size, chunk, offset, handle) == 0 {
      forall file: Bytes | |file| == size
        ensures PutKeepsPrefix(file, chunk, offset, handle, n)
      {
        PayloadShaped(file, chunk, offset, handle);
        TakenIsNext(file, chunk, offset, handle, n);
      }
    } else {
      var file := OneMarked(size, handle);
      PayloadShaped(file, chunk, offset, handle);
      var payload := Payload(file, chunk, offset, handle);
      assert payload[0] == file[handle] == 1 && file[offset] == 0;
      assert (file[..offset] + payload[..Least(n, |payload|)])[offset] == 1;
    }
  }

  /**
   Whatever crashes and answers the scripts hold: every session of the run holds a prefix of the file, for every
   file of that size, exactly when no PUT that is sent ahead of the server commits a byte.
   */
  lemma {:induction false} PrefixesExactlyWhen(size: nat, digest: Digest, chunk: nat, scripts: seq<Script>, n: nat)
    requires n <= |scripts|
    ensures (forall file: Bytes :: |file| == size ==> KeepsPrefixes(file, digest, chunk, scripts, n))
       <==> !Drifts(size, chunk, scripts, n)
  {
    if Drifts(size, chunk, scripts, n) {
      var i: nat :| i < n && DriftsAt(size, chunk, scripts, i);
      var file := DriftedSession(size, digest, chunk, scripts, n, i);
    } else {
      forall file: Bytes | |file| == size
        ensures KeepsPrefixes(file, digest, chunk, scripts, n)
      {
        UndriftedIsFaithful(file, digest, chunk, scripts, n);
      }
    }
  }

  // ----- The object -----

  /** If there is an object after the run, its content is the file. */
  ghost predicate ObjectIsFile(file: Bytes, digest: Digest, chunk: nat, scripts: seq<Script>, n: nat)
    requires n <= |scripts|
  {
    var remote := Run(EMPTY, file, digest, chunk, scripts, n).remote;
    remote.Some? ==> remote.value.content == file
  }

  /**
   Whatever crashes and answers the scripts hold: the object, if the run stores one, is the file, for every file of
   that size, exactly when no PUT that is sent ahead of the server commits a byte in the session that becomes it.
   */
  lemma {:induction false} ObjectExactlyWhen(size: nat, digest: Digest, chunk: nat, scripts: seq<Script>, n: nat)
    requires n <= |scripts|
    ensures
      var stored := StoredBy(size, chunk, scripts, n);
      (forall file: Bytes :: |file| == size ==> ObjectIsFile(file, digest, chunk, scripts, n))
      <==> (stored.Some? ==> !DriftsIn(size, chunk, scripts, n, stored.value))
  {
    var stored := StoredBy(size, chunk, scripts, n);
    if stored.Some? && DriftsIn(size, chunk, scripts, n, stored.value) {
      var i: nat :| i < n && DriftsInAt(size, chunk, scripts, i, stored.value);
      var file := DriftedSession(size, digest, chunk, scripts, n, i);
      RunShaped(file, digest, chunk, scripts, n);
      hide Run, ShapeRun, AttemptDrift;
      assert !ObjectIsFile(file, digest, chunk, scripts, n);
    } else {
      hide Run, ShapeRun, AttemptDrift;
      forall file: Bytes | |file| == size
        ensures ObjectIsFile(file, digest, chunk, scripts, n)
      {
        RunShaped(file, digest, chunk, scripts, n);
        if stored.Some? {
          RunPrefixed(file, digest, chunk, scripts, n, stored.value);
          WholePrefix(Run(EMPTY, file, digest, chunk, scripts, n), ShapeRun(size, chunk, scripts, n), file, digest);
        }
      }
    }
  }

  /** The session is gone, and the server takes every chunk of the next one whole. */
  function Renewed(u: nat): Script {
    Script(false, Expired, false, k => Accepted(2 * u), false)
  }

  function GivenUp(u: nat): Shape {
    Shape(Some(Saved(0, 3 * u)), [3 * u], None)
  }

  /** One turn of the loop in which the server takes `n` bytes of those sent. */
  lemma {:induction false} ShapeTurn(s: Shape, size: nat, chunk: nat, script: Script, id: nat, offset: nat, handle: nat,
                                     k: nat, n: nat)
    requires id < |s.lengths| && offset < size && script.puts(k) == Accepted(n)
    requires 0 < n <= PayloadSize(size, chunk, offset, handle)
    ensures var s' := ShapeCommit(s, size, id, n).(saved := Some(Saved(id, offset + n)));
            var handle' := handle + PayloadSize(size, chunk, offset, handle);
            ShapeLoop(s, size, chunk, script, id, offset, handle, k)
            == ShapeLoop(s', size, chunk, script, id, offset + n, handle', k + 1)
    ensures LoopDrift(size, chunk, script, offset, handle, k)
         == if handle > offset then Some((offset, handle))
            else LoopDrift(size, chunk, script, offset + n, handle + PayloadSize(size, chunk, offset, handle), k + 1)
  {
  }

  lemma {:induction false} ShapeEnd(s: Shape, size: nat, chunk: nat, script: Script, id: nat, offset: nat, handle: nat,
                                    k: nat)
    requires id < |s.lengths| && offset <= size && PayloadSize(size, chunk, offset, handle) == 0
    ensures ShapeLoop(s, size, chunk, script, id, offset, handle, k)
         == if offset == size then ShapeConclude(s, script) else s
    ensures LoopDrift(size, chunk, script, offset, handle, k) == None
  {
  }

  /** An attempt that begins a session of its own. */
  lemma {:induction false} AttemptStarts(s: Shape, size: nat, chunk: nat, script: Script)
    requires size > 0 && s.stored == None && !script.describeLost && !script.crashBeforeSave
    requires !ShapeKnown(s) || script.query.Expired?
    ensures ShapeAttempt(s, size, chunk, script)
         == ShapeLoop(Started(s), size, chunk, script, |s.lengths|, 0, 0, 0)
    ensures AttemptDrift(s, size, chunk, script)
         == var d := LoopDrift(size, chunk, script, 0, 0, 0);
            if d.None? then None else Some((|s.lengths|, d.value.0, d.value.1))
  {
    hide ShapeLoop, LoopDrift;
  }

  lemma {:induction false} FirstDrifts(u: nat)
    requires u > 0
    ensures ShapeAttempt(BLANK, 4 * u, 2 * u, ShortScript(u)) == GivenUp(u)
    ensures AttemptDrift(BLANK, 4 * u, 2 * u, ShortScript(u)) == Some((0, u, 2 * u))
  {
    hide ShapeLoop, LoopDrift, ShapeAttempt, AttemptDrift;
    var s, t, script := Shape(Some(Saved(0, 0)), [0], None), Shape(Some(Saved(0, u)), [u], None), ShortScript(u);
    AttemptStarts(BLANK, 4 * u, 2 * u, script);
    assert Started(BLANK) == s;
    assert ShapeCommit(s, 4 * u, 0, u).(saved := Some(Saved(0, u))) == t;
    assert ShapeCommit(t, 4 * u, 0, 2 * u).(saved := Some(Saved(0, 3 * u))) == GivenUp(u);
    ShapeTurn(s, 4 * u, 2 * u, script, 0, 0, 0, 0, u);
    ShapeTurn(t, 4 * u, 2 * u, script, 0, u, 2 * u, 1, 2 * u);
    ShapeEnd(GivenUp(u), 4 * u, 2 * u, script, 0, 3 * u, 4 * u, 2);
  }

  lemma {:induction false} SecondStores(u: nat)
    requires u > 0
    ensures ShapeAttempt(GivenUp(u), 4 * u, 2 * u, Renewed(u)).stored == Some(1)
    ensures AttemptDrift(GivenUp(u), 4 * u, 2 * u, Renewed(u)) == None
  {
    hide ShapeLoop, LoopDrift, ShapeAttempt, AttemptDrift;
    var s, t := Shape(Some(Saved(1, 0)), [3 * u, 0], None), Shape(Some(Saved(1, 2 * u)), [3 * u, 2 * u], None);
    var full, script := Shape(Some(Saved(1, 4 * u)), [3 * u, 4 * u], Some(1)), Renewed(u);
    AttemptStarts(GivenUp(u), 4 * u, 2 * u, script);
    assert Started(GivenUp(u)) == s;
    assert ShapeCommit(s, 4 * u, 1, 2 * u).(saved := Some(Saved(1, 2 * u))) == t;
    assert ShapeCommit(t, 4 * u, 1, 2 * u).(saved := Some(Saved(1, 4 * u))) == full;
    ShapeTurn(s, 4 * u, 2 * u, script, 1, 0, 0, 0, 2 * u);
    ShapeTurn(t, 4 * u, 2 * u, script, 1, 2 * u, 2 * u, 1, 2 * u);
    ShapeEnd(full, 4 * u, 2 * u, script, 1, 4 * u, 4 * u, 2);
  }

  /**
   Drift in a session that is given up does no harm: the attempt that misplaces bytes is that of
   `ShortAcknowledgementCorrupts`, but the next one finds the session expired and begins a new one.
   */
  lemma {:induction false} DriftGivenUp(file: Bytes, u: nat, digest: Digest, scripts: seq<Script>)
    requires u > 0 && |file| == 4 * u && scripts == [ShortScript(u), Renewed(u)]
    ensures Drifts(4 * u, 2 * u, scripts, 2) && StoredBy(4 * u, 2 * u, scripts, 2) == Some(1)
    ensures !DriftsIn(4 * u, 2 * u, scripts, 2, 1)
    ensures Run(EMPTY, file, digest, 2 * u, scripts, 2).remote == Some(Object(file, digest))
  {
    FirstDrifts(u);
    SecondStores(u);
    hide ShapeAttempt, AttemptDrift, ShortScript, Renewed, Run;
    assert ShapeRun(4 * u, 2 * u, scripts, 0) == BLANK && ShapeRun(4 * u, 2 * u, scripts, 1) == GivenUp(u);
    assert DriftsAt(4 * u, 2 * u, scripts, 0);
    RunShaped(file, digest, 2 * u, scripts, 2);
    ObjectExactlyWhen(4 * u, digest, 2 * u, scripts, 2);
    assert ObjectIsFile(file, digest, 2 * u, scripts, 2);
  }

  /** A server that acknowledges whole chunks never lets a PUT drift. */
  lemma {:induction false} WholeChunksNeverDrift(size: nat, chunk: nat, scripts: seq<Script>, n: nat)
    requires n <= |scripts| && forall i :: 0 <= i < |scripts| ==> WholeChunks(scripts[i], chunk)
    ensures !Drifts(size, chunk, scripts, n)
  {
    hide LoopDrift, ShapeRun;
    forall i | 0 <= i < n
      ensures !DriftsAt(size, chunk, scripts, i)
    {
      forall offset: nat | offset <= size
        ensures LoopDrift(size, chunk, scripts[i], offset, offset, 0).None?
      {
        WholeChunksInStep(size, chunk, scripts[i], offset, 0);
      }
    }
  }

  lemma {:induction false} WholeChunksInStep(size: nat, chunk: nat, script: Script, offset: nat, k: nat)
    requires offset <= size && WholeChunks(script, chunk)
    ensures LoopDrift(size, chunk, script, offset, offset, k).None?
    decreases size - offset
  {
    var sent := PayloadSize(size, chunk, offset, offset);
    if offset < size && sent > 0 && script.puts(k).Accepted? && script.puts(k).n > 0 {
      assert script.puts(k).n >= chunk >= sent;
      WholeChunksInStep(size, chunk, script, offset + sent, k + 1);
    }
  }
}
