/**
 Safety of uploads over all runs of attempts, crashes and restarts.

 The final check compares only the size and the digest the client itself supplied, so that the remote content is
 the file has to come from what every step keeps: each session's committed bytes are a prefix of the file.
 */
module UploadProofs {
  import opened Octets
  import opened Outcomes
  import opened Upload

  /** Every session was opened for this file and holds a prefix of it, a full one having become the object; the
      object, if any, is the file. */
  ghost predicate Faithful(w: World, file: Bytes, digest: Digest) {
    && (forall id :: 0 <= id < |w.sessions| ==>
          && w.sessions[id].committed <= file && w.sessions[id].size == |file| && w.sessions[id].digest == digest
          && (w.sessions[id].committed == file && file != [] ==> w.remote.Some?))
    && (w.remote.Some? ==> w.remote.value == Object(file, digest))
  }

  /** The server acknowledges whole chunks whenever the client goes on. */
  ghost predicate WholeChunks(script: Script, chunk: nat) {
    forall k: nat :: script.puts(k).Accepted? ==> script.puts(k).n >= chunk
  }

  lemma {:induction false} PayloadAt(file: Bytes, chunk: nat, offset: nat, handle: nat)
    requires offset <= |file|
    ensures |Payload(file, chunk, offset, handle)| <= chunk
    ensures |Payload(file, chunk, offset, handle)| <= |file| - offset
    ensures handle + |Payload(file, chunk, offset, handle)| <= |file| || Payload(file, chunk, offset, handle) == []
  {
  }

  lemma {:induction false} Splice(file: Bytes, offset: nat, taken: Bytes)
    requires offset + |taken| <= |file|
    ensures file[..offset] + taken <= file <==> taken == file[offset..offset + |taken|]
  {
    var whole := file[..offset] + taken;
    if whole <= file {
      assert whole == file[..|whole|];
      assert whole[offset..] == taken;
    }
    if taken == file[offset..offset + |taken|] {
      assert whole == file[..offset + |taken|];
    }
  }

  /** What a PUT takes extends the prefix if it is what comes next in the file; sent in step, it is. */
  lemma {:induction false} TakenIsNext(file: Bytes, chunk: nat, offset: nat, handle: nat, n: nat)
    requires offset <= |file|
    ensures
      var payload := Payload(file, chunk, offset, handle);
      var taken := payload[..Least(n, |payload|)];
      && offset + |taken| <= |file|
      && (file[..offset] + taken <= file <==> taken == file[offset..offset + |taken|])
      && (handle == offset ==> taken == file[offset..offset + |taken|])
  {
    var payload := Payload(file, chunk, offset, handle);
    PayloadAt(file, chunk, offset, handle);
    Splice(file, offset, payload[..Least(n, |payload|)]);
  }

  /** The server takes bytes at its own position, sent from the same position of the file. */
  lemma {:induction false} CommitKeeps(w: World, file: Bytes, digest: Digest, chunk: nat, id: nat, offset: nat, n: nat)
    requires Faithful(w, file, digest) && id < |w.sessions| && |w.sessions[id].committed| == offset <= |file|
    ensures
      var w' := Commit(w, id, Payload(file, chunk, offset, offset), n);
      Faithful(w', file, digest) && |w'.sessions| == |w.sessions| && |w'.sessions[id].committed| <= |file|
  {
    var payload := Payload(file, chunk, offset, offset);
    var taken := payload[..Least(n, |payload|)];
    TakenIsNext(file, chunk, offset, offset, n);
    assert w.sessions[id].committed == file[..offset];
    var grown := w.sessions[id].committed + taken;
    assert grown <= file;
    assert |grown| == |file| ==> grown == file;
  }

  lemma {:induction false} AskedFaithful(w: World, file: Bytes, digest: Digest, id: nat, query: Query)
    requires Faithful(w, file, digest) && id < |w.sessions|
    ensures Faithful(Asked(w, id, query), file, digest)
  {
    assert w.sessions[id].committed + [][..0] == w.sessions[id].committed;
  }

  lemma {:induction false} CommitNext(w: World, id: nat, payload: Bytes, n: nat)
    requires id < |w.sessions|
    ensures |Commit(w, id, payload, n).sessions| == |w.sessions|
    ensures |Commit(w, id, payload, n).sessions[id].committed| == |w.sessions[id].committed| + Least(n, |payload|)
    ensures w.remote.Some? ==> Commit(w, id, payload, n).remote == w.remote
  {
  }

  lemma {:induction false} SavedFaithful(w: World, file: Bytes, digest: Digest, saved: Option<Saved>)
    requires Faithful(w, file, digest)
    ensures Faithful(w.(saved := saved), file, digest)
  {
  }

  lemma {:induction false} ConcludeSafe(w: World, file: Bytes, digest: Digest, script: Script)
    requires Faithful(w, file, digest)
    ensures
      var (w', o) := Conclude(w, |file|, digest, script);
      && Faithful(w', file, digest)
      && (o.Returned? ==> o == Returned(Object(file, digest), true) && w'.remote == Some(Object(file, digest)))
  {
  }

  lemma {:induction false} ShortOfChunk(script: Script, chunk: nat, k: nat)
    requires script.puts(k).Accepted? && script.puts(k).n < chunk
    ensures !WholeChunks(script, chunk)
  {
  }

  /** Once the handle is ahead of the server, the file runs out before the session is full. */
  lemma {:induction false} AheadNeverReturns(w: World, file: Bytes, digest: Digest, chunk: nat, script: Script, id: nat,
                                             offset: nat, handle: nat, k: nat)
    requires id < |w.sessions| && |w.sessions[id].committed| == offset < handle && offset < |file|
    ensures Loop(w, file, digest, chunk, script, id, offset, handle, k).1 == Raised
    decreases |file| - offset
  {
    var payload := Payload(file, chunk, offset, handle);
    PayloadAt(file, chunk, offset, handle);
    if payload != [] && script.puts(k).Accepted? {
      var w' := Commit(w, id, payload, script.puts(k).n);
      var next := |w'.sessions[id].committed|;
      assert next == offset + Least(script.puts(k).n, |payload|);
      if next > offset {
        AheadNeverReturns(w'.(saved := Some(Saved(id, next))), file, digest, chunk, script, id, next,
                          handle + |payload|, k + 1);
      }
    }
  }

  /**
   An attempt's chunk loop that starts where the server stands, in a faithful world: if it returns, the remote
   object is the file, however the server acknowledged; and if the server acknowledges whole chunks, the world
   stays faithful even when it does not return.
   */
  lemma {:induction false} LoopSafe(w: World, file: Bytes, digest: Digest, chunk: nat, script: Script, id: nat,
                                    offset: nat, k: nat)
    requires Faithful(w, file, digest) && id < |w.sessions| && |w.sessions[id].committed| == offset <= |file|
    ensures
      var (w', o) := Loop(w, file, digest, chunk, script, id, offset, offset, k);
      && (o.Returned? ==> o == Returned(Object(file, digest), true) && w'.remote == Some(Object(file, digest))
                          && Faithful(w', file, digest))
      && (WholeChunks(script, chunk) ==> Faithful(w', file, digest))
    decreases |file| - offset
  {
    hide Commit, Payload, Conclude, Faithful, WholeChunks;
    if offset == |file| {
      ConcludeSafe(w, file, digest, script);
    } else {
      var payload := Payload(file, chunk, offset, offset);
      PayloadAt(file, chunk, offset, offset);
      if payload != [] && !script.puts(k).Rejected? {
        var n := script.puts(k).n;
        CommitNext(w, id, payload, n);
        CommitKeeps(w, file, digest, chunk, id, offset, n);
        var w' := Commit(w, id, payload, n);
        var next := |w'.sessions[id].committed|;
        if script.puts(k).Accepted? && next > offset {
          var saved := w'.(saved := Some(Saved(id, next)));
          SavedFaithful(w', file, digest, saved.saved);
          if n >= |payload| {
            LoopSafe(saved, file, digest, chunk, script, id, next, k + 1);
          } else {
            AheadNeverReturns(saved, file, digest, chunk, script, id, next, offset + |payload|, k + 1);
            assert !WholeChunks(script, chunk) by {
              ShortOfChunk(script, chunk, k);
            }
          }
        }
      }
    }
  }

  lemma {:induction false} ResumeSafe(w: World, file: Bytes, digest: Digest, chunk: nat, script: Script, id: nat)
    requires Faithful(w, file, digest) && id < |w.sessions|
    ensures
      var (w', o) := Resume(w, file, digest, chunk, script, id);
      && (o.Returned? ==> o == Returned(Object(file, digest), true) && w'.remote == Some(Object(file, digest))
                          && Faithful(w', file, digest))
      && (WholeChunks(script, chunk) ==> Faithful(w', file, digest))
  {
    hide Loop;
    if |w.sessions[id].committed| < |file| {
      LoopSafe(w, file, digest, chunk, script, id, |w.sessions[id].committed|, 0);
    }
  }

  /** One attempt in a faithful world. */
  lemma {:induction false} AttemptSafe(w: World, file: Bytes, digest: Digest, chunk: nat, script: Script)
    requires Faithful(w, file, digest)
    ensures
      var (w', o) := Attempt(w, file, digest, chunk, script);
      && (o.Returned? ==> o.remote == Object(file, digest) && w'.remote == Some(Object(file, digest)))
      && (WholeChunks(script, chunk) ==> Faithful(w', file, digest))
  {
    hide Resume;
    if w.remote == None {
      if Known(w) {
        var id := w.saved.value.session;
        AskedFaithful(w, file, digest, id, script.query);
        ResumeSafe(Asked(w, id, script.query), file, digest, chunk, script, id);
      }
      var started := World(Some(Saved(|w.sessions|, 0)), w.sessions + [Session(|file|, digest, [])], w.remote);
      ResumeSafe(started, file, digest, chunk, script, |w.sessions|);
    }
  }

  /**
   Safety over all crash and restart runs: if the server acknowledges whole chunks, then after any number of
   attempts every session holds a prefix of the file, and whichever attempt returns, the object is the file.
   */
  lemma {:induction false} RunSafe(file: Bytes, digest: Digest, chunk: nat, scripts: seq<Script>, n: nat)
    requires n <= |scripts| && forall i :: 0 <= i < |scripts| ==> WholeChunks(scripts[i], chunk)
    ensures Faithful(Run(EMPTY, file, digest, chunk, scripts, n), file, digest)
    ensures n < |scripts| ==>
      var (w, o) := Attempt(Run(EMPTY, file, digest, chunk, scripts, n), file, digest, chunk, scripts[n]);
      o.Returned? ==> o.remote == Object(file, digest) && w.remote == Some(Object(file, digest))
  {
    hide Attempt;
    if n > 0 {
      RunSafe(file, digest, chunk, scripts, n - 1);
      AttemptSafe(Run(EMPTY, file, digest, chunk, scripts, n - 1), file, digest, chunk, scripts[n - 1]);
    }
    if n < |scripts| {
      AttemptSafe(Run(EMPTY, file, digest, chunk, scripts, n), file, digest, chunk, scripts[n]);
    }
  }

  /** Nothing is lost, nothing crashes, and the server takes every chunk whole. */
  ghost predicate Faultless(script: Script, chunk: nat) {
    && !script.describeLost && !script.query.QueryLost? && !script.crashBeforeSave && !script.crashBeforeReturn
    && forall k: nat :: script.puts(k).Accepted? && script.puts(k).n >= chunk
  }

  lemma {:induction false} FaultlessLoop(w: World, file: Bytes, digest: Digest, chunk: nat, script: Script, id: nat,
                                         offset: nat, k: nat)
    requires Faithful(w, file, digest) && id < |w.sessions| && |w.sessions[id].committed| == offset <= |file|
    requires file != [] && chunk > 0 && Faultless(script, chunk)
    ensures Loop(w, file, digest, chunk, script, id, offset, offset, k).1.Returned?
    decreases |file| - offset
  {
    if offset < |file| {
      var payload, n := Payload(file, chunk, offset, offset), script.puts(k).n;
      PayloadAt(file, chunk, offset, offset);
      assert |payload| > 0;
      hide Commit, Payload, Conclude, Faithful;
      CommitNext(w, id, payload, n);
      CommitKeeps(w, file, digest, chunk, id, offset, n);
      var w' := Commit(w, id, payload, n);
      var next := |w'.sessions[id].committed|;
      SavedFaithful(w', file, digest, Some(Saved(id, next)));
      FaultlessLoop(w'.(saved := Some(Saved(id, next))), file, digest, chunk, script, id, next, k + 1);
    }
  }

  /**
   After any safe run, a faultless attempt returns exactly when the file is not empty or already there, or its position
   query completes the empty session.
   */
  lemma {:induction false} FaultlessReturnsExactlyWhen(w: World, file: Bytes, digest: Digest, chunk: nat,
                                                       script: Script)
    requires Faithful(w, file, digest) && chunk > 0 && Faultless(script, chunk)
    ensures Attempt(w, file, digest, chunk, script).1.Returned?
       <==> file != [] || w.remote.Some? || (Known(w) && script.query == Alive(true))
  {
    if w.remote == None && file != [] {
      var known := Known(w);
      var reopened := World(Some(Saved(|w.sessions|, 0)), w.sessions + [Session(|file|, digest, [])], w.remote);
      var current :=
        if known && script.query.Alive? then Asked(w, w.saved.value.session, script.query) else reopened;
      var id := if known && script.query.Alive? then w.saved.value.session else |w.sessions|;
      var offset := |current.sessions[id].committed|;
      assert offset < |file| by {
        assert current.sessions[id].committed == file[..offset] && file[..|file|] == file;
      }
      FaultlessLoop(current, file, digest, chunk, script, id, offset, 0);
      hide Loop;
    }
  }

  /** Only the server's offset counts: whatever offset the state file holds, the attempt goes the same way. */
  lemma {:induction false} StoredOffsetIgnored(w: World, file: Bytes, digest: Digest, chunk: nat, script: Script,
                                               session: nat, a: nat, b: nat)
    ensures
      var x := Attempt(w.(saved := Some(Saved(session, a))), file, digest, chunk, script);
      var y := Attempt(w.(saved := Some(Saved(session, b))), file, digest, chunk, script);
      x.1 == y.1 && x.0.sessions == y.0.sessions && x.0.remote == y.0.remote
  {
    var wa, wb := w.(saved := Some(Saved(session, a))), w.(saved := Some(Saved(session, b)));
    if w.remote == None && session < |w.sessions| {
      var xa, xb := Asked(wa, session, script.query), Asked(wb, session, script.query);
      SavedIrrelevant(xa, xb, file, digest, chunk, script, session, |xa.sessions[session].committed|,
                      |xa.sessions[session].committed|, 0);
    }
  }

  lemma {:induction false} SavedIrrelevant(wa: World, wb: World, file: Bytes, digest: Digest, chunk: nat,
                                           script: Script, id: nat, offset: nat, handle: nat, k: nat)
    requires wa.sessions == wb.sessions && wa.remote == wb.remote && id < |wa.sessions|
    ensures offset <= |file| ==>
      var x := Loop(wa, file, digest, chunk, script, id, offset, handle, k);
      var y := Loop(wb, file, digest, chunk, script, id, offset, handle, k);
      x.1 == y.1 && x.0.sessions == y.0.sessions && x.0.remote == y.0.remote
  {
    if offset < |file| && Payload(file, chunk, offset, handle) != [] && script.puts(k).Accepted? {
      var payload, n := Payload(file, chunk, offset, handle), script.puts(k).n;
      var wa', wb' := Commit(wa, id, payload, n), Commit(wb, id, payload, n);
      assert wa'.sessions == wb'.sessions && wa'.remote == wb'.remote;
    }
  }

  // ----- The empty file -----

  /** An attempt that leaves a session in the state file, one that was there before or its own. */
  predicate Opens(script: Script) {
    !script.describeLost && !script.crashBeforeSave
  }

  /** An attempt whose position query, if it sends one, completes the empty session. */
  predicate Finishes(script: Script) {
    !script.describeLost && !script.query.Expired? && script.query.finishes
  }

  /** One of the first `n` attempts. */
  predicate Opened(scripts: seq<Script>, n: nat)
    requires n <= |scripts|
  {
    exists i :: 0 <= i < n && Opens(scripts[i])
  }

  predicate Finished(scripts: seq<Script>, n: nat)
    requires n <= |scripts|
  {
    exists j :: 0 <= j < n && Finishes(scripts[j]) && Opened(scripts, j)
  }

  /** What the runs on an empty file keep: every session is empty, and one is saved as soon as an attempt opened one. */
  ghost predicate EmptyRun(w: World, begun: bool, finished: bool) {
    && (forall id :: 0 <= id < |w.sessions| ==> w.sessions[id].committed == [] && w.sessions[id].size == 0)
    && (w.remote.Some? <==> finished) && (w.remote == None ==> (Known(w) <==> begun))
    && (w.remote == None && w.saved.Some? ==> Known(w))
  }

  lemma {:induction false} EmptyAttempt(w: World, digest: Digest, chunk: nat, script: Script, begun: bool,
                                        finished: bool)
    requires EmptyRun(w, begun, finished)
    ensures var (w', o) := Attempt(w, [], digest, chunk, script);
            && EmptyRun(w', begun || Opens(script), finished || (Finishes(script) && begun))
            && (o.Returned? ==> w'.remote.Some?)
  {
    if w.remote == None && Known(w) {
      assert w.sessions[w.saved.value.session].committed + [][..0] == [];
    }
  }

  /**
   An empty file is uploaded exactly when an attempt's position query completes the session that an earlier attempt
   opened; until then every attempt fails.  The client itself never completes an empty session.
   */
  lemma {:induction false} EmptyFileUploadsExactlyWhen(digest: Digest, chunk: nat, scripts: seq<Script>, n: nat)
    requires n <= |scripts|
    ensures Run(EMPTY, [], digest, chunk, scripts, n).remote.Some? <==> Finished(scripts, n)
    ensures n < |scripts| && !Finished(scripts, n + 1) ==>
      Attempt(Run(EMPTY, [], digest, chunk, scripts, n), [], digest, chunk, scripts[n]).1 == Raised
    ensures EmptyRun(Run(EMPTY, [], digest, chunk, scripts, n), Opened(scripts, n), Finished(scripts, n))
  {
    hide Attempt, EmptyRun;
    if n == 0 {
      EmptyStart();
    } else {
      EmptyFileUploadsExactlyWhen(digest, chunk, scripts, n - 1);
      OneMore(scripts, n - 1);
      EmptyAttempt(Run(EMPTY, [], digest, chunk, scripts, n - 1), digest, chunk, scripts[n - 1],
                   Opened(scripts, n - 1), Finished(scripts, n - 1));
    }
    EmptyRemote(Run(EMPTY, [], digest, chunk, scripts, n), Opened(scripts, n), Finished(scripts, n));
    if n < |scripts| {
      var w := Run(EMPTY, [], digest, chunk, scripts, n);
      OneMore(scripts, n);
      EmptyAttempt(w, digest, chunk, scripts[n], Opened(scripts, n), Finished(scripts, n));
      EmptyRemote(Attempt(w, [], digest, chunk, scripts[n]).0, Opened(scripts, n + 1), Finished(scripts, n + 1));
    }
  }

  lemma {:induction false} EmptyStart()
    ensures EmptyRun(EMPTY, false, false)
  {
  }

  lemma {:induction false} EmptyRemote(w: World, begun: bool, finished: bool)
    requires EmptyRun(w, begun, finished)
    ensures w.remote.Some? <==> finished
  {
  }

  lemma {:induction false} OneMore(scripts: seq<Script>, n: nat)
    requires n < |scripts|
    ensures Opened(scripts, n + 1) <==> Opened(scripts, n) || Opens(scripts[n])
    ensures Finished(scripts, n + 1) <==> Finished(scripts, n) || (Finishes(scripts[n]) && Opened(scripts, n))
  {
  }

  // ----- What an attempt returns -----

  /** From any world: what an attempt returns is the object there is, of the file's size and claimed digest. */
  lemma {:induction false} ReturnedIsStored(w: World, file: Bytes, digest: Digest, chunk: nat, script: Script)
    ensures var (w', o) := Attempt(w, file, digest, chunk, script);
            o.Returned? ==> w'.remote == Some(o.remote) && |o.remote.content| == |file| && o.remote.digest == digest
  {
    hide Loop;
    if w.remote == None {
      var id := |w.sessions|;
      var started := w.(sessions := w.sessions + [Session(|file|, digest, [])], saved := Some(Saved(id, 0)));
      LoopReturnsStored(started, file, digest, chunk, script, id, 0, 0, 0);
      if Known(w) {
        var known := w.saved.value.session;
        var asked := Asked(w, known, script.query);
        var offset := |asked.sessions[known].committed|;
        if offset <= |file| {
          LoopReturnsStored(asked, file, digest, chunk, script, known, offset, offset, 0);
        }
      }
    }
  }

  lemma {:induction false} LoopReturnsStored(w: World, file: Bytes, digest: Digest, chunk: nat, script: Script, id: nat,
                                             offset: nat, handle: nat, k: nat)
    requires id < |w.sessions| && offset <= |file|
    ensures var (w', o) := Loop(w, file, digest, chunk, script, id, offset, handle, k);
            o.Returned? ==> w'.remote == Some(o.remote) && |o.remote.content| == |file| && o.remote.digest == digest
    decreases |file| - offset
  {
    hide Payload;
    var payload := Payload(file, chunk, offset, handle);
    if offset < |file| && payload != [] && script.puts(k).Accepted? {
      var w' := Commit(w, id, payload, script.puts(k).n);
      var next := |w'.sessions[id].committed|;
      if offset < next <= |file| {
        LoopReturnsStored(w'.(saved := Some(Saved(id, next))), file, digest, chunk, script, id, next,
                          handle + |payload|, k + 1);
      }
    }
  }

  /** With collision-free digests, an object whose claim is true is returned only if it is the file. */
  lemma {:induction false} TrueClaimIsFile(sha: Bytes -> Digest, w: World, file: Bytes, chunk: nat, script: Script)
    requires forall a: Bytes, b: Bytes :: sha(a) == sha(b) ==> a == b
    ensures var o := Attempt(w, file, sha(file), chunk, script).1;
            o.Returned? ==> (o.remote.digest == sha(o.remote.content) <==> o.remote.content == file)
  {
    ReturnedIsStored(w, file, sha(file), chunk, script);
    hide Attempt;
  }

  /**
   An object that is there already is never replaced, and decides every attempt of every run: each one that learns of
   it returns it if size and digest are the file's, and raises if either is not.
   */
  lemma {:induction false} PresentObjectDecides(w: World, file: Bytes, digest: Digest, chunk: nat,
                                                scripts: seq<Script>, n: nat)
    requires n <= |scripts| && w.remote.Some?
    ensures Run(w, file, digest, chunk, scripts, n) == w
    ensures
      var there := w.remote.value;
      n < |scripts| ==>
        Attempt(Run(w, file, digest, chunk, scripts, n), file, digest, chunk, scripts[n]).1
        == if !scripts[n].describeLost && |there.content| == |file| && there.digest == digest
           then Returned(there, false) else Raised
  {
    if n > 0 {
      PresentObjectDecides(w, file, digest, chunk, scripts, n - 1);
    }
    hide Resume, Start;
  }

  // ----- What happens when the server does acknowledge less than a chunk -----

  /** A first attempt is acknowledged only `u` of its first `2u` bytes, goes on, and fails for lack of input. */
  function ShortScript(u: nat): Script {
    Script(false, Alive(false), false, k => if k == 0 then Accepted(u) else Accepted(2 * u), false)
  }

  function FullScript(u: nat): Script {
    Script(false, Alive(false), false, k => Accepted(2 * u), false)
  }

  /**
   Two attempts suffice to store something else than the file, and to return it as verified: the first, told
   that half its first chunk was taken, sends the next bytes of its handle all the same; the second completes
   the session from the server's position.
   */
  lemma {:induction false} ShortAcknowledgementCorrupts(file: Bytes, u: nat, digest: Digest)
    requires u > 0 && |file| == 4 * u
    ensures
      var (w1, o1) := Attempt(EMPTY, file, digest, 2 * u, ShortScript(u));
      var (w2, o2) := Attempt(w1, file, digest, 2 * u, FullScript(u));
      var content := file[..u] + file[2 * u..] + file[3 * u..];
      && o1 == Raised && w1.remote == None
      && o2 == Returned(Object(content, digest), true) && w2.remote == Some(Object(content, digest))
      && (content == file <==> file[u..3 * u] == file[2 * u..])
  {
    FirstAttempt(file, u, digest);
    SecondAttempt(file, u, digest);
    var content := file[..u] + file[2 * u..] + file[3 * u..];
    assert file == file[..u] + file[u..3 * u] + file[3 * u..];
    if content == file {
      assert file[u..3 * u] == content[u..3 * u] == file[2 * u..];
    }
  }

  const NONE: Option<Object> := None

  lemma {:induction false} FirstAttempt(file: Bytes, u: nat, digest: Digest)
    requires u > 0 && |file| == 4 * u
    ensures Attempt(EMPTY, file, digest, 2 * u, ShortScript(u))
         == (World(Some(Saved(0, 3 * u)), [Session(4 * u, digest, file[..u] + file[2 * u..])], NONE), Raised)
  {
    var s, c := ShortScript(u), 2 * u;
    var w0 := World(Some(Saved(0, 0)), [Session(4 * u, digest, [])], NONE);
    var w1 := World(Some(Saved(0, u)), [Session(4 * u, digest, file[..u])], NONE);
    var w2 := World(Some(Saved(0, 3 * u)), [Session(4 * u, digest, file[..u] + file[2 * u..])], NONE);
    assert EMPTY.sessions + [Session(4 * u, digest, [])] == w0.sessions;
    assert Attempt(EMPTY, file, digest, c, s) == Loop(w0, file, digest, c, s, 0, 0, 0, 0);
    assert Payload(file, c, 0, 0) == file[..2 * u];
    assert file[..2 * u][..u] == file[..u] && [] + file[..u] == file[..u];
    assert w0.sessions[0 := w1.sessions[0]] == w1.sessions;
    assert Loop(w0, file, digest, c, s, 0, 0, 0, 0) == Loop(w1, file, digest, c, s, 0, u, 2 * u, 1);
    assert Payload(file, c, u, 2 * u) == file[2 * u..];
    assert file[2 * u..][..2 * u] == file[2 * u..];
    assert w1.sessions[0 := w2.sessions[0]] == w2.sessions;
    assert Loop(w1, file, digest, c, s, 0, u, 2 * u, 1) == Loop(w2, file, digest, c, s, 0, 3 * u, 4 * u, 2);
    assert Payload(file, c, 3 * u, 4 * u) == [];
  }

  lemma {:induction false} SecondAttempt(file: Bytes, u: nat, digest: Digest)
    requires u > 0 && |file| == 4 * u
    ensures
      var w := World(Some(Saved(0, 3 * u)), [Session(4 * u, digest, file[..u] + file[2 * u..])], NONE);
      var content := file[..u] + file[2 * u..] + file[3 * u..];
      var (w', o) := Attempt(w, file, digest, 2 * u, FullScript(u));
      o == Returned(Object(content, digest), true) && w'.remote == Some(Object(content, digest))
  {
    var s, c := FullScript(u), 2 * u;
    var w := World(Some(Saved(0, 3 * u)), [Session(4 * u, digest, file[..u] + file[2 * u..])], NONE);
    var content := file[..u] + file[2 * u..] + file[3 * u..];
    var w' := World(Some(Saved(0, 4 * u)), [Session(4 * u, digest, content)], Some(Object(content, digest)));
    assert Payload(file, c, 3 * u, 3 * u) == file[3 * u..];
    assert file[3 * u..][..u] == file[3 * u..];
    assert Attempt(w, file, digest, c, s) == Loop(w, file, digest, c, s, 0, 3 * u, 3 * u, 0);
    assert w.sessions[0 := w'.sessions[0]] == w'.sessions;
    assert Loop(w, file, digest, c, s, 0, 3 * u, 3 * u, 0) == Loop(w', file, digest, c, s, 0, 4 * u, 4 * u, 1);
  }
}
