/**
 Resumable uploads: client, disk and server as one world, in which attempts are made until one returns.

 Everything that may go wrong in an attempt (lost answers, partial acceptance, expired sessions, a crash
 between any two steps) is chosen by its `Script`; `Attempt` is what then happens.
 */
module Upload {
  import opened Octets
  import opened Outcomes

  /** A server-side resumable session: what it was opened for and the bytes committed so far. */
  datatype Session = Session(size: nat, digest: Digest, committed: Bytes)

  /** A remote object: its content, and the digest its uploader claimed for it. */
  datatype Object = Object(content: Bytes, digest: Digest)

  /** The client's state file. */
  datatype Saved = Saved(session: nat, offset: nat)

  datatype World = World(saved: Option<Saved>, sessions: seq<Session>, remote: Option<Object>)

  const EMPTY := World(None, [], None)

  /**
   The server's answer to a position query; `QueryLost` stands for an error or a crash.  A query may also complete a
   session that has all its bytes already, which only one that was opened for no bytes at all can be waiting for.
   */
  datatype Query = Alive(finishes: bool) | Expired | QueryLost(finishes: bool)

  /**
   What a PUT does: the server takes the first `n` bytes and says so; it takes them but the client never learns
   of it; or it refuses.
   */
  datatype Put = Accepted(n: nat) | LostAfter(n: nat) | Rejected

  datatype Script = Script(
    describeLost: bool, query: Query, crashBeforeSave: bool, puts: nat -> Put, crashBeforeReturn: bool)

  datatype Outcome = Returned(remote: Object, ranSession: bool) | Raised

  /** The metadata check: size and claimed digest, not content. */
  predicate Verified(o: Object, size: nat, digest: Digest) {
    |o.content| == size && o.digest == digest
  }

  /** The server commits the first `n` bytes of the payload; a session that is full becomes the object. */
  function Commit(w: World, id: nat, payload: Bytes, n: nat): World
    requires id < |w.sessions|
  {
    var s := w.sessions[id];
    var s' := s.(committed := s.committed + payload[..Least(n, |payload|)]);
    w.(sessions := w.sessions[id := s'],
       remote := if |s'.committed| == s.size && w.remote == None then Some(Object(s'.committed, s.digest))
                 else w.remote)
  }

  /** The state file names a session of the server. */
  predicate Known(w: World) {
    w.saved.Some? && w.saved.value.session < |w.sessions|
  }

  /** The world after a position query. */
  function Asked(w: World, id: nat, query: Query): (asked: World)
    requires id < |w.sessions|
    ensures |asked.sessions| == |w.sessions|
  {
    if !query.Expired? && query.finishes then Commit(w, id, [], 0) else w
  }

  /** The final check and the removal of the state file. */
  function Conclude(w: World, size: nat, digest: Digest, script: Script): (World, Outcome) {
    if w.remote == None || !Verified(w.remote.value, size, digest) || script.crashBeforeReturn then (w, Raised)
    else (w.(saved := None), Returned(w.remote.value, true))
  }

  /** The bytes the client reads next: its file handle stands at `handle`, the server at `offset`. */
  function Payload(file: Bytes, chunk: nat, offset: nat, handle: nat): Bytes
    requires offset <= |file|
  {
    file[Least(handle, |file|)..Least(handle + Least(chunk, |file| - offset), |file|)]
  }

  /** The chunk loop; `k` counts the PUTs. */
  function Loop(w: World, file: Bytes, digest: Digest, chunk: nat, script: Script, id: nat, offset: nat, handle: nat,
                k: nat): (World, Outcome)
    requires id < |w.sessions| && offset <= |file|
    decreases |file| - offset
  {
    if offset == |file| then Conclude(w, |file|, digest, script)
    else
      var payload := Payload(file, chunk, offset, handle);
      if payload == [] then (w, Raised)
      else match script.puts(k)
        case Rejected => (w, Raised)
        case LostAfter(n) => (Commit(w, id, payload, n), Raised)
        case Accepted(n) =>
          var w' := Commit(w, id, payload, n);
          var next := |w'.sessions[id].committed|;
          if next <= offset || next > |file| then (w', Raised)
          else
            Loop(w'.(saved := Some(Saved(id, next))), file, digest, chunk, script, id, next, handle + |payload|, k + 1)
  }

  /** From a known session position on. */
  function Resume(w: World, file: Bytes, digest: Digest, chunk: nat, script: Script, id: nat): (World, Outcome)
    requires id < |w.sessions|
  {
    var offset := |w.sessions[id].committed|;
    if offset > |file| then (w, Raised)
    else if offset == |file| then Conclude(w, |file|, digest, script)
    else Loop(w, file, digest, chunk, script, id, offset, offset, 0)
  }

  function Start(w: World, file: Bytes, digest: Digest, chunk: nat, script: Script): (World, Outcome) {
    var id := |w.sessions|;
    var started := w.(sessions := w.sessions + [Session(|file|, digest, [])]);
    if script.crashBeforeSave then (started, Raised)
    else Resume(started.(saved := Some(Saved(id, 0))), file, digest, chunk, script, id)
  }

  /** One call of `upload`, from a fresh client: only the state file and the server remember earlier ones. */
  function Attempt(w: World, file: Bytes, digest: Digest, chunk: nat, script: Script): (World, Outcome) {
    if script.describeLost then (w, Raised)
    else if w.remote.Some? then
      (w, if Verified(w.remote.value, |file|, digest) then Returned(w.remote.value, false) else Raised)
    else if Known(w) && !script.query.Expired? then
      var asked := Asked(w, w.saved.value.session, script.query);
      if script.query.QueryLost? then (asked, Raised)
      else Resume(asked, file, digest, chunk, script, w.saved.value.session)
    else Start(w, file, digest, chunk, script)
  }

  /** The first `n` attempts, each met by its script. */
  function Run(w: World, file: Bytes, digest: Digest, chunk: nat, scripts: seq<Script>, n: nat): World
    requires n <= |scripts|
  {
    if n == 0 then w else Attempt(Run(w, file, digest, chunk, scripts, n - 1), file, digest, chunk, scripts[n - 1]).0
  }

  lemma {:induction false} LoopTurn(w: World, file: Bytes, digest: Digest, chunk: nat, script: Script, id: nat,
                                    offset: nat, handle: nat, k: nat)
    requires id < |w.sessions| && offset < |file|
    ensures
      var payload := Payload(file, chunk, offset, handle);
      var now := Loop(w, file, digest, chunk, script, id, offset, handle, k);
      if payload == [] || script.puts(k).Rejected? then now == (w, Raised)
      else
        var w' := Commit(w, id, payload, script.puts(k).n);
        && |w'.sessions| == |w.sessions|
        && var next := |w'.sessions[id].committed|;
           now == if script.puts(k).LostAfter? || next <= offset || next > |file| then (w', Raised)
                  else Loop(w'.(saved := Some(Saved(id, next))), file, digest, chunk, script, id, next,
                            handle + |payload|, k + 1)
  {
    hide Payload;
  }

  lemma {:induction false} LoopEnd(w: World, file: Bytes, digest: Digest, chunk: nat, script: Script, id: nat,
                                   handle: nat, k: nat)
    requires id < |w.sessions|
    ensures Loop(w, file, digest, chunk, script, id, |file|, handle, k) == Conclude(w, |file|, digest, script)
  {
  }

  // ----- The client -----

  class Uploader {
    var saved: Option<Saved>
    var sessions: seq<Session>
    var remote: Option<Object>

    function Now(): World
      reads this
    {
      World(saved, sessions, remote)
    }

    constructor (w: World)
      ensures Now() == w
    {
      saved, sessions, remote := w.saved, w.sessions, w.remote;
    }

    /** Server side: a session takes bytes. */
    method ServerCommit(id: nat, payload: Bytes, n: nat)
      requires id < |sessions|
      modifies this
      ensures Now() == Commit(old(Now()), id, payload, n)
    {
      var s := sessions[id];
      var grown := s.(committed := s.committed + payload[..Least(n, |payload|)]);
      sessions := sessions[id := grown];
      if |grown.committed| == s.size && remote == None {
        remote := Some(Object(grown.committed, s.digest));
      }
    }

    method VerifyAndForget(size: nat, digest: Digest, script: Script) returns (o: Outcome)
      modifies this
      ensures (Now(), o) == Conclude(old(Now()), size, digest, script)
    {
      if remote == None || !Verified(remote.value, size, digest) || script.crashBeforeReturn {
        return Raised;
      }
      saved := None;
      o := Returned(remote.value, true);
    }

    /** One turn of the chunk loop: how the attempt ends, or where the next turn begins. */
    method PutNext(file: Bytes, digest: Digest, chunk: nat, script: Script, id: nat, offset: nat, handle: nat, k: nat)
      returns (end: Option<Outcome>, next: nat, sent: nat)
      requires id < |sessions| && offset < |file|
      modifies this
      ensures end.Some? ==>
                (Now(), end.value) == Loop(old(Now()), file, digest, chunk, script, id, offset, handle, k)
      ensures end.None? ==>
                && id < |sessions| && offset < next <= |file|
                && Loop(old(Now()), file, digest, chunk, script, id, offset, handle, k)
                   == Loop(Now(), file, digest, chunk, script, id, next, handle + sent, k + 1)
    {
      hide Commit, Conclude, Payload, Loop;
      LoopTurn(Now(), file, digest, chunk, script, id, offset, handle, k);
      var payload := Payload(file, chunk, offset, handle);
      sent, next := |payload|, offset;
      if payload == [] || script.puts(k).Rejected? {
        return Some(Raised), next, sent;
      }
      CommitKeepsCount(Now(), id, payload, script.puts(k).n);
      ServerCommit(id, payload, script.puts(k).n);
      next := |sessions[id].committed|;
      if script.puts(k).LostAfter? || next <= offset || next > |file| {
        return Some(Raised), next, sent;
      }
      saved := Some(Saved(id, next));
      end := None;
    }

    method PutAll(file: Bytes, digest: Digest, chunk: nat, script: Script, id: nat, start: nat) returns (o: Outcome)
      requires id < |sessions| && start <= |file|
      modifies this
      ensures (Now(), o) == Loop(old(Now()), file, digest, chunk, script, id, start, start, 0)
    {
      var offset: nat, handle: nat, k: nat := start, start, 0;
      hide Commit, Conclude, Payload, Loop;
      while offset < |file|
        invariant id < |sessions| && offset <= |file|
        invariant Loop(old(Now()), file, digest, chunk, script, id, start, start, 0)
               == Loop(Now(), file, digest, chunk, script, id, offset, handle, k)
        decreases |file| - offset
      {
        var end, next, sent := PutNext(file, digest, chunk, script, id, offset, handle, k);
        if end.Some? {
          return end.value;
        }
        offset, handle, k := next, handle + sent, k + 1;
      }
      LoopEnd(Now(), file, digest, chunk, script, id, handle, k);
      o := VerifyAndForget(|file|, digest, script);
    }

    method UploadFile(file: Bytes, digest: Digest, chunk: nat, script: Script) returns (o: Outcome)
      modifies this
      ensures (Now(), o) == Attempt(old(Now()), file, digest, chunk, script)
    {
      if script.describeLost {
        return Raised;
      }
      if remote.Some? {
        return if Verified(remote.value, |file|, digest) then Returned(remote.value, false) else Raised;
      }
      hide Loop, Conclude, Commit;
      var id: nat;
      var known := saved.Some? && saved.value.session < |sessions|;
      if known && !script.query.Expired? {
        id := saved.value.session;
        if script.query.finishes {
          CommitKeepsCount(Now(), id, [], 0);
          ServerCommit(id, [], 0);
        }
        if script.query.QueryLost? {
          return Raised;
        }
      } else {
        id := |sessions|;
        sessions := sessions + [Session(|file|, digest, [])];
        if script.crashBeforeSave {
          return Raised;
        }
        saved := Some(Saved(id, 0));
      }
      var offset := |sessions[id].committed|;
      if offset > |file| {
        return Raised;
      }
      if offset == |file| {
        o := VerifyAndForget(|file|, digest, script);
      } else {
        o := PutAll(file, digest, chunk, script, id, offset);
      }
    }
  }

  lemma {:induction false} CommitKeepsCount(w: World, id: nat, payload: Bytes, n: nat)
    requires id < |w.sessions|
    ensures |Commit(w, id, payload, n).sessions| == |w.sessions|
  {
  }
}
