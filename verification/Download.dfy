/**
 Resumable downloads: a partial file that survives crashes, renamed to its target once size and digest match.

 Two clients share the protocol: the storage downloader (instrumentation/gcs.py) and the checkpoint downloader
 (scripts/download_checkpoint.py).  `Reply` is everything the server and the crashes decide about one attempt.
 */
module Download {
  import opened Octets
  import opened Outcomes

  /** The two files on disk. */
  datatype Disk = Disk(partial: Option<Bytes>, target: Option<Bytes>)

  const BLANK := Disk(None, None)

  /** The file wanted: its pinned size and digest. */
  datatype Pin = Pin(size: nat, digest: Digest)

  /** How a body ends: as it should, with an error the retry loop catches, or with one it does not. */
  datatype Ending = Smooth | Lost | Aborted

  /**
   One request: it may fail to open; it is answered from the start asked for (`ranged`) or from 0; `body` is
   what arrives; the connection or the client may break after it, before or after the files are settled.
   */
  datatype Reply = Reply(opens: bool, ranged: bool, body: Bytes, ending: Ending, crashBeforeRename: bool)

  datatype Error =
    | TargetDiffers | PartialTooLarge | RequestFailed | Broken | Uncaught | MissingPartial | SizeMismatch
    | DigestMismatch

  datatype Outcome = Done | Failed(error: Error)

  function Length(partial: Option<Bytes>): nat {
    if partial.Some? then |partial.value| else 0
  }

  function Content(partial: Option<Bytes>): Bytes {
    if partial.Some? then partial.value else []
  }

  predicate Matches(sha: Bytes -> Digest, pin: Pin, content: Bytes) {
    |content| == pin.size && sha(content) == pin.digest
  }

  /** Size and digest of the partial file, then the rename. */
  function Settle(sha: Bytes -> Digest, disk: Disk, pin: Pin, crash: bool): (Disk, Outcome) {
    if disk.partial == None then (disk, Failed(MissingPartial))
    else if |disk.partial.value| != pin.size then (disk, Failed(SizeMismatch))
    else if sha(disk.partial.value) != pin.digest then (disk, Failed(DigestMismatch))
    else if crash then (disk, Failed(Broken))
    else (Disk(None, disk.partial), Done)
  }

  /** The partial file after the reply's body was appended, or written from scratch if the range was ignored. */
  function Received(partial: Option<Bytes>, reply: Reply): Bytes {
    (if reply.ranged && Length(partial) > 0 then Content(partial) else []) + reply.body
  }

  function Breach(reply: Reply): Error {
    if reply.ending.Aborted? then Uncaught else Broken
  }

  /** One attempt, from a fresh client. */
  function Attempt(sha: Bytes -> Digest, disk: Disk, pin: Pin, reply: Reply): (Disk, Outcome) {
    if disk.target.Some? then
      (disk, if Matches(sha, pin, disk.target.value) then Done else Failed(TargetDiffers))
    else if Length(disk.partial) > pin.size then (disk, Failed(PartialTooLarge))
    else if Length(disk.partial) == pin.size then Settle(sha, disk, pin, reply.crashBeforeRename)
    else if !reply.opens then (disk, Failed(RequestFailed))
    else
      var disk' := disk.(partial := Some(Received(disk.partial, reply)));
      if !reply.ending.Smooth? then (disk', Failed(Breach(reply)))
      else Settle(sha, disk', pin, reply.crashBeforeRename)
  }

  /** The disk after `n` attempts, each met by its reply. */
  function Run(sha: Bytes -> Digest, disk: Disk, pin: Pin, replies: nat -> Reply, n: nat): Disk {
    if n == 0 then disk else Attempt(sha, Run(sha, disk, pin, replies, n - 1), pin, replies(n - 1)).0
  }

  /** How the attempt after the first `n` turns out. */
  function OutcomeOf(sha: Bytes -> Digest, disk: Disk, pin: Pin, replies: nat -> Reply, n: nat): Outcome {
    Attempt(sha, Run(sha, disk, pin, replies, n), pin, replies(n)).1
  }

  predicate Retried(o: Outcome) {
    o.Failed? && o.error != Uncaught
  }

  // ----- The clients -----

  class Client {
    var partial: Option<Bytes>
    var target: Option<Bytes>

    function Now(): Disk
      reads this
    {
      Disk(partial, target)
    }

    constructor (disk: Disk)
      ensures Now() == disk
    {
      partial, target := disk.partial, disk.target;
    }

    /** The body arrives in pieces of at most `chunk` bytes, each appended to the partial file. */
    method Receive(body: Bytes, chunk: nat)
      requires partial.Some? && chunk > 0
      modifies this`partial
      ensures partial == Some(old(partial.value) + body)
    {
      var position: nat := 0;
      assert partial.value + body[..0] == partial.value;
      while position < |body|
        invariant position <= |body|
        invariant partial == Some(old(partial.value) + body[..position])
      {
        var end := if position + chunk < |body| then position + chunk else |body|;
        assert old(partial.value) + body[..position] + body[position..end] == old(partial.value) + body[..end];
        partial := Some(partial.value + body[position..end]);
        position := end;
      }
      assert body[..|body|] == body;
    }

    method SettlePartial(sha: Bytes -> Digest, pin: Pin, crash: bool) returns (o: Outcome)
      modifies this
      ensures (Now(), o) == Settle(sha, old(Now()), pin, crash)
    {
      if partial == None {
        return Failed(MissingPartial);
      }
      if |partial.value| != pin.size {
        return Failed(SizeMismatch);
      }
      if sha(partial.value) != pin.digest {
        return Failed(DigestMismatch);
      }
      if crash {
        return Failed(Broken);
      }
      target, partial := partial, None;
      o := Done;
    }

    /** `download` of the storage client. */
    method DownloadObject(sha: Bytes -> Digest, pin: Pin, reply: Reply, chunk: nat) returns (o: Outcome)
      requires chunk > 0
      modifies this
      ensures (Now(), o) == Attempt(sha, old(Now()), pin, reply)
    {
      if target.Some? {
        return if Matches(sha, pin, target.value) then Done else Failed(TargetDiffers);
      }
      hide Settle;
      var start := Length(partial);
      if start > pin.size {
        return Failed(PartialTooLarge);
      }
      if start < pin.size {
        if !reply.opens {
          return Failed(RequestFailed);
        }
        if start > 0 && !reply.ranged {
          start := 0;
          partial := None;
        }
        partial := Some(if start > 0 then Content(partial) else []);
        Receive(reply.body, chunk);
        if !reply.ending.Smooth? {
          return Failed(Breach(reply));
        }
      }
      o := SettlePartial(sha, pin, reply.crashBeforeRename);
    }

    /** `_download_once` of the checkpoint client: a full partial file is settled without a request. */
    method DownloadOnce(sha: Bytes -> Digest, pin: Pin, reply: Reply, chunk: nat) returns (o: Outcome)
      requires chunk > 0
      modifies this
      ensures (Now(), o) == Attempt(sha, old(Now()), pin, reply)
    {
      if target.Some? {
        if !Matches(sha, pin, target.value) {
          return Failed(TargetDiffers);
        }
        return Done;
      }
      hide Settle;
      var start := Length(partial);
      if start > pin.size {
        return Failed(PartialTooLarge);
      }
      if start == pin.size {
        o := SettlePartial(sha, pin, reply.crashBeforeRename);
        return;
      }
      if !reply.opens {
        return Failed(RequestFailed);
      }
      if start > 0 && !reply.ranged {
        start := 0;
        partial := None;
      }
      partial := Some(if start > 0 then Content(partial) else []);
      Receive(reply.body, chunk);
      if !reply.ending.Smooth? {
        return Failed(Breach(reply));
      }
      o := SettlePartial(sha, pin, reply.crashBeforeRename);
    }

    /**
     `_download_with_retries`: at most `retries + 1` attempts, the last failure passed on; an error outside the
     classes that are caught ends the loop at once.
     */
    method DownloadWithRetries(sha: Bytes -> Digest, pin: Pin, replies: nat -> Reply, chunk: nat, retries: nat)
      returns (o: Outcome, attempts: nat)
      requires chunk > 0
      modifies this
      ensures 1 <= attempts <= retries + 1
      ensures Now() == Run(sha, old(Now()), pin, replies, attempts)
      ensures o == OutcomeOf(sha, old(Now()), pin, replies, attempts - 1)
      ensures o.Failed? ==> attempts == retries + 1 || o.error == Uncaught
      ensures forall k: nat :: k < attempts - 1 ==>
                var o := OutcomeOf(sha, old(Now()), pin, replies, k);
                o.Failed? && o.error != Uncaught
    {
      ghost var start := Now();
      hide Attempt;
      attempts := 0;
      while true
        invariant attempts <= retries
        invariant Now() == Run(sha, start, pin, replies, attempts)
        invariant forall k: nat :: k < attempts ==> Retried(OutcomeOf(sha, start, pin, replies, k))
        decreases retries - attempts
      {
        o := DownloadOnce(sha, pin, replies(attempts), chunk);
        attempts := attempts + 1;
        if !Retried(o) || attempts == retries + 1 {
          return;
        }
      }
    }
  }
}
