/** Safety of downloads over all runs of attempts, crashes and retries. */
module DownloadProofs {
  import opened Octets
  import opened Outcomes
  import opened Download

  /** Whatever a server sends: an existing target is never touched, and a new one has the pinned size and digest. */
  lemma {:induction false} TargetSafe(sha: Bytes -> Digest, disk: Disk, pin: Pin, replies: nat -> Reply, n: nat)
    ensures
      var after := Run(sha, disk, pin, replies, n);
      && (disk.target.Some? ==> after.target == disk.target)
      && (disk.target == None && after.target.Some? ==> Matches(sha, pin, after.target.value))
  {
    if n > 0 {
      TargetSafe(sha, disk, pin, replies, n - 1);
    }
  }

  /** An attempt succeeds only with content of the pinned size and digest at the target. */
  lemma {:induction false} DoneMeansPinned(sha: Bytes -> Digest, disk: Disk, pin: Pin, reply: Reply)
    requires Attempt(sha, disk, pin, reply).1.Done?
    ensures
      var after := Attempt(sha, disk, pin, reply).0;
      after.target.Some? && Matches(sha, pin, after.target.value)
  {
  }

  /**
   A target that is there already decides every attempt of every run, and is never touched: it is a success exactly
   when it has the pinned size and digest.  A finished download can therefore be repeated.
   */
  lemma {:induction false} PresentTargetDecides(sha: Bytes -> Digest, disk: Disk, pin: Pin, replies: nat -> Reply,
                                                n: nat)
    requires disk.target.Some?
    ensures Run(sha, disk, pin, replies, n) == disk
    ensures
      OutcomeOf(sha, disk, pin, replies, n)
      == if |disk.target.value| == pin.size && sha(disk.target.value) == pin.digest then Done else Failed(TargetDiffers)
  {
    if n > 0 {
      PresentTargetDecides(sha, disk, pin, replies, n - 1);
    }
  }

  lemma {:induction false} FinishedRepeats(sha: Bytes -> Digest, disk: Disk, pin: Pin, reply: Reply,
                                           replies: nat -> Reply, n: nat)
    requires Attempt(sha, disk, pin, reply).1.Done?
    ensures var after := Attempt(sha, disk, pin, reply).0;
            Run(sha, after, pin, replies, n) == after && OutcomeOf(sha, after, pin, replies, n) == Done
  {
    DoneMeansPinned(sha, disk, pin, reply);
    PresentTargetDecides(sha, Attempt(sha, disk, pin, reply).0, pin, replies, n);
  }

  /** An attempt that has to ask gets its bytes from a request, which may fail to open or break off. */
  predicate Asks(disk: Disk, pin: Pin) {
    disk.target == None && Length(disk.partial) < pin.size
  }

  /** Whatever breaks, be it the request, the transfer or the client before the rename, nothing is delivered. */
  lemma {:induction false} BrokenDeliversNothing(sha: Bytes -> Digest, disk: Disk, pin: Pin, reply: Reply)
    requires disk.target == None
    requires reply.crashBeforeRename || (Asks(disk, pin) && (!reply.opens || reply.ending != Smooth))
    ensures Attempt(sha, disk, pin, reply).1.Failed? && Attempt(sha, disk, pin, reply).0.target == None
    ensures Asks(disk, pin) && !reply.opens ==> Attempt(sha, disk, pin, reply) == (disk, Failed(RequestFailed))
  {
  }

  /** An attempt ends the retry loop for good exactly when its transfer breaks off with an error nobody catches. */
  lemma {:induction false} UncaughtExactlyWhen(sha: Bytes -> Digest, disk: Disk, pin: Pin, reply: Reply)
    ensures Attempt(sha, disk, pin, reply).1 == Failed(Uncaught)
       <==> Asks(disk, pin) && reply.opens && reply.ending == Aborted
  {
  }

  /** The reply comes from an immutable source: a piece of it from where it was asked for, or from the start. */
  ghost predicate Honest(source: Bytes, disk: Disk, reply: Reply) {
    var start := if reply.ranged then Length(disk.partial) else 0;
    start <= |source| && reply.body <= source[start..]
  }

  /** The partial file, if any, is a prefix of the source. */
  ghost predicate PrefixOf(source: Bytes, disk: Disk) {
    disk.partial.Some? ==> disk.partial.value <= source
  }

  lemma {:induction false} AttemptKeepsPrefix(sha: Bytes -> Digest, disk: Disk, pin: Pin, reply: Reply, source: Bytes)
    requires PrefixOf(source, disk) && Honest(source, disk, reply)
    ensures PrefixOf(source, Attempt(sha, disk, pin, reply).0)
  {
    if reply.ranged && Length(disk.partial) > 0 {
      var p := disk.partial.value;
      assert source == p + source[|p|..];
    }
  }

  /** Every attempt of the run meets an honest reply. */
  ghost predicate HonestRun(sha: Bytes -> Digest, disk: Disk, pin: Pin, replies: nat -> Reply, n: nat, source: Bytes) {
    forall k: nat :: k < n ==> Honest(source, Run(sha, disk, pin, replies, k), replies(k))
  }

  /**
   Against an immutable source, ranges honoured or not, the partial file is a prefix of the source after any
   number of attempts, wherever they broke off.
   */
  lemma {:induction false} RunKeepsPrefix(sha: Bytes -> Digest, disk: Disk, pin: Pin, replies: nat -> Reply, n: nat,
                                          source: Bytes)
    requires PrefixOf(source, disk) && HonestRun(sha, disk, pin, replies, n, source)
    ensures PrefixOf(source, Run(sha, disk, pin, replies, n))
  {
    hide *;
    if n == 0 {
      RunStarts(sha, disk, pin, replies);
    } else {
      RunStep(sha, disk, pin, replies, n);
      HonestBefore(sha, disk, pin, replies, n, source);
      RunKeepsPrefix(sha, disk, pin, replies, n - 1, source);
      AttemptKeepsPrefix(sha, Run(sha, disk, pin, replies, n - 1), pin, replies(n - 1), source);
    }
  }

  lemma {:induction false} RunStarts(sha: Bytes -> Digest, disk: Disk, pin: Pin, replies: nat -> Reply)
    ensures Run(sha, disk, pin, replies, 0) == disk
  {
  }

  lemma {:induction false} RunStep(sha: Bytes -> Digest, disk: Disk, pin: Pin, replies: nat -> Reply, n: nat)
    requires n > 0
    ensures Run(sha, disk, pin, replies, n)
         == Attempt(sha, Run(sha, disk, pin, replies, n - 1), pin, replies(n - 1)).0
  {
    hide Attempt;
  }

  lemma {:induction false} HonestBefore(sha: Bytes -> Digest, disk: Disk, pin: Pin, replies: nat -> Reply, n: nat,
                                        source: Bytes)
    requires n > 0 && HonestRun(sha, disk, pin, replies, n, source)
    ensures HonestRun(sha, disk, pin, replies, n - 1, source)
    ensures Honest(source, Run(sha, disk, pin, replies, n - 1), replies(n - 1))
  {
    hide Honest, Run;
  }

  lemma {:induction false} TargetStays(sha: Bytes -> Digest, disk: Disk, pin: Pin, reply: Reply)
    requires disk.target.Some?
    ensures Attempt(sha, disk, pin, reply).0 == disk
  {
  }

  /** Pinned to the source's own size and digest, what arrives at the target is the source. */
  lemma {:induction false} TargetIsSource(sha: Bytes -> Digest, pin: Pin, replies: nat -> Reply, n: nat, source: Bytes)
    requires pin == Pin(|source|, sha(source))
    requires HonestRun(sha, BLANK, pin, replies, n, source)
    ensures
      var after := Run(sha, BLANK, pin, replies, n);
      after.target.Some? ==> after.target.value == source
  {
    hide *;
    if n == 0 {
      NothingYet(sha, pin, replies);
    } else {
      var before := Run(sha, BLANK, pin, replies, n - 1);
      HonestLast(sha, pin, replies, n, source);
      TargetIsSource(sha, pin, replies, n - 1, source);
      if before.target == None {
        RunKeepsPrefix(sha, BLANK, pin, replies, n - 1, source);
        AttemptDeliversSource(sha, before, pin, replies(n - 1), source);
      } else {
        TargetStays(sha, before, pin, replies(n - 1));
      }
    }
  }

  lemma {:induction false} NothingYet(sha: Bytes -> Digest, pin: Pin, replies: nat -> Reply)
    ensures Run(sha, BLANK, pin, replies, 0).target == None
  {
  }

  lemma {:induction false} HonestLast(sha: Bytes -> Digest, pin: Pin, replies: nat -> Reply, n: nat, source: Bytes)
    requires n > 0 && HonestRun(sha, BLANK, pin, replies, n, source)
    ensures PrefixOf(source, BLANK) && HonestRun(sha, BLANK, pin, replies, n - 1, source)
    ensures
      var before := Run(sha, BLANK, pin, replies, n - 1);
      && Honest(source, before, replies(n - 1))
      && Run(sha, BLANK, pin, replies, n) == Attempt(sha, before, pin, replies(n - 1)).0
  {
  }

  lemma {:induction false} AttemptDeliversSource(sha: Bytes -> Digest, disk: Disk, pin: Pin, reply: Reply,
                                                 source: Bytes)
    requires PrefixOf(source, disk) && Honest(source, disk, reply) && disk.target == None && pin.size == |source|
    ensures
      var after := Attempt(sha, disk, pin, reply).0;
      after.target.Some? ==> after.target.value == source
  {
    AttemptKeepsPrefix(sha, disk, pin, reply.(crashBeforeRename := true), source);
    if Length(disk.partial) == pin.size && disk.partial.Some? {
      assert disk.partial.value == source[..|source|] == source;
    }
    var received := Received(disk.partial, reply);
    if Length(disk.partial) < pin.size && |received| == pin.size {
      assert received <= source && received == source[..|source|] == source by {
        if reply.ranged && Length(disk.partial) > 0 {
          assert source == disk.partial.value + source[|disk.partial.value|..];
        }
      }
    }
  }

  /** The reply brings everything that is missing and nothing breaks. */
  ghost predicate Complete(source: Bytes, disk: Disk, reply: Reply) {
    && reply.opens && reply.ending.Smooth? && !reply.crashBeforeRename
    && Length(disk.partial) <= |source|
    && reply.body == source[if reply.ranged then Length(disk.partial) else 0..]
  }

  lemma {:induction false} WholeReceived(source: Bytes, disk: Disk, reply: Reply)
    requires PrefixOf(source, disk) && Complete(source, disk, reply)
    ensures Received(disk.partial, reply) == source
    ensures Length(disk.partial) == |source| && disk.partial.Some? ==> disk.partial.value == source
  {
    if disk.partial.Some? {
      var p := disk.partial.value;
      assert source == p + source[|p|..];
    }
  }

  /** From any prefix, one complete reply finishes the download; nothing already received is lost. */
  lemma {:induction false} CompleteReplyFinishes(sha: Bytes -> Digest, disk: Disk, pin: Pin, reply: Reply,
                                                 source: Bytes)
    requires PrefixOf(source, disk) && disk.target == None && pin == Pin(|source|, sha(source))
    requires Complete(source, disk, reply)
    ensures Attempt(sha, disk, pin, reply) == (Disk(None, Some(source)), Done)
       <==> source != [] || disk.partial.Some?
  {
    WholeReceived(source, disk, reply);
    hide Received, PrefixOf;
  }

  /** The partial file is over-long, or full with another digest. */
  predicate Stuck(sha: Bytes -> Digest, disk: Disk, pin: Pin) {
    && disk.partial.Some?
    && (|disk.partial.value| > pin.size || (|disk.partial.value| == pin.size && sha(disk.partial.value) != pin.digest))
  }

  /** A stuck partial file: every further attempt fails and changes nothing. */
  lemma {:induction false} StuckForever(sha: Bytes -> Digest, disk: Disk, pin: Pin, replies: nat -> Reply, n: nat)
    requires disk.target == None && Stuck(sha, disk, pin)
    ensures Run(sha, disk, pin, replies, n) == disk && OutcomeOf(sha, disk, pin, replies, n).Failed?
  {
    if n > 0 {
      StuckForever(sha, disk, pin, replies, n - 1);
    }
  }

  /** An empty file is never downloaded from scratch: no partial file is ever made, and every attempt misses it. */
  lemma {:induction false} EmptyNeverDownloads(sha: Bytes -> Digest, pin: Pin, replies: nat -> Reply, n: nat)
    requires pin.size == 0
    ensures Run(sha, BLANK, pin, replies, n) == BLANK
    ensures OutcomeOf(sha, BLANK, pin, replies, n) == Failed(MissingPartial)
  {
    if n > 0 {
      EmptyNeverDownloads(sha, pin, replies, n - 1);
    }
  }

  /**
   Some reply completes the download exactly when the partial file is not stuck and, should the source be empty,
   there is one.
   */
  lemma {:induction false} RecoverableExactlyWhen(sha: Bytes -> Digest, disk: Disk, pin: Pin, source: Bytes)
    requires disk.target == None && pin == Pin(|source|, sha(source))
    ensures (exists reply: Reply :: Attempt(sha, disk, pin, reply).1.Done?)
       <==> !Stuck(sha, disk, pin) && (source != [] || disk.partial.Some?)
  {
    var whole := Reply(true, false, source, Smooth, false);
    if !Stuck(sha, disk, pin) && (source != [] || disk.partial.Some?) {
      assert Received(disk.partial, whole) == source;
      assert Attempt(sha, disk, pin, whole).1.Done?;
    }
  }
}
