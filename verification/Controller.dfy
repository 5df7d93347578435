/**
 The ephemeral validation controller: whatever fails on the way, what it made is gone when it says so.

 Every remote call may raise, and a mutation may or may not have taken effect whether or not it raised; reads that
 return are truthful, and nobody else changes the temporary resources.  A termination signal may arrive during any
 call and stays set; a running job ends at some point of its own accord.
 */
module Controller {
  import opened Outcomes

  datatype Job = Absent | Running | Terminal

  /** The temporary resources, and whether the shared endpoint serves models of others. */
  datatype Cloud = Cloud(edge: bool, deployed: bool, model: bool, job: Job, others: bool)

  /**
   What one call meets: whether it raises, whether its effect lands, what it reports when it is asked, whether a
   signal arrives, and whether a job that was running has ended by then.
   */
  datatype Event = Event(raises: bool, lands: bool, verdict: bool, signal: bool, ends: bool)

  datatype Stage = EdgeStage | EndpointStage | ModelStage | JobStage | InventoryStage

  /** No fault of the cloud; a signal is none. */
  predicate Fine(e: Event) {
    !e.raises && e.lands && e.verdict
  }

  /** Nothing is there in `b` that was not there in `a`. */
  predicate Shrinks(a: Cloud, b: Cloud) {
    && (b.edge ==> a.edge) && (b.deployed ==> a.deployed) && (b.model ==> a.model)
    && (b.job != Absent ==> a.job != Absent) && b.others == a.others
  }

  predicate Gone(c: Cloud) {
    !c.edge && !c.deployed && !c.model && c.job == Absent
  }

  /** The native job holds the accelerators that the deployed model needs. */
  predicate Contending(c: Cloud) {
    c.job != Absent && c.deployed
  }

  /** What the teardown starts from. */
  datatype Snapshot = Snapshot(cloud: Cloud, jobNamed: bool, edgeAttempted: bool, uploadAttempted: bool)

  /** The calls of the first three stages when none of them meets a fault. */
  function EdgeCalls(s: Snapshot): nat {
    if s.cloud.edge then (if s.edgeAttempted then 3 else 4) else 1
  }

  function EndpointCalls(s: Snapshot): nat {
    if s.cloud.deployed then 4 else 2
  }

  function ModelCalls(s: Snapshot): nat {
    if s.cloud.model then (if s.uploadAttempted then 4 else 5) else 1
  }

  /** The number of the call that first reads the job's state in a teardown that starts at call `n`. */
  function JobRead(s: Snapshot, n: nat): nat {
    n + EdgeCalls(s) + EndpointCalls(s) + ModelCalls(s) + if s.jobNamed then 0 else 1
  }

  class Run {
    const script: nat -> Event
    const horizon: nat -> nat
    var calls: nat
    ghost var lastRaise: int     // the last call that raised
    var cloud: Cloud
    var terminated: bool
    ghost var contended: bool
    ghost var stages: seq<Stage>
    ghost var nativePassed: bool
    ghost var validated: bool
    ghost var nativeAt: nat      // the call that fetches the native report, once it has passed
    ghost var deployedAt: nat    // the number of calls made when the model was found deployed
    ghost var validatorAt: nat   // the call that runs the validator, once it has passed
    ghost var cleanupStart: nat
    ghost var atCleanup: Snapshot

    var jobNamed: bool
    var uploadAttempted: bool
    var edgeAttempted: bool
    var snapshotTaken: bool
    var passed: bool

    constructor (script: nat -> Event, horizon: nat -> nat, cloud: Cloud)
      requires forall n: nat :: horizon(n) >= n && script(horizon(n)).ends
      ensures this.script == script && this.horizon == horizon && this.cloud == cloud && calls == 0 && stages == []
      ensures Valid() && contended == Contending(cloud)
      ensures !jobNamed && !uploadAttempted && !edgeAttempted && !snapshotTaken
      ensures !passed && !nativePassed && !validated
    {
      this.script, this.horizon, this.cloud, calls, terminated := script, horizon, cloud, 0, false;
      stages, contended, nativePassed, validated, lastRaise := [], Contending(cloud), false, false, -1;
      jobNamed, uploadAttempted, edgeAttempted, snapshotTaken, passed := false, false, false, false, false;
    }

    /** The flag says whether a signal has arrived, and no job runs for ever. */
    ghost predicate Valid()
      reads this
    {
      (terminated <==> Signalled(calls)) && JobsEnd()
    }

    ghost predicate JobsEnd() {
      forall n: nat :: horizon(n) >= n && script(horizon(n)).ends
    }

    /** Call `n` returns, and what it reports is good. */
    predicate Good(n: nat) {
      !script(n).raises && script(n).verdict
    }

    /**
     From call `n` on: report and marker are fetched and the report passes, after a last look at the job that found it
     successful.
     */
    predicate NativePasses(n: nat) {
      n > 0 && Good(n - 1) && !script(n).raises && !script(n + 1).raises && Good(n + 2)
    }

    /** The run as it passes: the native report first, then a deployed model before any signal, then the validator. */
    ghost predicate Attested()
      reads `nativeAt, `deployedAt, `validatorAt
    {
      && NativePasses(nativeAt) && nativeAt < deployedAt && !Signalled(deployedAt)
      && deployedAt < validatorAt && ValidatorPasses(validatorAt)
    }

    /** From call `n` on: the validator exits with 0, not killed for a signal, its report passes, the rest attests. */
    ghost predicate ValidatorPasses(n: nat) {
      Good(n) && (Signalled(n + 1) ==> script(n).ends) && Good(n + 1) && Good(n + 2)
    }

    /** A signal arrives during one of the first `n` calls. */
    ghost predicate Signalled(n: nat) {
      exists k: nat :: k < n && script(k).signal
    }

    ghost predicate Quiet() {
      forall k: nat :: !script(k).signal
    }

    /** Every call from the `n`-th on goes well. */
    ghost predicate FineFrom(n: nat) {
      forall k: nat :: k >= n ==> Fine(script(k))
    }

    /** A poll whose first read is call `n` finds the job running after a signal, before it finds it ended. */
    ghost predicate Stops(n: nat) {
      exists k: nat :: n <= k && StopsAt(n, k)
    }

    ghost predicate StopsAt(n: nat, k: nat) {
      Signalled(k + 1) && forall j: nat :: n <= j <= k ==> !script(j).ends
    }

    /** A teardown from call `n` finds the job running, and its wait for the cancelled job is cut short by a signal. */
    ghost predicate Stranded(n: nat, s: Snapshot) {
      s.cloud.job == Running && !script(JobRead(s, n)).ends && Stops(JobRead(s, n) + 2)
    }

    ghost function Now(): Snapshot
      reads this
    {
      Snapshot(cloud, jobNamed, edgeAttempted, uploadAttempted)
    }

    lemma {:induction false} QuietNeverStrands(n: nat, s: Snapshot)
      ensures Quiet() ==> !Stranded(n, s)
    {
    }

    lemma {:induction false} QuietNeverStops(n: nat)
      ensures Quiet() ==> !Stops(n)
    {
    }

    lemma {:induction false} FineLater(n: nat, m: nat)
      requires n <= m
      ensures FineFrom(n) ==> FineFrom(m)
    {
    }

    lemma {:induction false} NextSignal()
      ensures forall n: nat :: Signalled(n + 1) <==> Signalled(n) || script(n).signal
    {
    }

    lemma {:induction false} SignalStays(n: nat, m: nat)
      requires n <= m
      ensures Signalled(n) ==> Signalled(m)
    {
    }

    lemma {:induction false} EndsFirst(n: nat, here: nat)
      requires n <= here && script(here).ends && (here > n ==> !Signalled(here))
      ensures !Stops(n) && !StopsAt(n, n)
    {
      forall k: nat | n <= k
        ensures !StopsAt(n, k)
      {
        if k < here {
          SignalStays(k + 1, here);
        }
      }
    }

    // ----- Calls -----

    /** A call that changes nothing. */
    method Ask() returns (ok: bool, verdict: bool)
      requires Valid()
      modifies `calls, `lastRaise, `terminated
      ensures Valid() && calls == old(calls) + 1 && (FineFrom(old(calls)) ==> ok && verdict)
      ensures ok == !script(old(calls)).raises && verdict == script(old(calls)).verdict
      ensures lastRaise == if script(old(calls)).raises then old(calls) else old(lastRaise)
      ensures Quiet() ==> !terminated
    {
      NextSignal();
      var e := script(calls);
      lastRaise := if e.raises then calls else lastRaise;
      calls, ok, verdict, terminated := calls + 1, !e.raises, e.verdict, terminated || e.signal;
    }

    /** A call meant to bring the cloud to `target`. */
    method Mutate(target: Cloud) returns (ok: bool)
      requires Valid()
      modifies `calls, `lastRaise, `terminated, `cloud, `contended
      ensures Valid() && calls == old(calls) + 1 && (FineFrom(old(calls)) ==> ok && cloud == target)
      ensures ok == !script(old(calls)).raises && (cloud == old(cloud) || cloud == target)
      ensures contended == (old(contended) || Contending(cloud))
      ensures lastRaise == if script(old(calls)).raises then old(calls) else old(lastRaise)
      ensures Quiet() ==> !terminated
    {
      NextSignal();
      var e := script(calls);
      lastRaise := if e.raises then calls else lastRaise;
      calls, ok, terminated := calls + 1, !e.raises, terminated || e.signal;
      if e.lands {
        cloud := target;
      }
      contended := contended || Contending(cloud);
    }

    /** Reads the job's state. */
    method ReadJob() returns (ok: bool, succeeded: bool)
      requires Valid()
      modifies `calls, `lastRaise, `terminated, `cloud
      ensures Valid() && calls == old(calls) + 1 && (FineFrom(old(calls)) ==> ok && succeeded)
      ensures ok == !script(old(calls)).raises && succeeded == script(old(calls)).verdict
      ensures cloud == if old(cloud).job == Running && script(old(calls)).ends then old(cloud).(job := Terminal)
                       else old(cloud)
      ensures lastRaise == if script(old(calls)).raises then old(calls) else old(lastRaise)
      ensures Quiet() ==> !terminated
    {
      NextSignal();
      var e := script(calls);
      lastRaise := if e.raises then calls else lastRaise;
      calls, ok, succeeded, terminated := calls + 1, !e.raises, e.verdict, terminated || e.signal;
      if cloud.job == Running && e.ends {
        cloud := cloud.(job := Terminal);
      }
    }

    /** Reads the job's state until it has ended; a job that runs on after a signal is given up. */
    method PollJob() returns (ok: bool, succeeded: bool)
      requires Valid()
      modifies `calls, `lastRaise, `terminated, `cloud
      ensures Valid() && calls > old(calls)
      ensures lastRaise == old(lastRaise) || (lastRaise == calls - 1 && !ok)
      ensures cloud == old(cloud) || (old(cloud).job == Running && cloud == old(cloud).(job := Terminal))
      ensures FineFrom(old(calls)) && old(cloud).job == Running ==> (ok <==> !Stops(old(calls))) && (ok ==> succeeded)
      ensures FineFrom(old(calls)) && old(cloud).job == Running ==> cloud.job == if ok then Terminal else Running
      ensures old(cloud).job == Running && StopsAt(old(calls), old(calls)) ==> !ok && calls == old(calls) + 1
      ensures (ok && succeeded ==> Good(calls - 1)) && (succeeded ==> ok)
    {
      ghost var start, last := calls, horizon(calls);
      NextSignal();
      while true
        invariant Valid() && start <= calls <= last && cloud == old(cloud)
        invariant calls > start ==> !Signalled(calls)
        invariant forall j: nat :: start <= j < calls ==> !script(j).ends || cloud.job != Running
        invariant calls > start ==> cloud.job == Running
        invariant lastRaise == old(lastRaise)
        decreases last - calls
      {
        ghost var here := calls;
        ok, succeeded := ReadJob();
        if !ok || cloud.job == Absent {
          return false, false;
        }
        if cloud.job == Terminal {
          if old(cloud).job == Running {
            EndsFirst(start, here);
          }
          return;
        }
        if terminated {
          assert StopsAt(start, here);
          return false, false;
        }
      }
    }

    /** Cancels the job if it runs, deletes it, and reads back that it is gone. */
    method CancelAndDeleteJob(named: bool) returns (ok: bool)
      requires Valid()
      modifies `calls, `lastRaise, `terminated, `cloud, `contended
      ensures Valid() && calls >= old(calls)
      ensures lastRaise == old(lastRaise) || (lastRaise == calls - 1 && !ok)
      ensures Shrinks(old(cloud), cloud) && cloud == old(cloud).(job := cloud.job)
      ensures (ok && named ==> cloud.job == Absent) && (named ==> calls > old(calls))
      ensures !Contending(old(cloud)) ==> contended == old(contended)
      ensures FineFrom(old(calls)) ==>
                (ok <==> !named || old(cloud).job != Running || script(old(calls)).ends || !Stops(old(calls) + 2))
      ensures FineFrom(old(calls)) && !ok ==> cloud.job == Running
    {
      hide JobsEnd, Signalled, Stops;
      var verdict: bool;
      if !named {
        return true;
      }
      ok, verdict := ReadJob();
      if !ok || cloud.job == Absent {
        return;
      }
      if cloud.job != Terminal {
        ok := CancelJob();
        if !ok {
          return;
        }
      }
      ok := DeleteJob();
    }

    method CancelJob() returns (ok: bool)
      requires Valid() && cloud.job == Running
      modifies `calls, `lastRaise, `terminated, `cloud, `contended
      ensures Valid() && calls > old(calls)
      ensures lastRaise == old(lastRaise) || (lastRaise == calls - 1 && !ok)
      ensures cloud == old(cloud).(job := cloud.job) && cloud.job in {Running, Terminal}
      ensures !Contending(old(cloud)) ==> contended == old(contended)
      ensures FineFrom(old(calls)) ==> (ok <==> !Stops(old(calls) + 1)) && (!ok ==> cloud.job == Running)
    {
      hide JobsEnd, Signalled, Stops;
      var verdict: bool;
      ok := Mutate(cloud);
      if !ok {
        return;
      }
      ok, verdict := PollJob();
    }

    method DeleteJob() returns (ok: bool)
      requires Valid()
      modifies `calls, `lastRaise, `terminated, `cloud, `contended
      ensures Valid() && calls > old(calls)
      ensures lastRaise == old(lastRaise) || (lastRaise == calls - 1 && !ok)
      ensures cloud == old(cloud).(job := cloud.job) && cloud.job in {old(cloud).job, Absent}
      ensures !Contending(old(cloud)) ==> contended == old(contended)
      ensures (FineFrom(old(calls)) ==> ok) && (ok ==> cloud.job == Absent)
    {
      hide JobsEnd, Signalled, Stops;
      var verdict: bool;
      ok := Mutate(cloud.(job := Absent));
      if !ok {
        return;
      }
      ok, verdict := Ask();
      if !ok {
        return;
      }
      ok, verdict := Ask();
      ok := ok && cloud.job == Absent;
    }

    // ----- The phases -----

    /** Nothing of ours is there yet, the endpoint is empty, and the production edge is on record. */
    method Preflight() returns (ok: bool)
      requires Valid()
      modifies `calls, `lastRaise, `terminated, `snapshotTaken
      ensures Valid() && calls > old(calls)
      ensures lastRaise == old(lastRaise) || (lastRaise == calls - 1 && !ok)
      ensures FineFrom(old(calls)) && Gone(cloud) && !cloud.others ==> ok && calls == old(calls) + 6
      ensures ok ==> Gone(cloud) && !cloud.others && snapshotTaken
    {
      hide JobsEnd, Signalled, Stops;
      var verdict: bool;
      ok, verdict := Ask();
      if !ok || cloud.deployed || cloud.others {
        return false;
      }
      ok, verdict := Ask();
      if !ok || cloud.model {
        return false;
      }
      ok, verdict := Ask();
      if !ok || cloud.edge {
        return false;
      }
      ok, verdict := Ask();
      if !ok || cloud.job != Absent {
        return false;
      }
      ok, verdict := Ask();
      snapshotTaken := ok;
      if ok {
        ok, verdict := Ask();
      }
    }

    /** Runs the native job to its end, checks its reports, and deletes it. */
    method NativeGate() returns (ok: bool)
      requires Valid() && Gone(cloud) && !contended && !jobNamed && !nativePassed
      modifies `calls, `lastRaise, `terminated, `cloud, `contended, `jobNamed, `nativePassed, `nativeAt
      ensures Valid() && calls > old(calls)
      ensures FineFrom(old(calls)) && Quiet() ==> ok
      ensures FineFrom(old(calls)) && StopsAt(old(calls) + 2, old(calls) + 2) ==>
                !ok && jobNamed && cloud == old(cloud).(job := Running) && calls == old(calls) + 3
      ensures cloud == old(cloud).(job := cloud.job) && !contended
      ensures ok ==> cloud == old(cloud) && !jobNamed && nativePassed && !terminated
      ensures nativePassed ==> NativePasses(nativeAt) && nativeAt < calls
      ensures ok ==> lastRaise == old(lastRaise)
      ensures script(old(calls)).raises || script(old(calls) + 1).raises ==> calls <= old(calls) + 2
    {
      hide JobsEnd, Signalled;
      var verdict: bool;
      ok := Mutate(cloud.(job := Running));
      if !ok {
        return;
      }
      // The answer names the job, which is kept even when the state cannot be written.
      ok, jobNamed := Ask();
      if !ok || !jobNamed {
        return false;
      }
      QuietNeverStops(calls);
      ok, verdict := PollJob();
      if !ok {
        return;
      }
      verdict := ReadReports(verdict);
      if !verdict {
        return false;
      }
      ok := DropJob();
    }

    /** The end of the native phase: the job is deleted, the state written, and a signal is heeded. */
    method DropJob() returns (ok: bool)
      requires Valid() && jobNamed
      modifies `calls, `lastRaise, `terminated, `cloud, `contended, `jobNamed
      ensures Valid() && calls > old(calls) && cloud == old(cloud).(job := cloud.job)
      ensures lastRaise == old(lastRaise) || (lastRaise == calls - 1 && !ok)
      ensures FineFrom(old(calls)) && Quiet() ==> ok
      ensures !Contending(old(cloud)) ==> contended == old(contended)
      ensures ok ==> cloud.job == Absent && !jobNamed && !terminated
    {
      hide JobsEnd, Signalled, Stops;
      var verdict: bool;
      QuietNeverStops(calls + 2);
      ok := CancelAndDeleteJob(jobNamed);
      if !ok {
        return;
      }
      jobNamed := false;
      ok, verdict := Ask();
      ok := ok && !terminated;
    }

    /** The job's two artifacts, which only a successful one need have, its terminal state and its report. */
    method ReadReports(succeeded: bool) returns (pass: bool)
      requires Valid() && calls > 0 && (succeeded ==> Good(calls - 1)) && !nativePassed
      modifies `calls, `lastRaise, `terminated, `nativePassed, `nativeAt
      ensures Valid() && calls > old(calls) && (FineFrom(old(calls)) && succeeded ==> pass)
      ensures nativePassed == pass && (pass <==> succeeded && NativePasses(old(calls)))
      ensures nativePassed ==> nativeAt == old(calls)
      ensures if succeeded then lastRaise == old(lastRaise) || (lastRaise == calls - 1 && !pass)
              else calls == old(calls) + 2
    {
      hide JobsEnd, Signalled, Stops;
      var ok, verdict := Ask();
      if !ok && succeeded {
        return false;
      }
      ok, verdict := Ask();
      if !ok && succeeded {
        return false;
      }
      if !succeeded {
        return false;
      }
      nativeAt := calls - 2;
      ok, pass := Ask();
      pass := ok && pass;
      nativePassed := pass;
    }

    /** Uploads and deploys the model, now that the job is gone, then the edge, and validates through it. */
    method Serve() returns (ok: bool)
      requires Valid() && cloud.job == Absent && !contended && nativePassed && !passed && !validated
      modifies `calls, `lastRaise, `terminated, `cloud, `contended, `uploadAttempted, `edgeAttempted
      modifies `passed, `validated
      modifies `deployedAt, `validatorAt
      ensures Valid() && calls > old(calls) && cloud.job == Absent && !contended && cloud.others == old(cloud).others
      ensures lastRaise == old(lastRaise) || (lastRaise == calls - 1 && !ok)
      ensures FineFrom(old(calls)) && Quiet() && Gone(old(cloud)) && !old(cloud).others ==> ok
      ensures (ok ==> passed) && (passed ==> validated)
      ensures validated ==>
                && ValidatorPasses(validatorAt) && !Signalled(deployedAt) && old(calls) < deployedAt < validatorAt
                && validatorAt < calls
      ensures FineFrom(old(calls)) && Quiet() && ok ==> cloud.edge && cloud.deployed && cloud.model
      ensures old(cloud).deployed || old(cloud).others || old(cloud).model ==> cloud == old(cloud) && !ok
      ensures cloud.model && !old(cloud).model ==> uploadAttempted
      ensures cloud.edge && !old(cloud).edge ==> edgeAttempted
    {
      hide JobsEnd, Signalled, Stops;
      var verdict: bool;
      ok, verdict := Ask();
      if !ok || cloud.deployed || cloud.others {
        return false;
      }
      ok, verdict := Ask();
      if !ok || cloud.model {
        return false;
      }
      ok := Deploy();
      if !ok {
        return;
      }
      deployedAt := calls;
      ok := Validate();
    }

    /** The model's upload, on record before it is sent, and the wait for it, which a signal ends. */
    method UploadModel() returns (ok: bool)
      requires Valid() && cloud.job == Absent && !contended
      modifies `calls, `lastRaise, `terminated, `cloud, `contended, `uploadAttempted
      ensures Valid() && calls > old(calls) && !contended && uploadAttempted
      ensures lastRaise == old(lastRaise) || (lastRaise == calls - 1 && !ok)
      ensures cloud == old(cloud).(model := cloud.model)
      ensures FineFrom(old(calls)) && Quiet() ==> ok && cloud.model
      ensures ok <==>
                calls == old(calls) + 2 && lastRaise == old(lastRaise) && Good(old(calls) + 1) && !Signalled(calls)
    {
      hide JobsEnd, Signalled, Stops;
      var verdict: bool;
      uploadAttempted := true;
      ok := Mutate(cloud.(model := true));
      if !ok {
        return;
      }
      ok, verdict := Ask();
      ok := ok && verdict && !terminated;
    }

    /** The upload and the deployment, each waited for. */
    method Deploy() returns (ok: bool)
      requires Valid() && cloud.job == Absent && !contended
      modifies `calls, `lastRaise, `terminated, `cloud, `contended, `uploadAttempted
      ensures Valid() && calls > old(calls) && !contended && uploadAttempted
      ensures lastRaise == old(lastRaise) || (lastRaise == calls - 1 && !ok)
      ensures cloud == old(cloud).(model := cloud.model, deployed := cloud.deployed)
      ensures FineFrom(old(calls)) && Quiet() ==> ok && cloud.model
      ensures ok ==>
                && cloud.deployed && !terminated && calls == old(calls) + 5
                && Good(old(calls) + 1) && Good(old(calls) + 3) && Good(old(calls) + 4)
      ensures Signalled(old(calls) + 2) || !Good(old(calls) + 1) ==> cloud.deployed == old(cloud).deployed
    {
      hide JobsEnd, Signalled, Stops;
      ok := UploadModel();
      if !ok {
        return;
      }
      var verdict: bool;
      ok := Mutate(cloud.(deployed := true));
      if !ok {
        return;
      }
      ok, verdict := Ask();
      if !ok || !verdict {
        return false;
      }
      ok, verdict := Ask();
      ok := ok && cloud.deployed && verdict && !terminated;
    }

    /** The validator's exit code and report, and the attestation made of all reports. */
    method RunValidator() returns (pass: bool)
      requires Valid() && !validated
      modifies `calls, `lastRaise, `terminated, `validated, `validatorAt
      ensures Valid() && calls > old(calls) && (FineFrom(old(calls)) && Quiet() ==> pass)
      ensures validated == pass && (pass <==> ValidatorPasses(old(calls)))
      ensures lastRaise == old(lastRaise) || (lastRaise == calls - 1 && !pass)
      ensures pass ==> validatorAt == old(calls) && calls == old(calls) + 3
    {
      var e := script(calls);
      var ok, good := Ask();
      if !ok || !good || (terminated && !e.ends) {
        return false;
      }
      ok, good := Ask();
      if !ok || !good {
        return false;
      }
      validatorAt := calls - 2;
      ok, good := Ask();
      pass := ok && good;
      validated := pass;
    }

    /** Deploys the edge, runs the validator through it and attests to the result. */
    method Validate() returns (ok: bool)
      requires Valid() && cloud.job == Absent && !contended && !passed && !validated
      modifies `calls, `lastRaise, `terminated, `cloud, `contended, `edgeAttempted, `passed, `validated, `validatorAt
      ensures Valid() && calls > old(calls) && cloud == old(cloud).(edge := cloud.edge) && !contended
      ensures lastRaise == old(lastRaise) || (lastRaise == calls - 1 && !ok)
      ensures FineFrom(old(calls)) && Quiet() ==> ok
      ensures (ok ==> passed) && (passed ==> validated)
      ensures validated ==> ValidatorPasses(validatorAt) && old(calls) < validatorAt < calls && Good(old(calls) + 1)
      ensures FineFrom(old(calls)) && Quiet() ==> cloud.edge
      ensures passed <==> validated
      ensures edgeAttempted
    {
      hide JobsEnd, Signalled;
      var verdict: bool;
      edgeAttempted := true;
      ok := Mutate(cloud.(edge := true));
      if !ok {
        return;
      }
      ok, verdict := Ask();
      if !ok || !verdict {
        return false;
      }
      ok := RunValidator();
      if !ok {
        return;
      }
      passed := true;
      ok, verdict := Ask();
    }

    // ----- The five cleanup stages -----

    method CleanEdge() returns (ok: bool)
      requires Valid()
      modifies `calls, `lastRaise, `terminated, `cloud, `contended, `stages
      ensures Valid() && stages == old(stages) + [EdgeStage] && cloud == old(cloud).(edge := cloud.edge)
      ensures lastRaise == old(lastRaise) || (lastRaise == calls - 1 && !ok)
      ensures calls > old(calls) && Shrinks(old(cloud), cloud)
      ensures FineFrom(old(calls)) ==> ok && calls == old(calls) + EdgeCalls(old(Now()))
      ensures ok ==> !cloud.edge
      ensures !Contending(old(cloud)) ==> contended == old(contended)
    {
      hide JobsEnd, Signalled, Stops;
      var verdict: bool;
      stages := stages + [EdgeStage];
      if !edgeAttempted {
        ok, verdict := Ask();
        if !ok || !cloud.edge {
          return;
        }
      }
      ok, verdict := Ask();
      if !ok || !cloud.edge {
        return;
      }
      ok := DeleteEdge();
    }

    method DeleteEdge() returns (ok: bool)
      requires Valid() && cloud.edge
      modifies `calls, `lastRaise, `terminated, `cloud, `contended
      ensures Valid() && calls > old(calls) && cloud == old(cloud).(edge := cloud.edge)
      ensures lastRaise == old(lastRaise) || (lastRaise == calls - 1 && !ok)
      ensures FineFrom(old(calls)) ==> ok && calls == old(calls) + 2
      ensures ok ==> !cloud.edge
      ensures !Contending(old(cloud)) ==> contended == old(contended)
    {
      hide JobsEnd, Signalled, Stops;
      var verdict: bool;
      ok := Mutate(cloud.(edge := false));
      if !ok {
        return;
      }
      ok, verdict := Ask();
      ok := ok && !cloud.edge;
    }

    method CleanEndpoint() returns (ok: bool)
      requires Valid()
      modifies `calls, `lastRaise, `terminated, `cloud, `contended, `stages
      ensures Valid() && stages == old(stages) + [EndpointStage] && cloud == old(cloud).(deployed := cloud.deployed)
      ensures lastRaise == old(lastRaise) || (lastRaise == calls - 1 && !ok)
      ensures calls > old(calls) && Shrinks(old(cloud), cloud)
      ensures FineFrom(old(calls)) ==> ok && calls == old(calls) + EndpointCalls(old(Now()))
      ensures ok ==> !cloud.deployed
      ensures !Contending(old(cloud)) ==> contended == old(contended)
    {
      hide JobsEnd, Signalled, Stops;
      var verdict: bool;
      stages := stages + [EndpointStage];
      ok, verdict := Ask();
      if !ok {
        return;
      }
      if cloud.deployed {
        ok := Mutate(cloud.(deployed := false));
        if !ok {
          return;
        }
        ok, verdict := Ask();
        if !ok {
          return;
        }
      }
      ok, verdict := Ask();
      ok := ok && !cloud.deployed;
    }

    method CleanModel() returns (ok: bool)
      requires Valid()
      modifies `calls, `lastRaise, `terminated, `cloud, `contended, `stages
      ensures Valid() && stages == old(stages) + [ModelStage] && cloud == old(cloud).(model := cloud.model)
      ensures lastRaise == old(lastRaise) || (lastRaise == calls - 1 && !ok)
      ensures calls > old(calls) && Shrinks(old(cloud), cloud)
      ensures FineFrom(old(calls)) ==> ok && calls == old(calls) + ModelCalls(old(Now()))
      ensures ok ==> !cloud.model
      ensures !Contending(old(cloud)) ==> contended == old(contended)
    {
      hide JobsEnd, Signalled, Stops;
      var verdict: bool;
      stages := stages + [ModelStage];
      if !uploadAttempted {
        ok, verdict := Ask();
        if !ok || !cloud.model {
          return;
        }
      }
      ok, verdict := Ask();
      if !ok || !cloud.model {
        return;
      }
      ok := DeleteModel();
    }

    method DeleteModel() returns (ok: bool)
      requires Valid() && cloud.model
      modifies `calls, `lastRaise, `terminated, `cloud, `contended
      ensures Valid() && calls > old(calls) && cloud == old(cloud).(model := cloud.model)
      ensures lastRaise == old(lastRaise) || (lastRaise == calls - 1 && !ok)
      ensures FineFrom(old(calls)) ==> ok && calls == old(calls) + 3
      ensures ok ==> !cloud.model
      ensures !Contending(old(cloud)) ==> contended == old(contended)
    {
      hide JobsEnd, Signalled, Stops;
      var verdict: bool;
      ok := Mutate(cloud.(model := false));
      if !ok {
        return;
      }
      ok, verdict := Ask();
      if !ok {
        return;
      }
      ok, verdict := Ask();
      ok := ok && !cloud.model;
    }

    /** The job stage passes without faults unless its wait for the cancelled job is cut short. */
    method CleanJob() returns (ok: bool)
      requires Valid()
      modifies `calls, `lastRaise, `terminated, `cloud, `contended, `stages, `jobNamed
      ensures Valid() && stages == old(stages) + [JobStage] && cloud == old(cloud).(job := cloud.job)
      ensures lastRaise == old(lastRaise) || (lastRaise == calls - 1 && !ok)
      ensures calls >= old(calls) && Shrinks(old(cloud), cloud)
      ensures ok ==> cloud.job == Absent
      ensures !Contending(old(cloud)) ==> contended == old(contended)
      ensures
        var read := old(calls) + if old(jobNamed) then 0 else 1;
        FineFrom(old(calls)) ==>
          && (ok <==> old(cloud).job != Running || script(read).ends || !Stops(read + 2))
          && (!ok ==> cloud.job == Running)
    {
      hide JobsEnd, Signalled, Stops;
      var verdict: bool;
      stages := stages + [JobStage];
      if !jobNamed {
        ok, verdict := Ask();
        if !ok {
          return;
        }
        jobNamed := cloud.job != Absent;
      }
      ok := CancelAndDeleteJob(jobNamed);
    }

    method CheckInventory() returns (ok: bool)
      requires Valid()
      modifies `calls, `lastRaise, `terminated, `stages
      ensures Valid() && stages == old(stages) + [InventoryStage]
      ensures lastRaise == old(lastRaise) || (lastRaise == calls - 1 && !ok)
      ensures calls > old(calls) && (FineFrom(old(calls)) && !cloud.deployed && !cloud.others ==> ok)
      ensures ok ==> !cloud.deployed && !cloud.others && (snapshotTaken ==> Good(calls - 1))
    {
      hide JobsEnd, Signalled, Stops;
      var same: bool;
      stages := stages + [InventoryStage];
      ok, same := Ask();
      if !ok || cloud.deployed || cloud.others {
        return false;
      }
      ok, same := Ask();
      ok := ok && (snapshotTaken ==> same);
    }

    /** Each stage is tried whether or not the one before it raised. */
    method CleanUp() returns (clean: bool)
      requires Valid()
      modifies `calls, `lastRaise, `terminated, `cloud, `contended, `stages, `jobNamed
      ensures Valid() && stages == old(stages) + [EdgeStage, EndpointStage, ModelStage, JobStage, InventoryStage]
      ensures Shrinks(old(cloud), cloud) && calls > old(calls)
      ensures clean ==> Gone(cloud) && !cloud.others && (snapshotTaken ==> Good(calls - 1))
      ensures FineFrom(old(calls)) && !old(cloud).others ==>
                && (clean <==> !Stranded(old(calls), old(Now())))
                && (clean || cloud == Cloud(false, false, false, Running, false))
      ensures !Contending(old(cloud)) ==> contended == old(contended)
    {
      hide Stops, Signalled, JobsEnd;
      var edge := CleanEdge();
      var endpoint := CleanEndpoint();
      var model := CleanModel();
      var job := CleanJob();
      var inventory := CheckInventory();
      clean := edge && endpoint && model && job && inventory;
    }

    /** The phases up to the first that fails. */
    method Phases() returns (ok: bool)
      requires Valid() && !contended && !Contending(cloud) && !passed && !jobNamed && !nativePassed && !validated
      modifies `calls, `lastRaise, `terminated, `cloud, `contended, `jobNamed, `uploadAttempted
      modifies `edgeAttempted, `snapshotTaken
      modifies `passed, `nativePassed, `validated, `nativeAt, `deployedAt, `validatorAt
      ensures Valid() && !contended && !Contending(cloud) && cloud.others == old(cloud).others
      ensures FineFrom(old(calls)) && Quiet() && Gone(old(cloud)) && !old(cloud).others ==> ok
      ensures calls >= old(calls) && (ok ==> passed)
      ensures passed ==> Attested() && snapshotTaken
      ensures ok ==> lastRaise == old(lastRaise)
      ensures FineFrom(old(calls)) && Gone(old(cloud)) && !old(cloud).others
              && StopsAt(old(calls) + 8, old(calls) + 8) ==>
                && !ok && calls == old(calls) + 9
                && Now() == Snapshot(old(cloud).(job := Running), true, old(edgeAttempted), old(uploadAttempted))
    {
      hide StopsAt, Signalled, JobsEnd;
      ok := Preflight();
      if ok {
        ok := NativeGate();
        if ok {
          ok := Serve();
        }
      }
    }

    /** The cleanup and the last write of the state file; the exit code says what is left. */
    method WindDown(recorded: bool) returns (code: Option<int>)
      requires Valid()
      modifies `calls, `lastRaise, `terminated, `cloud, `contended, `stages, `jobNamed
      ensures Valid() && stages == old(stages) + [EdgeStage, EndpointStage, ModelStage, JobStage, InventoryStage]
      ensures code in {Some(0), Some(2)} ==> Gone(cloud) && !cloud.others && calls > 1
      ensures code in {Some(0), Some(2)} && snapshotTaken ==> Good(calls - 2)
      ensures code == Some(0) ==> passed
      ensures !Contending(old(cloud)) ==> contended == old(contended)
      ensures calls > old(calls) && (code.Some? <==> recorded && !script(calls - 1).raises)
      ensures FineFrom(old(calls)) ==> (code.Some? <==> recorded)
      ensures FineFrom(old(calls)) && !old(cloud).others && recorded ==>
                && (if Stranded(old(calls), old(Now())) then code == Some(3) else code == Some(if passed then 0 else 2))
                && (code == Some(3) ==> cloud == Cloud(false, false, false, Running, false))
    {
      hide StopsAt, Signalled, Stranded, JobsEnd;
      var clean := CleanUp();
      var wrote, verdict := Ask();
      if !recorded || !wrote {
        return None;
      }
      code := Some(if passed && clean then 0 else if clean then 2 else 3);
    }

    /** `execute`, from its first check: an exit code, or nothing if writing the state file raised. */
    method Execute() returns (code: Option<int>)
      requires Valid() && !contended && !Contending(cloud) && !passed && !jobNamed && stages == []
      requires !nativePassed && !validated
      modifies this
      ensures stages == [EdgeStage, EndpointStage, ModelStage, JobStage, InventoryStage]
      ensures !contended
      ensures code in {Some(0), Some(2)} ==> Gone(cloud) && !cloud.others && calls > 1
      ensures code in {Some(0), Some(2)} && snapshotTaken ==> Good(calls - 2)
      ensures code == Some(0) ==> Attested() && snapshotTaken
      ensures calls > 0 && (code.Some? ==> !script(calls - 1).raises)
      ensures FineFrom(cleanupStart) && !old(cloud).others && code.Some? ==>
                && (code.value in {0, 2} <==> !Stranded(cleanupStart, atCleanup))
                && (code.value in {0, 2, 3})
                && (code.value == 3 ==> cloud == Cloud(false, false, false, Running, false))
      ensures FineFrom(old(calls)) && Quiet() && Gone(old(cloud)) && !old(cloud).others ==> code == Some(0)
      ensures FineFrom(old(calls)) && Gone(old(cloud)) && !old(cloud).others
              && StopsAt(old(calls) + 8, old(calls) + 8) ==>
                && code.Some? && cleanupStart == old(calls) + 10
                && atCleanup == Snapshot(old(cloud).(job := Running), true, old(edgeAttempted), old(uploadAttempted))
    {
      hide StopsAt, Signalled, Stranded, Attested, JobsEnd, FineFrom, Gone, Quiet;
      var done := Phases();
      FineLater(old(calls), calls);
      var recorded, verdict := true, true;
      if !done {
        recorded, verdict := Ask();
      }
      cleanupStart, atCleanup := calls, Now();
      FineLater(old(calls), calls);
      QuietNeverStrands(cleanupStart, atCleanup);
      code := WindDown(recorded);
    }
  }

  /** Without faults: a signal during the first read of the job's state, and a job that takes its time to end. */
  function SignalEarly(k: nat): Event {
    Event(false, true, true, k == 8, k > 20)
  }

  /** The teardown cancels the job, gives up waiting for it, never deletes it, and the exit code says so. */
  method TerminatedRunLeavesJob() returns (code: Option<int>, left: Cloud)
    ensures code == Some(3) && left == Cloud(false, false, false, Running, false)
  {
    var run := new Run(SignalEarly, k => if k > 20 then k else 21, Cloud(false, false, false, Absent, false));
    hide Run.Attested, Run.NativePasses, Run.ValidatorPasses, Run.Good, Run.JobsEnd;
    assert run.FineFrom(0);
    assert run.script(8).signal;
    assert run.StopsAt(8, 8);
    code := run.Execute();
    assert run.Stranded(10, Snapshot(Cloud(false, false, false, Running, false), true, false, false)) by {
      assert run.StopsAt(16, 16);
    }
    left := run.cloud;
  }
}
