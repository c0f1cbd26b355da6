/** The life of a job that the API process runs itself: cancel requests mark the record
    before they signal the process. */
module LocalRunner {
  import opened Wrappers
  import opened RunnerManager

  /** What has to go when the job ends: the remembered secrets and the secret files. */
  datatype Secrets = Secrets(remembered: bool, files: bool)

  /** `interrupted` says that a request has signalled the process or stopped its container,
      `killed` that the process ended because of it. */
  datatype Process = Process(alive: bool, interrupted: bool, killed: bool)

  datatype Local = Local(meta: Meta, process: Process, secrets: Secrets)

  function Signal(p: Process, n: Names): Process {
    if n.pid.Some? && n.pid.value > 0 then p.(interrupted := true) else p
  }

  function Stop(p: Process, n: Names): Process {
    if n.container != "" then p.(interrupted := true) else p
  }

  // ---------- a cancel request ----------

  const L_READ := 0
  const L_WRITE := 1
  const L_SIGNAL := 2
  const L_STOP := 3
  const L_CLEAN := 4
  const L_FORGET := 5
  const L_DONE := 6

  predicate CanRequest(c: Cancel) {
    c.at == L_READ || (c.seen.Some? && c.at < L_DONE)
  }

  function RequestNext(c: Cancel, j: Local): Cancel
    requires CanRequest(c)
  {
    if c.at == L_READ then Cancel(if IsTerminal(j.meta.status) then L_DONE else L_WRITE, Some(j.meta)) else c.(at := c.at + 1)
  }

  function RequestEffect(c: Cancel, j: Local, now: int): Local
    requires CanRequest(c)
  {
    if c.at == L_READ then j
    else if c.at == L_WRITE then j.(meta := MarkCanceled(c.seen.value, now))
    else if c.at == L_SIGNAL then j.(process := Signal(j.process, c.seen.value.names))
    else if c.at == L_STOP then j.(process := Stop(j.process, c.seen.value.names))
    else if c.at == L_CLEAN then j.(secrets := j.secrets.(files := false))
    else j.(secrets := j.secrets.(remembered := false))
  }

  // ---------- the finalizer ----------

  const E_WAIT := 0
  const E_CLEAN := 1
  const E_FORGET := 2
  const E_READ := 3
  const E_WRITE := 4
  const E_DONE := 5

  predicate CanEnd(f: Finalizer) {
    E_WAIT < f.at < E_DONE && (f.at == E_WRITE ==> f.seen.Some?)
  }

  function EndNext(f: Finalizer, j: Local): Finalizer
    requires CanEnd(f)
  {
    f.(at := f.at + 1, seen := if f.at == E_READ then Some(j.meta) else f.seen)
  }

  function EndEffect(f: Finalizer, j: Local, now: int): Local
    requires CanEnd(f)
  {
    if f.at == E_CLEAN then j.(secrets := j.secrets.(files := false))
    else if f.at == E_FORGET then j.(secrets := j.secrets.(remembered := false))
    else if f.at == E_READ then j
    else j.(meta := Verdict(f.seen.value, f.code, now))
  }

  // ---------- runs ----------

  datatype LocalState = LocalState(job: Local, cancels: seq<Cancel>, finalizer: Finalizer)

  predicate IsEnabled(s: LocalState, step: Step) {
    match step
    case Arrive => true
    case CancelStep(i, _) => i < |s.cancels| && CanRequest(s.cancels[i])
    case FinalizerStep(_) => CanEnd(s.finalizer)
    case Exit(_) => s.job.process.alive && s.finalizer.at == E_WAIT
    case Killed(_) => s.job.process.alive && s.job.process.interrupted && s.finalizer.at == E_WAIT
    case ContainerEnds => true
    case Sweep(_, _, _) => true
  }

  function After(s: LocalState, step: Step): LocalState
    requires IsEnabled(s, step)
  {
    match step
    case Arrive => s.(cancels := s.cancels + [Cancel(L_READ, None)])
    case CancelStep(i, now) =>
      s.(job := RequestEffect(s.cancels[i], s.job, now), cancels := s.cancels[i := RequestNext(s.cancels[i], s.job)])
    case FinalizerStep(now) =>
      s.(job := EndEffect(s.finalizer, s.job, now), finalizer := EndNext(s.finalizer, s.job))
    case Exit(code) =>
      s.(job := s.job.(process := s.job.process.(alive := false)), finalizer := Finalizer(E_CLEAN, code, None))
    case Killed(code) =>
      s.(job := s.job.(process := s.job.process.(alive := false, killed := true)), finalizer := Finalizer(E_CLEAN, code, None))
    // of a local job only the client is modelled
    case ContainerEnds => s
    case Sweep(_, _, _) => s
  }

  predicate CanRun(s: LocalState, steps: seq<Step>)
    decreases |steps|
  {
    steps == [] || (IsEnabled(s, steps[0]) && CanRun(After(s, steps[0]), steps[1..]))
  }

  function AfterAll(s: LocalState, steps: seq<Step>): LocalState
    requires CanRun(s, steps)
    decreases |steps|
  {
    if steps == [] then s else AfterAll(After(s, steps[0]), steps[1..])
  }

  /** `create` has written `running` and started the finalizer. */
  predicate IsStarted(s: LocalState) {
    && s.job.meta.status == Running && s.job.process == Process(true, false, false)
    && s.cancels == [] && s.finalizer == Finalizer(E_WAIT, 0, None)
  }

  /** A request that acts marks the record before it interrupts the process. */
  predicate RequestHolds(c: Cancel, j: Local) {
    && c.at <= L_DONE
    && (c.at > L_READ ==> c.seen.Some?)
    && (c.seen.Some? && !Acts(c) ==> c.at == L_DONE && IsTerminal(j.meta.status))
    && (Acts(c) ==> c.at > L_READ && (c.at > L_WRITE ==> IsTerminal(j.meta.status)))
  }

  predicate EndHolds(f: Finalizer, j: Local) {
    && f.at <= E_DONE
    && (f.at == E_WAIT <==> j.process.alive)
    && (f.at > E_READ ==> f.seen.Some?)
    && (f.at > E_CLEAN ==> !j.secrets.files)
    && (f.at > E_FORGET ==> !j.secrets.remembered)
    && (f.at <= E_WRITE && IsTerminal(j.meta.status) ==> j.meta.status == Canceled)
    && (f.at == E_WRITE && IsTerminal(f.seen.value.status) ==> f.seen.value.status == j.meta.status == Canceled)
    && (f.at > E_WRITE ==> IsTerminal(j.meta.status))
  }

  /** A process can only be interrupted by a request that has marked the record before, so
      once it is interrupted while alive, or killed, everybody who reads the record from then
      on reads `canceled`. */
  predicate KillHolds(s: LocalState) {
    var p := s.job.process;
    && (p.alive && p.interrupted ==> s.job.meta.status == Canceled)
    && (p.killed ==> !p.alive && s.job.meta.status == Canceled
                     && (s.finalizer.at == E_WRITE ==> s.finalizer.seen.Some? && s.finalizer.seen.value.status == Canceled))
  }

  ghost predicate LocalInv(s: LocalState) {
    && (forall k | 0 <= k < |s.cancels| :: RequestHolds(s.cancels[k], s.job))
    && EndHolds(s.finalizer, s.job) && KillHolds(s)
    && (IsTerminal(s.job.meta.status) ==> s.job.meta.finishedAt.Some?)
  }

  lemma RequestStepKeeps(s: LocalState, i: nat, now: int)
    requires LocalInv(s) && IsEnabled(s, CancelStep(i, now))
    ensures LocalInv(After(s, CancelStep(i, now)))
  {
    var t := After(s, CancelStep(i, now));
    assert RequestHolds(s.cancels[i], s.job);
    forall k | 0 <= k < |t.cancels| ensures RequestHolds(t.cancels[k], t.job) {
      assert RequestHolds(s.cancels[k], s.job);
    }
  }

  lemma LocalStepKeeps(s: LocalState, step: Step)
    requires LocalInv(s) && IsEnabled(s, step)
    ensures LocalInv(After(s, step))
  {
    match step
    case CancelStep(i, now) => RequestStepKeeps(s, i, now);
    case Arrive =>
    case FinalizerStep(_) =>
    case Exit(_) =>
    case Killed(_) =>
    case ContainerEnds =>
    case Sweep(_, _, _) =>
  }

  lemma {:induction false} LocalRunKeeps(s: LocalState, steps: seq<Step>)
    requires LocalInv(s) && CanRun(s, steps)
    ensures LocalInv(AfterAll(s, steps))
    decreases |steps|
  {
    hide LocalInv;
    if steps != [] {
      LocalStepKeeps(s, steps[0]);
      LocalRunKeeps(After(s, steps[0]), steps[1..]);
    }
  }

  /** A process that a cancel request ended always shows as cancelled, from the moment it
      ends and in every interleaving. */
  lemma KilledIsCanceled(s: LocalState, steps: seq<Step>)
    requires IsStarted(s) && CanRun(s, steps)
    ensures var t := AfterAll(s, steps); t.job.process.killed ==> t.job.meta.status == Canceled
  {
    LocalRunKeeps(s, steps);
  }

  /** Once the finalizer is done, the job has a verdict and an end time, and neither secret
      files nor remembered secrets are left. */
  lemma EndedMeansForgotten(s: LocalState, steps: seq<Step>)
    requires IsStarted(s) && CanRun(s, steps) && AfterAll(s, steps).finalizer.at == E_DONE
    ensures var job := AfterAll(s, steps).job;
            IsTerminal(job.meta.status) && job.meta.finishedAt.Some? && job.secrets == Secrets(false, false)
  {
    LocalRunKeeps(s, steps);
  }

  /** The finalizer has read an unfinished record that it still has to write back. */
  predicate FinalizerIsStale(s: LocalState) {
    s.finalizer.at == E_WRITE && s.finalizer.seen.Some? && !IsTerminal(s.finalizer.seen.value.status)
  }

  /** Nobody holds a record from before the verdict that still has to be written back. */
  predicate IsStanding(s: LocalState) {
    && (s.job.meta.status.Succeeded? || s.job.meta.status.Failed? ==>
          forall c | c in s.cancels :: !Acts(c) || c.at > L_WRITE)
    && (s.job.meta.status.Canceled? ==> !FinalizerIsStale(s))
  }

  lemma RequestStands(s: LocalState, i: nat, now: int)
    requires LocalInv(s) && IsTerminal(s.job.meta.status) && IsStanding(s) && IsEnabled(s, CancelStep(i, now))
    ensures var t := After(s, CancelStep(i, now)); IsStanding(t) && t.job.meta.status == s.job.meta.status
  {
    var t, c := After(s, CancelStep(i, now)), s.cancels[i];
    assert RequestHolds(c, s.job) && c in s.cancels;
    forall d | d in t.cancels ensures d in s.cancels || d == RequestNext(c, s.job) {
    }
  }

  lemma StandingStep(s: LocalState, step: Step)
    requires LocalInv(s) && IsTerminal(s.job.meta.status) && IsStanding(s) && IsEnabled(s, step)
    ensures var t := After(s, step); IsStanding(t) && t.job.meta.status == s.job.meta.status
  {
    match step
    case CancelStep(i, now) => RequestStands(s, i, now);
    case Arrive =>
      forall d | d in After(s, step).cancels ensures d in s.cancels || d == Cancel(L_READ, None) {
      }
    case FinalizerStep(_) =>
    case Exit(_) =>
    case Killed(_) =>
    case ContainerEnds =>
    case Sweep(_, _, _) =>
  }

  lemma {:induction false} StandingRun(s: LocalState, steps: seq<Step>)
    requires LocalInv(s) && IsTerminal(s.job.meta.status) && IsStanding(s) && CanRun(s, steps)
    ensures AfterAll(s, steps).job.meta.status == s.job.meta.status
    decreases |steps|
  {
    hide LocalInv, IsStanding;
    if steps != [] {
      LocalStepKeeps(s, steps[0]);
      StandingStep(s, steps[0]);
      StandingRun(After(s, steps[0]), steps[1..]);
    }
  }

  lemma NotStandingStep(s: LocalState) returns (step: Step)
    requires LocalInv(s) && IsTerminal(s.job.meta.status) && !IsStanding(s)
    ensures IsEnabled(s, step) && After(s, step).job.meta.status != s.job.meta.status
  {
    if s.job.meta.status.Canceled? {
      step := FinalizerStep(0);
    } else {
      var c :| c in s.cancels && Acts(c) && c.at <= L_WRITE;
      var i :| 0 <= i < |s.cancels| && s.cancels[i] == c;
      assert RequestHolds(s.cancels[i], s.job);
      step := CancelStep(i, 0);
    }
  }

  /** A verdict stands in every continuation if and only if nobody holds an unfinished record
      that still has to be written: for a cancellation the finalizer, for another verdict a
      request. */
  lemma VerdictStands(s: LocalState)
    requires LocalInv(s) && IsTerminal(s.job.meta.status)
    ensures (forall steps | CanRun(s, steps) :: AfterAll(s, steps).job.meta.status == s.job.meta.status) <==> IsStanding(s)
  {
    hide LocalInv, CanRun, AfterAll, IsStanding;
    if IsStanding(s) {
      forall steps | CanRun(s, steps) ensures AfterAll(s, steps).job.meta.status == s.job.meta.status {
        StandingRun(s, steps);
      }
    } else {
      var step := NotStandingStep(s);
      AfterOne(s, step);
    }
  }

  /** A cancellation stands in every continuation if and only if the finalizer did not read
      the record before it. */
  lemma CancellationStands(s: LocalState)
    requires LocalInv(s) && s.job.meta.status == Canceled
    ensures (forall steps | CanRun(s, steps) :: AfterAll(s, steps).job.meta.status == Canceled) <==> !FinalizerIsStale(s)
  {
    hide LocalInv, CanRun, AfterAll;
    VerdictStands(s);
  }

  lemma {:induction false} AfterThen(s: LocalState, a: seq<Step>, b: seq<Step>)
    requires CanRun(s, a) && CanRun(AfterAll(s, a), b)
    ensures CanRun(s, a + b) && AfterAll(s, a + b) == AfterAll(AfterAll(s, a), b)
    decreases |a|
  {
    if a == [] {
      assert a + b == b;
    } else {
      assert (a + b)[1..] == a[1..] + b;
      AfterThen(After(s, a[0]), a[1..], b);
    }
  }

  lemma {:induction false} AfterOne(s: LocalState, step: Step)
    requires IsEnabled(s, step)
    ensures CanRun(s, [step]) && AfterAll(s, [step]) == After(s, step)
  {
    assert [step][1..] == [];
  }

  /** The job ends by itself and its finalizer reads the record. */
  lemma {:induction false} FinalizerReadsFirst(s: LocalState) returns (steps: seq<Step>)
    requires IsStarted(s)
    ensures CanRun(s, steps)
    ensures var t := AfterAll(s, steps);
            t.finalizer == Finalizer(E_WRITE, 0, Some(s.job.meta)) && t.cancels == [] && t.job.meta == s.job.meta
  {
    hide CanRun, AfterAll;
    var f := FinalizerStep(0);
    var s1 := After(s, Exit(0));
    var s2 := After(s1, f);
    var s3 := After(s2, f);
    AfterOne(s, Exit(0)); AfterOne(s1, f); AfterOne(s2, f); AfterOne(s3, f);
    AfterThen(s2, [f], [f]);
    AfterThen(s1, [f], [f] + [f]);
    AfterThen(s, [Exit(0)], [f] + ([f] + [f]));
    steps := [Exit(0)] + ([f] + ([f] + [f]));
  }

  /** A cancellation does get lost in runs from a started job: a request that comes when the
      finalizer has read the record marks it, and the finalizer then writes its verdict. */
  lemma {:induction false} CancellationCanBeLost(s: LocalState) returns (a: seq<Step>, b: seq<Step>)
    requires IsStarted(s)
    ensures CanRun(s, a) && AfterAll(s, a).job.meta.status == Canceled
    ensures CanRun(AfterAll(s, a), b) && AfterAll(AfterAll(s, a), b).job.meta.status == Succeeded
  {
    hide CanRun, AfterAll;
    var first := FinalizerReadsFirst(s);
    var c := CancelStep(0, 1);
    var s1 := AfterAll(s, first);
    var s2 := After(s1, Arrive);
    var s3 := After(s2, c);
    var s4 := After(s3, c);
    AfterOne(s1, Arrive); AfterOne(s2, c); AfterOne(s3, c); AfterOne(s4, FinalizerStep(2));
    AfterThen(s2, [c], [c]);
    AfterThen(s1, [Arrive], [c] + [c]);
    AfterThen(s, first, [Arrive] + ([c] + [c]));
    a := first + ([Arrive] + ([c] + [c]));
    b := [FinalizerStep(2)];
  }

  lemma {:induction false} RequestReadsRunning(s: LocalState) returns (steps: seq<Step>)
    requires IsStarted(s)
    ensures CanRun(s, steps)
    ensures var t := AfterAll(s, steps);
            && t.cancels == [Cancel(L_WRITE, Some(s.job.meta))] && t.finalizer == Finalizer(E_CLEAN, 0, None)
            && t.job.meta == s.job.meta
  {
    hide CanRun, AfterAll;
    var c := CancelStep(0, 1);
    var s1 := After(s, Arrive);
    var s2 := After(s1, c);
    AfterOne(s, Arrive); AfterOne(s1, c); AfterOne(s2, Exit(0));
    AfterThen(s1, [c], [Exit(0)]);
    AfterThen(s, [Arrive], [c] + [Exit(0)]);
    steps := [Arrive] + ([c] + [Exit(0)]);
  }

  lemma {:induction false} FinalizerRuns(s: LocalState) returns (steps: seq<Step>)
    requires E_CLEAN <= s.finalizer.at <= E_DONE && (s.finalizer.at == E_WRITE ==> s.finalizer.seen == Some(s.job.meta))
    requires s.job.meta.status == Running || s.finalizer.at == E_DONE
    ensures CanRun(s, steps)
    ensures var t := AfterAll(s, steps);
            && t.finalizer.at == E_DONE && t.cancels == s.cancels
            && t.job.meta == if s.finalizer.at == E_DONE then s.job.meta else Verdict(s.job.meta, s.finalizer.code, 0)
    decreases E_DONE - s.finalizer.at
  {
    steps := [];
    if s.finalizer.at < E_DONE {
      var rest := FinalizerRuns(After(s, FinalizerStep(0)));
      steps := [FinalizerStep(0)] + rest;
      assert steps[1..] == rest;
    }
  }

  /** A success does get lost in runs from a started job: the request reads `running`, the job
      succeeds and is finalised, and then the request marks it as cancelled. */
  lemma {:induction false} LocalSuccessCanBeLost(s: LocalState) returns (a: seq<Step>, b: seq<Step>)
    requires IsStarted(s)
    ensures CanRun(s, a) && AfterAll(s, a).finalizer.at == E_DONE && AfterAll(s, a).job.meta.status == Succeeded
    ensures CanRun(AfterAll(s, a), b) && AfterAll(AfterAll(s, a), b).job.meta.status == Canceled
  {
    hide CanRun, AfterAll;
    var first := RequestReadsRunning(s);
    var s1 := AfterAll(s, first);
    var rest := FinalizerRuns(s1);
    AfterThen(s, first, rest);
    a := first + rest;
    b := [CancelStep(0, 2)];
    AfterOne(AfterAll(s, a), CancelStep(0, 2));
  }

  // ---------- the operations as the runner performs them ----------

  function RequestToEnd(c: Cancel, j: Local, now: int): Local
    decreases L_DONE - c.at
  {
    if !CanRequest(c) then j else RequestToEnd(RequestNext(c, j), RequestEffect(c, j, now), now)
  }

  function EndToEnd(f: Finalizer, j: Local, now: int): Local
    decreases E_DONE - f.at
  {
    if !CanEnd(f) then j else EndToEnd(EndNext(f, j), EndEffect(f, j, now), now)
  }

  lemma RequestAlone(j: Local, now: int)
    ensures RequestToEnd(Cancel(L_READ, None), j, now)
         == if IsTerminal(j.meta.status) then j
            else Local(MarkCanceled(j.meta, now), Stop(Signal(j.process, j.meta.names), j.meta.names), Secrets(false, false))
  {
    var seen, m := Some(j.meta), MarkCanceled(j.meta, now);
    var p := Signal(j.process, j.meta.names);
    var q := Stop(p, j.meta.names);
    if !IsTerminal(j.meta.status) {
      calc {
        RequestToEnd(Cancel(L_READ, None), j, now);
        RequestToEnd(Cancel(L_WRITE, seen), j, now);
        RequestToEnd(Cancel(L_SIGNAL, seen), j.(meta := m), now);
        RequestToEnd(Cancel(L_STOP, seen), Local(m, p, j.secrets), now);
        RequestToEnd(Cancel(L_CLEAN, seen), Local(m, q, j.secrets), now);
        RequestToEnd(Cancel(L_FORGET, seen), Local(m, q, j.secrets.(files := false)), now);
        RequestToEnd(Cancel(L_DONE, seen), Local(m, q, Secrets(false, false)), now);
        Local(m, q, Secrets(false, false));
      }
    }
  }

  lemma EndAlone(j: Local, code: int, now: int)
    ensures EndToEnd(Finalizer(E_CLEAN, code, None), j, now) == Local(Verdict(j.meta, code, now), j.process, Secrets(false, false))
  {
    var gone, m := Secrets(false, false), Verdict(j.meta, code, now);
    calc {
      EndToEnd(Finalizer(E_CLEAN, code, None), j, now);
      EndToEnd(Finalizer(E_FORGET, code, None), j.(secrets := j.secrets.(files := false)), now);
      EndToEnd(Finalizer(E_READ, code, None), j.(secrets := gone), now);
      EndToEnd(Finalizer(E_WRITE, code, Some(j.meta)), j.(secrets := gone), now);
      EndToEnd(Finalizer(E_DONE, code, Some(j.meta)), Local(m, j.process, gone), now);
      Local(m, j.process, gone);
    }
  }

  /** Everything an uninterrupted cancel of an unfinished job leaves: the record is marked, a named
      process or container is interrupted, and no secrets are left. */
  lemma RequestLeaves(j: Local, now: int)
    requires !IsTerminal(j.meta.status)
    ensures var k, n := RequestToEnd(Cancel(L_READ, None), j, now), j.meta.names;
            && k.meta == Meta(Canceled, Some(now), j.meta.exitCode, n) && k.secrets == Secrets(false, false)
            && k.process.alive == j.process.alive && k.process.killed == j.process.killed
            && (k.process.interrupted <==> j.process.interrupted || (n.pid.Some? && n.pid.value > 0) || n.container != "")
  {
    RequestAlone(j, now);
  }

  /** How far a start gets. */
  datatype LocalCourse = PreparationFails | LaunchFails | Launched(pid: int)

  class LocalJob {
    const managed: bool
    var record: Option<Meta>
    var process: Process
    var secrets: Secrets

    ghost function Abstract(): Local
      requires record.Some?
      reads this
    {
      Local(record.value, process, secrets)
    }

    /** The record is queued before anything starts. When choosing version and image or building
        the command fails, it stays queued and the secrets stay where they are. A start that
        fails later leaves a failed job and no secrets; one that succeeds is where the runs of
        the protocol begin, unless the runner manager goes on with the job. */
    method Start(names: Names, course: LocalCourse, now: int) returns (ok: bool)
      requires course.Launched? ==> course.pid > 0
      modifies this
      ensures ok == course.Launched? && record.Some?
      ensures !ok ==> process == old(process)
      ensures course.PreparationFails? ==> record.value.status == Queued && secrets == Secrets(true, true)
      ensures course.LaunchFails? ==>
                && record.value.status == Failed && record.value.finishedAt == Some(now) && record.value.exitCode == Some(127)
                && secrets == Secrets(false, false)
      ensures ok && !managed ==> IsStarted(LocalState(Abstract(), [], Finalizer(E_WAIT, 0, None)))
      ensures ok && managed ==> record.value.status == Queued && secrets == Secrets(true, true) && process == old(process)
    {
      var meta := Meta(Queued, None, None, names.(pid := None));
      record := Some(meta);
      secrets := Secrets(true, true);
      if course.PreparationFails? {
        return false;
      }
      if course.LaunchFails? {
        record := Some(meta.(status := Failed, finishedAt := Some(now), exitCode := Some(127)));
        secrets := secrets.(remembered := false);
        secrets := secrets.(files := false);
        return false;
      }
      if managed {
        return true;
      }
      process := Process(true, false, false);
      record := Some(meta.(status := Running, names := names.(pid := Some(course.pid))));
      return true;
    }

    /** A job that the runner manager executes is cancelled there; only the remembered
        secrets are dropped here. */
    method CancelJob(now: int, managerAgrees: bool) returns (ok: bool)
      modifies this
      ensures old(record).None? ==> !ok && record.None? && process == old(process) && secrets == old(secrets)
      ensures old(record).Some? && managed && !IsTerminal(old(record).value.status) ==>
                ok == managerAgrees && record == old(record) && process == old(process)
                && secrets == old(secrets).(remembered := false)
      ensures old(record).Some? && (!managed || IsTerminal(old(record).value.status)) ==>
                ok && record.Some? && Abstract() == RequestToEnd(Cancel(L_READ, None), old(Abstract()), now)
    {
      if record.None? {
        return false;
      }
      RequestAlone(Abstract(), now);
      var meta := record.value;
      if IsTerminal(meta.status) {
        return true;
      }
      if managed {
        secrets := secrets.(remembered := false);
        return managerAgrees;
      }
      meta := meta.(status := Canceled, finishedAt := Some(now));
      record := Some(meta);
      process := Signal(process, meta.names);
      process := Stop(process, meta.names);
      secrets := secrets.(files := false);
      secrets := secrets.(remembered := false);
      return true;
    }

    method WaitAndFinalize(code: int, now: int)
      requires record.Some?
      modifies this
      ensures record.Some? && Abstract() == EndToEnd(Finalizer(E_CLEAN, code, None), old(Abstract()), now)
    {
      EndAlone(Abstract(), code, now);
      secrets := secrets.(files := false);
      secrets := secrets.(remembered := false);
      var meta := record.value;
      if meta.status == Canceled {
        if meta.finishedAt.None? {
          meta := meta.(finishedAt := Some(now));
        }
        record := Some(meta);
        return;
      }
      meta := meta.(finishedAt := Some(now), exitCode := Some(code));
      meta := meta.(status := if code == 0 then Succeeded else Failed);
      record := Some(meta);
    }
  }
}
