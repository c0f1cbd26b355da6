/** The life of one job in the runner manager: any number of cancel requests beside the
    finalizer, interleaved step by step on the job record and the job's artifacts. */
module RunnerManager {
  import opened Wrappers

  datatype Status = Queued | Running | Succeeded | Failed | Canceled

  predicate IsTerminal(s: Status) {
    s.Succeeded? || s.Failed? || s.Canceled?
  }

  /** What `create` recorded about the process and the artifacts; an absent name is empty. */
  datatype Names = Names(pid: Option<int>, container: string, network: string, targets: seq<string>, volume: string)

  /** The job record. Reading and writing it are single steps, because a write renames a
      finished file over the record. */
  datatype Meta = Meta(status: Status, finishedAt: Option<int>, exitCode: Option<int>, names: Names)

  /** The docker client process, the container it started and what else has to be released. */
  datatype World = World(client: bool, container: bool, signalled: bool, attached: set<string>, network: bool,
                         volume: bool, keyFile: bool, secretsDir: bool)

  datatype Job = Job(meta: Meta, world: World)

  // ---------- single operations ----------

  function Terminate(w: World, n: Names): World {
    if n.pid.Some? && n.pid.value > 0 then w.(signalled := true) else w
  }

  function StopContainer(w: World, n: Names): World {
    if n.container != "" then w.(container := false) else w
  }

  function Named(targets: seq<string>): set<string> {
    set t | t in targets && t != ""
  }

  function Detach(w: World, n: Names): World {
    if n.network == "" then w else w.(attached := w.attached - Named(n.targets))
  }

  /** Docker refuses to remove a network to which something is attached. */
  function RemoveNetwork(w: World, n: Names): World {
    if n.network != "" && w.attached == {} && !w.container then w.(network := false) else w
  }

  /** Docker refuses to remove a volume that a container mounts. */
  function RemoveVolume(w: World, n: Names): World {
    if n.volume != "" && !w.container then w.(volume := false) else w
  }

  function MarkCanceled(seen: Meta, now: int): Meta {
    seen.(status := Canceled, finishedAt := Some(now))
  }

  function Verdict(seen: Meta, code: int, now: int): Meta {
    if seen.status.Canceled? then seen.(finishedAt := Some(if seen.finishedAt.Some? then seen.finishedAt.value else now))
    else seen.(status := if code == 0 then Succeeded else Failed, finishedAt := Some(now), exitCode := Some(code))
  }

  // ---------- a cancel request ----------

  const READ := 0
  const SIGNAL := 1
  const STOP := 2
  const DETACH := 3
  const REMOVE_NETWORK := 4
  const WRITE := 5
  const REMOVE_KEY := 6
  const REMOVE_DIR := 7
  const REMOVE_VOLUME := 8
  const DONE := 9

  /** A request knows the record only as it was when it read it. */
  datatype Cancel = Cancel(at: nat, seen: Option<Meta>)

  /** The request found the job unfinished. */
  predicate Acts(c: Cancel) {
    c.seen.Some? && !IsTerminal(c.seen.value.status)
  }

  predicate CanCancel(c: Cancel) {
    c.at == READ || (c.seen.Some? && c.at < DONE)
  }

  function CancelNext(c: Cancel, j: Job): Cancel
    requires CanCancel(c)
  {
    if c.at == READ then Cancel(if IsTerminal(j.meta.status) then DONE else SIGNAL, Some(j.meta)) else c.(at := c.at + 1)
  }

  function CancelEffect(c: Cancel, j: Job, now: int): Job
    requires CanCancel(c)
  {
    if c.at == READ then j
    else
      var (seen, w) := (c.seen.value, j.world);
      var n := seen.names;
      if c.at == SIGNAL then j.(world := Terminate(w, n))
      else if c.at == STOP then j.(world := StopContainer(w, n))
      else if c.at == DETACH then j.(world := Detach(w, n))
      else if c.at == REMOVE_NETWORK then j.(world := RemoveNetwork(w, n))
      else if c.at == WRITE then j.(meta := MarkCanceled(seen, now))
      else if c.at == REMOVE_KEY then j.(world := w.(keyFile := false))
      else if c.at == REMOVE_DIR then j.(world := w.(secretsDir := false))
      else j.(world := RemoveVolume(w, n))
  }

  // ---------- the finalizer ----------

  const F_WAIT := 0
  const F_READ := 1
  const F_WRITE := 2
  const F_DETACH := 3
  const F_REMOVE_NETWORK := 4
  const F_REMOVE_KEY := 5
  const F_REMOVE_DIR := 6
  const F_REMOVE_VOLUME := 7
  const F_DONE := 8

  datatype Finalizer = Finalizer(at: nat, code: int, seen: Option<Meta>)

  predicate CanFinalize(f: Finalizer) {
    f.at == F_READ || (f.seen.Some? && F_READ < f.at < F_DONE)
  }

  function FinalizerNext(f: Finalizer, j: Job): Finalizer
    requires CanFinalize(f)
  {
    f.(at := f.at + 1, seen := if f.at == F_READ then Some(j.meta) else f.seen)
  }

  function FinalizerEffect(f: Finalizer, j: Job, now: int): Job
    requires CanFinalize(f)
  {
    if f.at == F_READ then j
    else
      var (seen, w) := (f.seen.value, j.world);
      var n := seen.names;
      if f.at == F_WRITE then j.(meta := Verdict(seen, f.code, now))
      else if f.at == F_DETACH then j.(world := Detach(w, n))
      else if f.at == F_REMOVE_NETWORK then j.(world := RemoveNetwork(w, n))
      else if f.at == F_REMOVE_KEY then j.(world := w.(keyFile := false))
      else if f.at == F_REMOVE_DIR then j.(world := w.(secretsDir := false))
      else j.(world := RemoveVolume(w, n))
  }

  // ---------- runs ----------

  datatype State = State(job: Job, cancels: seq<Cancel>, finalizer: Finalizer)

  /** What may happen next: a request arrives, a request or the finalizer takes a step, the
      container ends and its client with it, a signal ends the client alone, the container that
      it left behind ends by itself, or the orphan sweep passes, with the listings that work. */
  datatype Step = Arrive | CancelStep(i: nat, now: int) | FinalizerStep(now: int) | Exit(code: int) | Killed(code: int)
                | ContainerEnds | Sweep(runners: bool, networks: bool, volumes: bool)

  /** What a sweep does to a job that is not active. It detaches nothing. */
  function SweptWorld(w: World, n: Names, runners: bool, networks: bool, volumes: bool): World {
    var w1 := if runners then w.(container := false) else w;
    var w2 := if networks then RemoveNetwork(w1, n) else w1;
    if volumes then RemoveVolume(w2, n) else w2
  }

  predicate Enabled(s: State, step: Step) {
    match step
    case Arrive => true
    case CancelStep(i, _) => i < |s.cancels| && CanCancel(s.cancels[i])
    case FinalizerStep(_) => CanFinalize(s.finalizer)
    case Exit(_) => s.job.world.client && s.finalizer.at == F_WAIT
    case Killed(_) => s.job.world.client && s.job.world.signalled && s.finalizer.at == F_WAIT
    case ContainerEnds => s.job.world.container && !s.job.world.client
    case Sweep(_, _, _) => true
  }

  function Next(s: State, step: Step): State
    requires Enabled(s, step)
  {
    match step
    case Arrive => s.(cancels := s.cancels + [Cancel(READ, None)])
    case CancelStep(i, now) =>
      s.(job := CancelEffect(s.cancels[i], s.job, now), cancels := s.cancels[i := CancelNext(s.cancels[i], s.job)])
    case FinalizerStep(now) =>
      s.(job := FinalizerEffect(s.finalizer, s.job, now), finalizer := FinalizerNext(s.finalizer, s.job))
    case Exit(code) =>
      s.(job := s.job.(world := s.job.world.(client := false, container := false)), finalizer := Finalizer(F_READ, code, None))
    case Killed(code) =>
      s.(job := s.job.(world := s.job.world.(client := false)), finalizer := Finalizer(F_READ, code, None))
    case ContainerEnds => s.(job := s.job.(world := s.job.world.(container := false)))
    case Sweep(runners, networks, volumes) =>
      if IsTerminal(s.job.meta.status) then
        s.(job := s.job.(world := SweptWorld(s.job.world, s.job.meta.names, runners, networks, volumes)))
      else s
  }

  predicate Runnable(s: State, steps: seq<Step>)
    decreases |steps|
  {
    steps == [] || (Enabled(s, steps[0]) && Runnable(Next(s, steps[0]), steps[1..]))
  }

  function Run(s: State, steps: seq<Step>): State
    requires Runnable(s, steps)
    decreases |steps|
  {
    if steps == [] then s else Run(Next(s, steps[0]), steps[1..])
  }

  /** `create` has written `running` and started the finalizer. */
  ghost predicate IsCreated(s: State) {
    var (m, w) := (s.job.meta, s.job.world);
    && m.status == Running && s.cancels == [] && s.finalizer == Finalizer(F_WAIT, 0, None)
    && m.names.pid.Some? && m.names.pid.value > 0 && m.names.container != ""
    && w.client && w.container && !w.signalled
    && w.attached <= Named(m.names.targets)
    && (m.names.network == "" ==> !w.network && w.attached == {})
    && (m.names.volume == "" ==> !w.volume)
  }

  predicate AllDone(s: State) {
    s.finalizer.at == F_DONE && forall c | c in s.cancels :: c.at == DONE
  }

  predicate IsReleased(w: World) {
    !w.client && !w.container && w.attached == {} && !w.network && !w.volume && !w.keyFile && !w.secretsDir
  }

  // ---------- the invariant ----------

  /** Some acting request still has a step between `from` and `to` before it. */
  ghost predicate Pending(cancels: seq<Cancel>, from: nat, to: nat) {
    exists k :: 0 <= k < |cancels| && IsPending(cancels[k], from, to)
  }

  predicate IsPending(c: Cancel, from: nat, to: nat) {
    Acts(c) && from <= c.at <= to
  }

  predicate NamesFit(n: Names, w: World) {
    && n.pid.Some? && n.pid.value > 0 && n.container != ""
    && w.attached <= Named(n.targets)
    && (n.network == "" ==> !w.network && w.attached == {})
    && (n.volume == "" ==> !w.volume)
  }

  predicate IsKnown(seen: Option<Meta>, n: Names) {
    seen.Some? ==> seen.value.names == n
  }

  /** What a request has achieved once it is past a step. */
  predicate CancelHolds(c: Cancel, j: Job) {
    && c.at <= DONE && IsKnown(c.seen, j.meta.names)
    && (c.at > READ ==> c.seen.Some?)
    && (c.seen.Some? && !Acts(c) ==> c.at == DONE && IsTerminal(j.meta.status))
    && (Acts(c) ==>
          && c.at > READ
          && (c.at > STOP ==> !j.world.container)
          && (c.at > DETACH ==> j.world.attached == {})
          && (c.at > REMOVE_NETWORK ==> !j.world.network)
          && (c.at > WRITE ==> IsTerminal(j.meta.status))
          && (c.at > REMOVE_VOLUME ==> !j.world.volume))
  }

  predicate FinalizerHolds(f: Finalizer, j: Job) {
    && f.at <= F_DONE && IsKnown(f.seen, j.meta.names)
    && (f.at == F_WAIT <==> j.world.client)
    && (f.at > F_READ ==> f.seen.Some?)
    && (f.at > F_DETACH ==> j.world.attached == {})
    && (f.at > F_REMOVE_KEY ==> !j.world.keyFile)
    && (f.at > F_REMOVE_DIR ==> !j.world.secretsDir)
    && (f.at <= F_WRITE && IsTerminal(j.meta.status) ==> j.meta.status == Canceled)
    && (f.at == F_WRITE && IsTerminal(f.seen.value.status) ==> f.seen.value.status == j.meta.status == Canceled)
    && (f.at > F_WRITE ==> IsTerminal(j.meta.status))
  }

  /** Where the finalizer's attempt failed because the container was still there, a request
      is on its way that will stop the container and try again. */
  ghost predicate Covered(s: State) {
    var w := s.job.world;
    && (w.container && (w.signalled || !w.client) ==> Pending(s.cancels, STOP, STOP))
    && (w.network && s.finalizer.at > F_REMOVE_NETWORK ==> Pending(s.cancels, STOP, REMOVE_NETWORK))
    && (w.volume && s.finalizer.at > F_REMOVE_VOLUME ==> Pending(s.cancels, STOP, REMOVE_VOLUME))
  }

  predicate StatusFits(m: Meta) {
    (IsTerminal(m.status) ==> m.finishedAt.Some?) && !m.status.Queued?
  }

  ghost predicate Inv(s: State) {
    && NamesFit(s.job.meta.names, s.job.world) && StatusFits(s.job.meta)
    && (forall k | 0 <= k < |s.cancels| :: CancelHolds(s.cancels[k], s.job))
    && FinalizerHolds(s.finalizer, s.job)
    && Covered(s)
  }

  /** Nothing that was released comes back, and a verdict is not withdrawn. */
  predicate Advances(j: Job, k: Job) {
    var (v, w) := (j.world, k.world);
    && k.meta.names == j.meta.names
    && (IsTerminal(j.meta.status) ==> IsTerminal(k.meta.status))
    && (w.client ==> v.client) && (w.container ==> v.container) && w.attached <= v.attached
    && (w.network ==> v.network) && (w.volume ==> v.volume)
    && (w.keyFile ==> v.keyFile) && (w.secretsDir ==> v.secretsDir)
  }

  lemma CancelHoldsOn(c: Cancel, j: Job, k: Job)
    requires CancelHolds(c, j) && Advances(j, k)
    ensures CancelHolds(c, k)
  {
  }

  /** Nothing is there afterwards that was not there before. */
  predicate Shrinks(v: World, w: World) {
    && w.client == v.client && (w.container ==> v.container) && w.attached <= v.attached
    && (w.network ==> v.network) && (w.volume ==> v.volume)
    && (w.keyFile ==> v.keyFile) && (w.secretsDir ==> v.secretsDir)
  }

  lemma SignalsShrink(w: World, n: Names)
    ensures Shrinks(w, Terminate(w, n)) && Shrinks(w, StopContainer(w, n))
  {
  }

  lemma DetachShrinks(w: World, n: Names)
    ensures Shrinks(w, Detach(w, n))
  {
    hide Named;
  }

  lemma RemovalsShrink(w: World, n: Names)
    ensures Shrinks(w, RemoveNetwork(w, n)) && Shrinks(w, RemoveVolume(w, n))
  {
  }

  lemma DeletionsShrink(w: World)
    ensures Shrinks(w, w) && Shrinks(w, w.(keyFile := false)) && Shrinks(w, w.(secretsDir := false))
  {
  }

  lemma ShrunkFits(n: Names, v: World, w: World)
    requires NamesFit(n, v) && Shrinks(v, w)
    ensures NamesFit(n, w)
  {
  }

  /** A step releases something or writes the record. */
  lemma CancelMoves(c: Cancel, j: Job, now: int)
    requires CancelHolds(c, j) && CanCancel(c) && NamesFit(j.meta.names, j.world) && StatusFits(j.meta)
    ensures var k := CancelEffect(c, j, now);
            && Advances(j, k) && NamesFit(k.meta.names, k.world) && StatusFits(k.meta)
            && k.world.client == j.world.client && (k.meta.status == j.meta.status || k.meta.status == Canceled)
  {
    hide Terminate, StopContainer, Detach, RemoveNetwork, RemoveVolume, NamesFit;
    SignalsShrink(j.world, j.meta.names);
    DetachShrinks(j.world, j.meta.names);
    RemovalsShrink(j.world, j.meta.names);
    DeletionsShrink(j.world);
    ShrunkFits(j.meta.names, j.world, CancelEffect(c, j, now).world);
  }

  lemma CancelAchieves(c: Cancel, j: Job, now: int)
    requires CancelHolds(c, j) && CanCancel(c) && NamesFit(j.meta.names, j.world)
    ensures CancelHolds(CancelNext(c, j), CancelEffect(c, j, now))
  {
  }

  lemma CancelAdvances(c: Cancel, j: Job, now: int)
    requires CancelHolds(c, j) && CanCancel(c) && NamesFit(j.meta.names, j.world) && StatusFits(j.meta)
    ensures var k := CancelEffect(c, j, now);
            && Advances(j, k) && NamesFit(k.meta.names, k.world) && StatusFits(k.meta)
            && CancelHolds(CancelNext(c, j), k)
            && k.world.client == j.world.client && (k.meta.status == j.meta.status || k.meta.status == Canceled)
  {
    hide *;
    CancelMoves(c, j, now);
    CancelAchieves(c, j, now);
  }

  lemma PendingStays(s: State, i: nat, now: int, from: nat, to: nat)
    requires Enabled(s, CancelStep(i, now)) && Pending(s.cancels, from, to)
    requires !(Acts(s.cancels[i]) && s.cancels[i].at == to) && CancelHolds(s.cancels[i], s.job)
    ensures Pending(Next(s, CancelStep(i, now)).cancels, from, to)
  {
    var t := Next(s, CancelStep(i, now));
    var k :| 0 <= k < |s.cancels| && IsPending(s.cancels[k], from, to);
    assert IsPending(t.cancels[k], from, to);
  }

  lemma CancelStepCovers(s: State, i: nat, now: int)
    requires Inv(s) && Enabled(s, CancelStep(i, now))
    ensures Covered(Next(s, CancelStep(i, now)))
  {
    var t, c := Next(s, CancelStep(i, now)), s.cancels[i];
    CancelAdvances(c, s.job, now);
    assert CancelHolds(c, s.job);
    var (v, w) := (s.job.world, t.job.world);
    if w.container && (w.signalled || !w.client) {
      if c.at == SIGNAL {
        assert IsPending(t.cancels[i], STOP, STOP);
      } else {
        PendingStays(s, i, now, STOP, STOP);
      }
    }
    if w.network && t.finalizer.at > F_REMOVE_NETWORK {
      PendingStays(s, i, now, STOP, REMOVE_NETWORK);
    }
    if w.volume && t.finalizer.at > F_REMOVE_VOLUME {
      PendingStays(s, i, now, STOP, REMOVE_VOLUME);
    }
  }

  lemma CancelStepKeeps(s: State, i: nat, now: int)
    requires Inv(s) && Enabled(s, CancelStep(i, now))
    ensures Inv(Next(s, CancelStep(i, now)))
  {
    hide Covered;
    var t := Next(s, CancelStep(i, now));
    CancelStepCovers(s, i, now);
    CancelAdvances(s.cancels[i], s.job, now);
    forall k | 0 <= k < |t.cancels| ensures CancelHolds(t.cancels[k], t.job) {
      if k != i { CancelHoldsOn(s.cancels[k], s.job, t.job); }
    }
  }

  lemma FinalizerMoves(f: Finalizer, j: Job, now: int)
    requires FinalizerHolds(f, j) && CanFinalize(f) && NamesFit(j.meta.names, j.world) && StatusFits(j.meta)
    ensures var k := FinalizerEffect(f, j, now);
            && Advances(j, k) && NamesFit(k.meta.names, k.world) && StatusFits(k.meta)
            && k.world.container == j.world.container && k.world.signalled == j.world.signalled
            && (f.at == F_REMOVE_NETWORK && k.world.network ==> k.world.container)
            && (f.at == F_REMOVE_VOLUME && k.world.volume ==> k.world.container)
  {
  }

  lemma FinalizerAchieves(f: Finalizer, j: Job, now: int)
    requires FinalizerHolds(f, j) && CanFinalize(f) && NamesFit(j.meta.names, j.world)
    ensures FinalizerHolds(FinalizerNext(f, j), FinalizerEffect(f, j, now))
  {
  }

  lemma FinalizerAdvances(f: Finalizer, j: Job, now: int)
    requires FinalizerHolds(f, j) && CanFinalize(f) && NamesFit(j.meta.names, j.world) && StatusFits(j.meta)
    ensures var k := FinalizerEffect(f, j, now);
            && Advances(j, k) && NamesFit(k.meta.names, k.world) && StatusFits(k.meta)
            && FinalizerHolds(FinalizerNext(f, j), k)
            && k.world.container == j.world.container && k.world.signalled == j.world.signalled
            && (f.at == F_REMOVE_NETWORK && k.world.network ==> k.world.container)
            && (f.at == F_REMOVE_VOLUME && k.world.volume ==> k.world.container)
  {
    hide *;
    FinalizerMoves(f, j, now);
    FinalizerAchieves(f, j, now);
  }

  lemma PendingWider(cancels: seq<Cancel>, from: nat, to: nat, further: nat)
    requires Pending(cancels, from, to) && to <= further
    ensures Pending(cancels, from, further)
  {
    var k :| 0 <= k < |cancels| && IsPending(cancels[k], from, to);
    assert IsPending(cancels[k], from, further);
  }

  lemma FinalizerStepKeeps(s: State, now: int)
    requires Inv(s) && Enabled(s, FinalizerStep(now))
    ensures Inv(Next(s, FinalizerStep(now)))
  {
    hide Pending;
    var t := Next(s, FinalizerStep(now));
    FinalizerAdvances(s.finalizer, s.job, now);
    forall k | 0 <= k < |t.cancels| ensures CancelHolds(t.cancels[k], t.job) {
      CancelHoldsOn(s.cancels[k], s.job, t.job);
    }
    if t.job.world.container && !t.job.world.client {
      PendingWider(s.cancels, STOP, STOP, REMOVE_NETWORK);
      PendingWider(s.cancels, STOP, STOP, REMOVE_VOLUME);
    }
  }

  lemma SweepShrinks(w: World, n: Names, runners: bool, networks: bool, volumes: bool)
    ensures Shrinks(w, SweptWorld(w, n, runners, networks, volumes))
    ensures SweptWorld(w, n, runners, networks, volumes).signalled == w.signalled
  {
    var w1 := if runners then w.(container := false) else w;
    RemovalsShrink(w1, n);
    RemovalsShrink(RemoveNetwork(w1, n), n);
  }

  lemma ShrinkAdvances(j: Job, w: World)
    requires Shrinks(j.world, w)
    ensures Advances(j, j.(world := w))
  {
  }

  lemma ShrinkFinalizer(f: Finalizer, j: Job, w: World)
    requires FinalizerHolds(f, j) && Shrinks(j.world, w)
    ensures FinalizerHolds(f, j.(world := w))
  {
  }

  lemma ShrinkCovers(s: State, w: World)
    requires Covered(s) && Shrinks(s.job.world, w) && w.signalled == s.job.world.signalled
    ensures Covered(s.(job := s.job.(world := w)))
  {
    hide Pending;
  }

  lemma ShrinkKeeps(s: State, w: World)
    requires Inv(s) && Shrinks(s.job.world, w) && w.signalled == s.job.world.signalled
    ensures Inv(s.(job := s.job.(world := w))) && Advances(s.job, s.job.(world := w))
  {
    hide Covered, CancelHolds, FinalizerHolds, NamesFit, Shrinks, Advances;
    var job := s.job.(world := w);
    ShrinkAdvances(s.job, w);
    ShrunkFits(s.job.meta.names, s.job.world, w);
    ShrinkFinalizer(s.finalizer, s.job, w);
    ShrinkCovers(s, w);
    forall k | 0 <= k < |s.cancels| ensures CancelHolds(s.cancels[k], job) {
      CancelHoldsOn(s.cancels[k], s.job, job);
    }
  }

  lemma SweepStepKeeps(s: State, step: Step)
    requires Inv(s) && step.Sweep?
    ensures Inv(Next(s, step)) && Advances(s.job, Next(s, step).job)
  {
    hide Inv, SweptWorld, Shrinks, Advances;
    SweepShrinks(s.job.world, s.job.meta.names, step.runners, step.networks, step.volumes);
    DeletionsShrink(s.job.world);
    ShrinkKeeps(s, s.job.world);
    ShrinkKeeps(s, SweptWorld(s.job.world, s.job.meta.names, step.runners, step.networks, step.volumes));
    assert s.(job := s.job.(world := s.job.world)) == s && s.job.(world := s.job.world) == s.job;
  }

  lemma ProcessEndKeeps(s: State, step: Step)
    requires Inv(s) && Enabled(s, step) && (step.Exit? || step.Killed? || step.ContainerEnds?)
    ensures Inv(Next(s, step))
  {
    hide Pending;
    var t := Next(s, step);
    forall k | 0 <= k < |t.cancels| ensures CancelHolds(t.cancels[k], t.job) {
      CancelHoldsOn(s.cancels[k], s.job, t.job);
    }
  }

  lemma PendingAppend(cancels: seq<Cancel>, c: Cancel, from: nat, to: nat)
    requires Pending(cancels, from, to)
    ensures Pending(cancels + [c], from, to)
  {
    var k :| 0 <= k < |cancels| && IsPending(cancels[k], from, to);
    assert IsPending((cancels + [c])[k], from, to);
  }

  lemma ArrivalKeeps(s: State)
    requires Inv(s)
    ensures Inv(Next(s, Arrive))
  {
    hide Pending;
    forall from, to | Pending(s.cancels, from, to) ensures Pending(Next(s, Arrive).cancels, from, to) {
      PendingAppend(s.cancels, Cancel(READ, None), from, to);
    }
  }

  lemma StepKeeps(s: State, step: Step)
    requires Inv(s) && Enabled(s, step)
    ensures Inv(Next(s, step)) && Advances(s.job, Next(s, step).job)
  {
    hide Inv;
    StepAdvances(s, step);
    match step
    case Arrive => ArrivalKeeps(s);
    case CancelStep(i, now) => CancelStepKeeps(s, i, now);
    case FinalizerStep(now) => FinalizerStepKeeps(s, now);
    case Exit(_) => ProcessEndKeeps(s, step);
    case Killed(_) => ProcessEndKeeps(s, step);
    case ContainerEnds => ProcessEndKeeps(s, step);
    case Sweep(_, _, _) => SweepStepKeeps(s, step);
  }

  lemma StepAdvances(s: State, step: Step)
    requires Inv(s) && Enabled(s, step)
    ensures Advances(s.job, Next(s, step).job)
  {
    hide Covered, CancelHolds, FinalizerHolds;
    match step
    case Arrive =>
    case CancelStep(i, now) => CancelAdvances(s.cancels[i], s.job, now);
    case FinalizerStep(now) => FinalizerAdvances(s.finalizer, s.job, now);
    case Exit(_) =>
    case Killed(_) =>
    case ContainerEnds =>
    case Sweep(_, _, _) => SweepStepKeeps(s, step);
  }

  /** Over any run nothing released comes back, and a job with a verdict never counts as
      queued or running again. */
  lemma {:induction false} RunAdvances(s: State, steps: seq<Step>)
    requires Inv(s) && Runnable(s, steps)
    ensures Inv(Run(s, steps)) && Advances(s.job, Run(s, steps).job)
    decreases |steps|
  {
    hide Inv;
    if steps != [] {
      StepKeeps(s, steps[0]);
      RunAdvances(Next(s, steps[0]), steps[1..]);
    }
  }

  lemma CreatedHolds(s: State)
    requires IsCreated(s)
    ensures Inv(s)
  {
  }

  lemma NothingPending(s: State, from: nat, to: nat)
    requires AllDone(s) && to < DONE
    ensures !Pending(s.cancels, from, to)
  {
  }

  /** When every request and the finalizer have finished, the job has a verdict and an end
      time and everything it held is released, however their steps were interleaved. */
  lemma FinishedMeansReleased(s: State, steps: seq<Step>)
    requires IsCreated(s) && Runnable(s, steps) && AllDone(Run(s, steps))
    ensures var job := Run(s, steps).job;
            IsTerminal(job.meta.status) && job.meta.finishedAt.Some? && IsReleased(job.world)
  {
    hide Pending;
    CreatedHolds(s);
    RunAdvances(s, steps);
    var t := Run(s, steps);
    NothingPending(t, STOP, STOP);
    NothingPending(t, STOP, REMOVE_NETWORK);
    NothingPending(t, STOP, REMOVE_VOLUME);
  }

  /** Network and volume go only where nothing holds them any more. */
  predicate LetsGo(v: World, w: World) {
    (v.network && !w.network ==> w.attached == {} && !w.container) && (v.volume && !w.volume ==> !w.container)
  }

  lemma RemovalsLetGo(w: World, n: Names)
    ensures LetsGo(w, w) && LetsGo(w, RemoveNetwork(w, n)) && LetsGo(w, RemoveVolume(w, n))
    ensures RemoveNetwork(w, n).container == w.container && RemoveVolume(w, n).container == w.container
  {
  }

  lemma CancelLetsGo(c: Cancel, j: Job, now: int)
    requires CanCancel(c)
    ensures LetsGo(j.world, CancelEffect(c, j, now).world)
  {
    hide RemoveNetwork, RemoveVolume;
    if c.seen.Some? { RemovalsLetGo(j.world, c.seen.value.names); }
  }

  lemma FinalizerLetsGo(f: Finalizer, j: Job, now: int)
    requires CanFinalize(f)
    ensures LetsGo(j.world, FinalizerEffect(f, j, now).world) && FinalizerEffect(f, j, now).world.container == j.world.container
  {
    hide RemoveNetwork, RemoveVolume;
    if f.seen.Some? { RemovalsLetGo(j.world, f.seen.value.names); }
  }

  lemma SweepLetsGo(w: World, n: Names, runners: bool, networks: bool, volumes: bool)
    ensures LetsGo(w, SweptWorld(w, n, runners, networks, volumes))
  {
  }

  /** Only the end of the process or of the container, a cancel request, or a sweep after the
      verdict takes the container away, and only a request, the finalizer, or a sweep after the
      verdict network and volume, once nothing holds them. */
  lemma WhoReleases(s: State, step: Step)
    requires Enabled(s, step)
    ensures var v, w := s.job.world, Next(s, step).job.world;
            var swept := step.Sweep? && s.job.meta.status in {Succeeded, Failed, Canceled};
            && LetsGo(v, w)
            && (v.container && !w.container ==> step.Exit? || step.ContainerEnds? || step.CancelStep? || swept)
            && ((v.network && !w.network) || (v.volume && !w.volume) ==> step.FinalizerStep? || step.CancelStep? || swept)
  {
    hide SweptWorld, CancelEffect, FinalizerEffect;
    match step
    case CancelStep(i, now) => CancelLetsGo(s.cancels[i], s.job, now);
    case FinalizerStep(now) => FinalizerLetsGo(s.finalizer, s.job, now);
    case Sweep(runners, networks, volumes) => SweepLetsGo(s.job.world, s.job.meta.names, runners, networks, volumes);
    case Arrive =>
    case Exit(_) =>
    case Killed(_) =>
    case ContainerEnds =>
  }

  // ---------- what a verdict tells ----------

  /** The record names a success exactly with exit code zero and a failure with this other one,
      and it ended at one of these times. */
  predicate Tells(m: Meta, code: int, times: set<int>) {
    && (m.status.Succeeded? ==> code == 0 && m.exitCode == Some(0))
    && (m.status.Failed? ==> code != 0 && m.exitCode == Some(code))
    && (IsTerminal(m.status) ==> m.finishedAt.Some? && m.finishedAt.value in times)
  }

  predicate SeenTells(seen: Option<Meta>, times: set<int>) {
    seen.Some? && seen.value.status.Canceled? ==> seen.value.finishedAt.Some? && seen.value.finishedAt.value in times
  }

  ghost predicate AllTell(s: State, codes: set<int>, times: set<int>) {
    && Tells(s.job.meta, s.finalizer.code, times) && SeenTells(s.finalizer.seen, times)
    && (s.finalizer.at > F_WAIT ==> s.finalizer.code in codes)
    && (s.cancels == [] ==> !s.job.meta.status.Canceled? && (s.finalizer.seen.Some? ==> !s.finalizer.seen.value.status.Canceled?))
  }

  /** The step's exit code and time are among these. */
  predicate IsAmong(step: Step, codes: set<int>, times: set<int>) {
    match step
    case CancelStep(_, now) => now in times
    case FinalizerStep(now) => now in times
    case Exit(code) => code in codes
    case Killed(code) => code in codes
    case _ => true
  }

  lemma StepTells(s: State, step: Step, codes: set<int>, times: set<int>)
    requires Inv(s) && AllTell(s, codes, times) && Enabled(s, step) && IsAmong(step, codes, times)
    ensures AllTell(Next(s, step), codes, times)
  {
    hide Covered, Pending, Terminate, StopContainer, Detach, RemoveNetwork, RemoveVolume, SweptWorld, NamesFit;
    if step.CancelStep? { assert CancelHolds(s.cancels[step.i], s.job); }
  }

  lemma {:induction false} RunTells(s: State, steps: seq<Step>, codes: set<int>, times: set<int>)
    requires Inv(s) && AllTell(s, codes, times) && Runnable(s, steps)
    requires forall i | 0 <= i < |steps| :: IsAmong(steps[i], codes, times)
    ensures Inv(Run(s, steps)) && AllTell(Run(s, steps), codes, times)
    decreases |steps|
  {
    hide Inv, AllTell, Next, Enabled, IsAmong;
    if steps != [] {
      StepTells(s, steps[0], codes, times);
      StepKeeps(s, steps[0]);
      RunTells(Next(s, steps[0]), steps[1..], codes, times);
    }
  }

  function CodesOf(steps: seq<Step>): set<int> {
    (set i | 0 <= i < |steps| && steps[i].Exit? :: steps[i].code) + (set i | 0 <= i < |steps| && steps[i].Killed? :: steps[i].code)
  }

  function TimesOf(steps: seq<Step>): set<int> {
    (set i | 0 <= i < |steps| && steps[i].CancelStep? :: steps[i].now)
    + (set i | 0 <= i < |steps| && steps[i].FinalizerStep? :: steps[i].now)
  }

  /** Over every run a job counts as succeeded only if its process exited with zero and as failed
      only if it exited otherwise, and the record holds that exit code and the time of one of the
      steps. Without a request it is not cancelled. */
  lemma VerdictTells(s: State, steps: seq<Step>)
    requires IsCreated(s) && Runnable(s, steps)
    ensures var t := Run(s, steps); var m := t.job.meta;
            && (m.status.Succeeded? ==> m.exitCode == Some(0) && (Exit(0) in steps || Killed(0) in steps))
            && (m.status.Failed? ==> m.exitCode.Some? && m.exitCode.value != 0
                                     && (Exit(m.exitCode.value) in steps || Killed(m.exitCode.value) in steps))
            && (IsTerminal(m.status) ==>
                  exists i :: 0 <= i < |steps| && m.finishedAt.Some?
                              && (steps[i] == FinalizerStep(m.finishedAt.value)
                                  || (steps[i].CancelStep? && steps[i].now == m.finishedAt.value)))
            && (t.cancels == [] ==> !m.status.Canceled?)
  {
    hide Run, Runnable, Inv, NamesFit;
    var codes, times := CodesOf(steps), TimesOf(steps);
    forall i | 0 <= i < |steps| ensures IsAmong(steps[i], codes, times) {
    }
    CreatedHolds(s);
    RunTells(s, steps, codes, times);
    var t := Run(s, steps);
    WaitingHasNone(t);
    assert t.job.meta.status.Succeeded? || t.job.meta.status.Failed? ==> t.finalizer.code in codes;
  }

  lemma WaitingHasNone(s: State)
    requires Inv(s)
    ensures s.job.meta.status.Succeeded? || s.job.meta.status.Failed? ==> s.finalizer.at > F_WAIT
  {
  }

  // ---------- when a verdict is final ----------

  /** No request and no finalizer is about to write a different verdict that it decided on
      before it could see the present one. */
  predicate IsSettled(s: State) {
    && (s.job.meta.status.Succeeded? || s.job.meta.status.Failed? ==>
          forall c | c in s.cancels :: !Acts(c) || c.at > WRITE)
    && (s.job.meta.status.Canceled? ==>
          s.finalizer.at == F_WRITE && s.finalizer.seen.Some? ==> IsTerminal(s.finalizer.seen.value.status))
  }

  predicate HasVerdict(s: State) {
    IsTerminal(s.job.meta.status)
  }

  lemma CancelStepSettled(s: State, i: nat, now: int)
    requires Inv(s) && HasVerdict(s) && IsSettled(s) && Enabled(s, CancelStep(i, now))
    ensures var t := Next(s, CancelStep(i, now)); IsSettled(t) && t.job.meta.status == s.job.meta.status
  {
    hide Covered;
    var t, c := Next(s, CancelStep(i, now)), s.cancels[i];
    assert CancelHolds(c, s.job) && c in s.cancels;
    forall d | d in t.cancels ensures d in s.cancels || d == CancelNext(c, s.job) {
    }
  }

  lemma SettledStep(s: State, step: Step)
    requires Inv(s) && HasVerdict(s) && IsSettled(s) && Enabled(s, step)
    ensures var t := Next(s, step); IsSettled(t) && t.job.meta.status == s.job.meta.status
  {
    hide Covered;
    match step
    case CancelStep(i, now) => CancelStepSettled(s, i, now);
    case Arrive =>
      forall d | d in Next(s, step).cancels ensures d in s.cancels || d == Cancel(READ, None) {
      }
    case FinalizerStep(_) =>
    case Exit(_) =>
    case Killed(_) =>
    case ContainerEnds =>
    case Sweep(_, _, _) =>
  }

  lemma {:induction false} SettledRun(s: State, steps: seq<Step>)
    requires Inv(s) && HasVerdict(s) && IsSettled(s) && Runnable(s, steps)
    ensures Run(s, steps).job.meta.status == s.job.meta.status
    decreases |steps|
  {
    hide Inv, IsSettled;
    if steps != [] {
      StepKeeps(s, steps[0]);
      SettledStep(s, steps[0]);
      SettledRun(Next(s, steps[0]), steps[1..]);
    }
  }

  /** One request's next n steps, uninterrupted. */
  function Own(i: nat, now: int, n: nat): seq<Step> {
    if n == 0 then [] else [CancelStep(i, now)] + Own(i, now, n - 1)
  }

  lemma {:induction false} StaleRequestWrites(s: State, i: nat, now: int)
    requires i < |s.cancels| && s.cancels[i].seen.Some? && READ < s.cancels[i].at <= WRITE
    ensures var steps := Own(i, now, WRITE + 1 - s.cancels[i].at);
            Runnable(s, steps) && Run(s, steps).job.meta.status == Canceled
    decreases WRITE - s.cancels[i].at
  {
    var n := WRITE + 1 - s.cancels[i].at;
    var t := Next(s, CancelStep(i, now));
    assert Own(i, now, n)[1..] == Own(i, now, n - 1);
    if s.cancels[i].at < WRITE {
      StaleRequestWrites(t, i, now);
    } else {
      assert Own(i, now, 0) == [];
    }
  }

  lemma StaleFinalizerWrites(s: State)
    requires Inv(s) && s.job.meta.status.Canceled? && !IsSettled(s)
    ensures Runnable(s, [FinalizerStep(0)]) && Run(s, [FinalizerStep(0)]).job.meta.status != Canceled
  {
    assert [FinalizerStep(0)][1..] == [];
  }

  /** A verdict stays what it is in every continuation if and only if nobody holds a stale
      record that still has to be written back. */
  lemma VerdictIsFinal(s: State)
    requires Inv(s) && HasVerdict(s)
    ensures (forall steps | Runnable(s, steps) :: Run(s, steps).job.meta.status == s.job.meta.status) <==> IsSettled(s)
  {
    hide Inv, Run, Runnable;
    if IsSettled(s) {
      forall steps | Runnable(s, steps) ensures Run(s, steps).job.meta.status == s.job.meta.status {
        SettledRun(s, steps);
      }
    } else if s.job.meta.status.Canceled? {
      StaleFinalizerWrites(s);
    } else {
      var c :| c in s.cancels && Acts(c) && c.at <= WRITE;
      var i :| 0 <= i < |s.cancels| && s.cancels[i] == c;
      ActingHasRead(s, i);
      StaleRequestWrites(s, i, 0);
    }
  }

  lemma ActingHasRead(s: State, i: nat)
    requires Inv(s) && i < |s.cancels| && Acts(s.cancels[i])
    ensures s.cancels[i].seen.Some? && READ < s.cancels[i].at
  {
  }

  // ---------- whole operations ----------

  function CancelToEnd(c: Cancel, j: Job, now: int): Job
    decreases DONE - c.at
  {
    if !CanCancel(c) then j else CancelToEnd(CancelNext(c, j), CancelEffect(c, j, now), now)
  }

  function FinalizeToEnd(f: Finalizer, j: Job, now: int): Job
    decreases F_DONE - f.at
  {
    if !CanFinalize(f) then j else FinalizeToEnd(FinalizerNext(f, j), FinalizerEffect(f, j, now), now)
  }

  /** A request that is not interrupted does what `CancelToEnd` says. */
  lemma {:induction false} AloneIsRun(s: State, i: nat, now: int) returns (n: nat)
    requires i < |s.cancels| && s.cancels[i].at <= DONE && (s.cancels[i].at > READ ==> s.cancels[i].seen.Some?)
    ensures Runnable(s, Own(i, now, n))
    ensures var t := Run(s, Own(i, now, n));
            t.job == CancelToEnd(s.cancels[i], s.job, now) && |t.cancels| == |s.cancels| && t.cancels[i].at == DONE
    decreases DONE - s.cancels[i].at
  {
    n := 0;
    if s.cancels[i].at < DONE {
      n := AloneIsRun(Next(s, CancelStep(i, now)), i, now);
      assert Own(i, now, n + 1)[1..] == Own(i, now, n);
      n := n + 1;
    }
  }

  /** What a cancel of an unfinished job leaves when nothing interrupts it. */
  function AfterCancel(j: Job, now: int): Job {
    var n := j.meta.names;
    var w := Detach(StopContainer(Terminate(j.world, n), n), n);
    Job(MarkCanceled(j.meta, now), RemoveVolume(RemoveNetwork(w, n).(keyFile := false, secretsDir := false), n))
  }

  /** What the finalizer leaves when nothing interrupts it. */
  function AfterVerdict(j: Job, code: int, now: int): Job {
    var n := j.meta.names;
    var w := RemoveNetwork(Detach(j.world, n), n);
    Job(Verdict(j.meta, code, now), RemoveVolume(w.(keyFile := false, secretsDir := false), n))
  }

  lemma CancelAlone(j: Job, now: int)
    ensures CancelToEnd(Cancel(READ, None), j, now) == if IsTerminal(j.meta.status) then j else AfterCancel(j, now)
  {
    hide Terminate, StopContainer, Detach, RemoveNetwork, RemoveVolume, MarkCanceled;
    var n := j.meta.names;
    var w1 := Terminate(j.world, n);
    var w2 := StopContainer(w1, n);
    var w3 := Detach(w2, n);
    var w4 := RemoveNetwork(w3, n);
    var m := MarkCanceled(j.meta, now);
    var w6 := w4.(keyFile := false);
    var w7 := w6.(secretsDir := false);
    if !IsTerminal(j.meta.status) {
      calc {
        CancelToEnd(Cancel(READ, None), j, now);
        CancelToEnd(Cancel(SIGNAL, Some(j.meta)), j, now);
        CancelToEnd(Cancel(STOP, Some(j.meta)), Job(j.meta, w1), now);
        CancelToEnd(Cancel(DETACH, Some(j.meta)), Job(j.meta, w2), now);
        CancelToEnd(Cancel(REMOVE_NETWORK, Some(j.meta)), Job(j.meta, w3), now);
        CancelToEnd(Cancel(WRITE, Some(j.meta)), Job(j.meta, w4), now);
        CancelToEnd(Cancel(REMOVE_KEY, Some(j.meta)), Job(m, w4), now);
        CancelToEnd(Cancel(REMOVE_DIR, Some(j.meta)), Job(m, w6), now);
        CancelToEnd(Cancel(REMOVE_VOLUME, Some(j.meta)), Job(m, w7), now);
        CancelToEnd(Cancel(DONE, Some(j.meta)), Job(m, RemoveVolume(w7, n)), now);
        AfterCancel(j, now);
      }
    }
  }

  lemma FinalizeAlone(j: Job, code: int, now: int)
    ensures FinalizeToEnd(Finalizer(F_READ, code, None), j, now) == AfterVerdict(j, code, now)
  {
    hide Detach, RemoveNetwork, RemoveVolume, Verdict;
    var n, seen := j.meta.names, Some(j.meta);
    var m := Verdict(j.meta, code, now);
    var w3 := Detach(j.world, n);
    var w4 := RemoveNetwork(w3, n);
    var w5 := w4.(keyFile := false);
    var w6 := w5.(secretsDir := false);
    calc {
      FinalizeToEnd(Finalizer(F_READ, code, None), j, now);
      FinalizeToEnd(Finalizer(F_WRITE, code, seen), j, now);
      FinalizeToEnd(Finalizer(F_DETACH, code, seen), Job(m, j.world), now);
      FinalizeToEnd(Finalizer(F_REMOVE_NETWORK, code, seen), Job(m, w3), now);
      FinalizeToEnd(Finalizer(F_REMOVE_KEY, code, seen), Job(m, w4), now);
      FinalizeToEnd(Finalizer(F_REMOVE_DIR, code, seen), Job(m, w5), now);
      FinalizeToEnd(Finalizer(F_REMOVE_VOLUME, code, seen), Job(m, w6), now);
      FinalizeToEnd(Finalizer(F_DONE, code, seen), Job(m, RemoveVolume(w6, n)), now);
      AfterVerdict(j, code, now);
    }
  }

  /** What detaching and removing leave: named targets are detached if there is a network, network
      and volume go unless something holds them, and the files go. */
  predicate IsCleared(v: World, w: World, n: Names) {
    && w.client == v.client && w.signalled == v.signalled && w.container == v.container
    && w.attached <= v.attached
    && (forall t | t in v.attached :: t in w.attached <==> n.network == "" || t == "" || t !in n.targets)
    && (w.network <==> v.network && (n.network == "" || w.attached != {} || w.container))
    && (w.volume <==> v.volume && (n.volume == "" || w.container))
    && !w.keyFile && !w.secretsDir
  }

  lemma DetachLeaves(v: World, n: Names)
    ensures var w := Detach(v, n);
            && w == v.(attached := w.attached) && w.attached <= v.attached
            && forall t | t in v.attached :: t in w.attached <==> n.network == "" || t == "" || t !in n.targets
  {
  }

  lemma ReleaseClears(v: World, n: Names)
    ensures IsCleared(v, RemoveVolume(RemoveNetwork(Detach(v, n), n).(keyFile := false, secretsDir := false), n), n)
  {
    hide Detach;
    DetachLeaves(v, n);
  }

  /** Everything an uninterrupted cancel of an unfinished job leaves: the record is marked, a named
      process is signalled, a named container stopped, and the rest released. */
  lemma CancelLeaves(j: Job, now: int)
    requires !IsTerminal(j.meta.status)
    ensures var k, n := CancelToEnd(Cancel(READ, None), j, now), j.meta.names;
            && k.meta == Meta(Canceled, Some(now), j.meta.exitCode, n)
            && IsCleared(j.world.(signalled := j.world.signalled || (n.pid.Some? && n.pid.value > 0),
                                  container := j.world.container && n.container == ""), k.world, n)
  {
    hide CancelToEnd, IsCleared, Detach, RemoveNetwork, RemoveVolume;
    CancelAlone(j, now);
    ReleaseClears(StopContainer(Terminate(j.world, j.meta.names), j.meta.names), j.meta.names);
  }

  /** Everything the uninterrupted finalizer leaves: a cancellation stays with its time, another
      record gets the verdict, the code and the time, and the rest is released. */
  lemma FinalizerLeaves(j: Job, code: int, now: int)
    ensures var k, m, n := FinalizeToEnd(Finalizer(F_READ, code, None), j, now), j.meta, j.meta.names;
            && (m.status.Canceled? && m.finishedAt.Some? ==> k.meta == m)
            && (m.status.Canceled? && m.finishedAt.None? ==> k.meta == Meta(Canceled, Some(now), m.exitCode, n))
            && (!m.status.Canceled? ==> k.meta == Meta(if code == 0 then Succeeded else Failed, Some(now), Some(code), n))
            && IsCleared(j.world, k.world, n)
  {
    hide FinalizeToEnd, IsCleared, Detach, RemoveNetwork, RemoveVolume;
    FinalizeAlone(j, code, now);
    ReleaseClears(j.world, j.meta.names);
  }

  /** Operations that do not overlap: a cancel, the end of the process, or the finalizer. */
  datatype Operation = Request(now: int) | End(code: int, killed: bool) | Finalize(code: int, now: int)

  /** The job between operations, and whether its finalizer is still to come. */
  datatype Phase = Alive | Ended(code: int) | Finalized

  datatype Quiet = Quiet(job: Job, phase: Phase)

  predicate Possible(q: Quiet, op: Operation) {
    match op
    case Request(_) => true
    case End(_, killed) => q.phase.Alive? && (killed ==> q.job.world.signalled)
    case Finalize(code, _) => q.phase == Ended(code)
  }

  function Do(q: Quiet, op: Operation): Quiet
    requires Possible(q, op)
  {
    match op
    case Request(now) => q.(job := CancelToEnd(Cancel(READ, None), q.job, now))
    case End(code, killed) =>
      var w := q.job.world.(client := false, container := q.job.world.container && killed);
      Quiet(q.job.(world := w), Ended(code))
    case Finalize(code, now) => Quiet(FinalizeToEnd(Finalizer(F_READ, code, None), q.job, now), Finalized)
  }

  predicate AllPossible(q: Quiet, ops: seq<Operation>)
    decreases |ops|
  {
    ops == [] || (Possible(q, ops[0]) && AllPossible(Do(q, ops[0]), ops[1..]))
  }

  function DoAll(q: Quiet, ops: seq<Operation>): Quiet
    requires AllPossible(q, ops)
    decreases |ops|
  {
    if ops == [] then q else DoAll(Do(q, ops[0]), ops[1..])
  }

  /** Before the finalizer has run, only a cancel can have given the verdict. */
  predicate IsQuiet(q: Quiet) {
    var m := q.job.meta;
    && (IsTerminal(m.status) ==> m.finishedAt.Some?)
    && (!q.phase.Finalized? && IsTerminal(m.status) ==> m.status == Canceled)
    && (q.phase.Finalized? ==> IsTerminal(m.status))
  }

  lemma OperationKeepsVerdict(q: Quiet, op: Operation)
    requires IsQuiet(q) && Possible(q, op)
    ensures IsQuiet(Do(q, op))
    ensures IsTerminal(q.job.meta.status) ==> Do(q, op).job.meta == q.job.meta
  {
    hide CancelToEnd, FinalizeToEnd;
    match op
    case Request(now) => CancelAlone(q.job, now);
    case End(_, _) =>
    case Finalize(code, now) => FinalizeAlone(q.job, code, now);
  }

  /** When operations do not overlap, the first verdict is the last one: the whole record
      stays as it was first finished. */
  lemma {:induction false} FirstVerdictStays(q: Quiet, ops: seq<Operation>)
    requires IsQuiet(q) && AllPossible(q, ops)
    ensures IsQuiet(DoAll(q, ops))
    ensures IsTerminal(q.job.meta.status) ==> DoAll(q, ops).job.meta == q.job.meta
    decreases |ops|
  {
    hide IsQuiet, Do;
    if ops != [] {
      OperationKeepsVerdict(q, ops[0]);
      FirstVerdictStays(Do(q, ops[0]), ops[1..]);
    }
  }

  lemma {:induction false} RunThen(s: State, a: seq<Step>, b: seq<Step>)
    requires Runnable(s, a) && Runnable(Run(s, a), b)
    ensures Runnable(s, a + b) && Run(s, a + b) == Run(Run(s, a), b)
    decreases |a|
  {
    if a == [] {
      assert a + b == b;
    } else {
      assert (a + b)[1..] == a[1..] + b;
      RunThen(Next(s, a[0]), a[1..], b);
    }
  }

  lemma {:induction false} RunOne(s: State, step: Step)
    requires Enabled(s, step)
    ensures Runnable(s, [step]) && Run(s, [step]) == Next(s, step)
  {
    assert [step][1..] == [];
  }

  /** The finalizer's steps after the verdict do not touch the record. */
  lemma {:induction false} FinalizerFinishes(s: State) returns (steps: seq<Step>)
    requires F_WRITE < s.finalizer.at <= F_DONE && s.finalizer.seen.Some?
    ensures Runnable(s, steps)
    ensures var t := Run(s, steps);
            t.finalizer.at == F_DONE && t.cancels == s.cancels && t.job.meta == s.job.meta
    decreases F_DONE - s.finalizer.at
  {
    steps := [];
    if s.finalizer.at < F_DONE {
      var rest := FinalizerFinishes(Next(s, FinalizerStep(0)));
      steps := [FinalizerStep(0)] + rest;
      assert steps[1..] == rest;
    }
  }

  /** A request's steps up to `to`, and what they leave of the record. */
  lemma {:induction false} RequestReaches(s: State, goal: nat, now: int) returns (steps: seq<Step>)
    requires |s.cancels| == 1 && s.cancels[0].seen.Some? && READ < s.cancels[0].at <= goal <= DONE
    ensures Runnable(s, steps)
    ensures var t := Run(s, steps);
            && t.cancels == [s.cancels[0].(at := goal)] && t.finalizer == s.finalizer
            && t.job.meta == if s.cancels[0].at <= WRITE < goal then MarkCanceled(s.cancels[0].seen.value, now) else s.job.meta
    decreases goal - s.cancels[0].at
  {
    steps := [];
    if s.cancels[0].at < goal {
      var rest := RequestReaches(Next(s, CancelStep(0, now)), goal, now);
      steps := [CancelStep(0, now)] + rest;
      assert steps[1..] == rest;
    }
  }

  lemma {:induction false} RequestSignals(s: State) returns (steps: seq<Step>)
    requires IsCreated(s)
    ensures Runnable(s, steps)
    ensures var t := Run(s, steps);
            && t.cancels == [Cancel(STOP, Some(s.job.meta))] && t.job == Job(s.job.meta, Terminate(s.job.world, s.job.meta.names))
            && t.finalizer == s.finalizer && t.job.world.client && t.job.world.signalled
  {
    hide Run, Runnable;
    var c := CancelStep(0, 0);
    var s1 := Next(s, Arrive);
    var s2 := Next(s1, c);
    RunOne(s, Arrive); RunOne(s1, c); RunOne(s2, c);
    RunThen(s1, [c], [c]);
    RunThen(s, [Arrive], [c] + [c]);
    steps := [Arrive] + ([c] + [c]);
  }

  lemma {:induction false} RequestKills(s: State, code: int) returns (steps: seq<Step>)
    requires IsCreated(s)
    ensures Runnable(s, steps) && Killed(code) in steps
    ensures var t := Run(s, steps);
            && t.cancels == [Cancel(STOP, Some(s.job.meta))] && t.job.meta == s.job.meta
            && t.finalizer == Finalizer(F_WRITE, code, Some(s.job.meta))
  {
    hide Run, Runnable;
    var first := RequestSignals(s);
    var s1 := Run(s, first);
    var s2 := Next(s1, Killed(code));
    RunOne(s1, Killed(code)); RunOne(s2, FinalizerStep(0));
    RunThen(s1, [Killed(code)], [FinalizerStep(0)]);
    var rest := [Killed(code)] + [FinalizerStep(0)];
    assert rest[0] == Killed(code) && Killed(code) in rest;
    RunThen(s, first, rest);
    steps := first + rest;
  }

  /** The runner kills before it writes: a job whose only request ended the process can still
      come out as failed, when the finalizer reads before the request writes. */
  lemma {:induction false} KilledJobCanFail(s: State, code: int)
    requires IsCreated(s) && code != 0
    ensures exists steps :: Runnable(s, steps) && AllDone(Run(s, steps)) && Killed(code) in steps
                         && Run(s, steps).job.meta.status == Failed
  {
    hide Run, Runnable;
    var a := RequestKills(s, code);
    var s1 := Run(s, a);
    var b := RequestReaches(s1, DONE, 1);
    var s2 := Run(s1, b);
    RunOne(s2, FinalizerStep(2));
    var s3 := Next(s2, FinalizerStep(2));
    var c := FinalizerFinishes(s3);
    RunThen(s2, [FinalizerStep(2)], c);
    RunThen(s1, b, [FinalizerStep(2)] + c);
    RunThen(s, a, b + ([FinalizerStep(2)] + c));
    assert Killed(code) in a + (b + ([FinalizerStep(2)] + c));
  }

  lemma {:induction false} RequestReadsFirst(s: State) returns (steps: seq<Step>)
    requires IsCreated(s)
    ensures Runnable(s, steps)
    ensures var t := Run(s, steps);
            && t.cancels == [Cancel(SIGNAL, Some(s.job.meta))] && t.finalizer == Finalizer(F_DETACH, 0, Some(s.job.meta))
            && t.job.meta == Verdict(s.job.meta, 0, 0)
  {
    hide Run, Runnable;
    var s1 := Next(s, Arrive);
    var s2 := Next(s1, CancelStep(0, 0));
    var s3 := Next(s2, Exit(0));
    var s4 := Next(s3, FinalizerStep(0));
    RunOne(s, Arrive); RunOne(s1, CancelStep(0, 0)); RunOne(s2, Exit(0)); RunOne(s3, FinalizerStep(0)); RunOne(s4, FinalizerStep(0));
    RunThen(s3, [FinalizerStep(0)], [FinalizerStep(0)]);
    steps := [FinalizerStep(0)] + [FinalizerStep(0)];
    RunThen(s2, [Exit(0)], steps);
    steps := [Exit(0)] + steps;
    RunThen(s1, [CancelStep(0, 0)], steps);
    steps := [CancelStep(0, 0)] + steps;
    RunThen(s, [Arrive], steps);
    steps := [Arrive] + steps;
  }

  /** A verdict does get lost in runs from a created job: the request reads `running`, the job
      succeeds and is finalised, and then the request writes its cancellation. */
  lemma {:induction false} SuccessCanBeCanceled(s: State) returns (a: seq<Step>, b: seq<Step>)
    requires IsCreated(s)
    ensures Runnable(s, a) && Run(s, a).finalizer.at == F_DONE && Run(s, a).job.meta.status == Succeeded
    ensures Runnable(Run(s, a), b) && AllDone(Run(Run(s, a), b)) && Run(Run(s, a), b).job.meta.status == Canceled
  {
    hide Run, Runnable;
    var first := RequestReadsFirst(s);
    var s1 := Run(s, first);
    var rest := FinalizerFinishes(s1);
    RunThen(s, first, rest);
    a := first + rest;
    b := RequestReaches(Run(s, a), DONE, 1);
  }

  // ---------- starting a job ----------

  /** How far a start gets: creating the network or the secret volume may fail, attaching the
      targets may fail after some of them, building the command, starting the process or handing
      over the secrets may fail, or all succeed. */
  datatype Course =
    | NetworkFails | VolumeFails | ConnectFails(attached: nat) | CommandFails | StartFails | SeedFails(exitCode: Option<int>)
    | Starts(pid: int)

  datatype StartProblem = NoJob | BadControl | NotStarted(course: Course)

  /** Of the job nothing exists but its files. */
  predicate HoldsNothing(w: World) {
    !w.client && !w.container && w.attached == {} && !w.network && !w.volume
  }

  // ---------- the operations as the runner performs them ----------

  class RunnerJob {
    var record: Option<Meta>
    var world: World

    ghost function Abstract(): Job
      requires record.Some?
      reads this
    {
      Job(record.value, world)
    }

    method Disconnect(n: Names)
      modifies this`world
      ensures world == Detach(old(world), n)
    {
      if n.network == "" {
        return;
      }
      for i := 0 to |n.targets|
        invariant world == old(world).(attached := old(world).attached - Named(n.targets[..i]))
      {
        assert n.targets[..i + 1] == n.targets[..i] + [n.targets[i]];
        if n.targets[i] != "" {
          world := world.(attached := world.attached - {n.targets[i]});
        }
      }
      assert n.targets[..|n.targets|] == n.targets;
    }

    method CleanupSecretDir(n: Names)
      modifies this`world
      ensures world == RemoveVolume(old(world).(keyFile := false, secretsDir := false), n)
    {
      if world.keyFile {
        world := world.(keyFile := false);
      }
      if world.secretsDir {
        world := world.(secretsDir := false);
      }
      world := RemoveVolume(world, n);
    }

    method ConnectTargets(n: Names, targets: seq<string>)
      modifies this`world
      ensures world == if n.network == "" then old(world) else old(world).(attached := old(world).attached + Named(targets))
    {
      if n.network == "" {
        return;
      }
      for i := 0 to |targets|
        invariant world == old(world).(attached := old(world).attached + Named(targets[..i]))
      {
        assert targets[..i + 1] == targets[..i] + [targets[i]];
        if targets[i] != "" {
          world := world.(attached := world.attached + {targets[i]});
        }
      }
      assert targets[..|targets|] == targets;
    }

    /** What the handlers of a failed start undo. */
    method Release(n: Names)
      modifies this`world
      ensures world == RemoveVolume(RemoveNetwork(Detach(old(world), n), n), n)
    {
      Disconnect(n);
      world := RemoveNetwork(world, n);
      world := RemoveVolume(world, n);
    }

    /** Creates the network and the volume and attaches the targets. */
    method MakeArtifacts(n: Names, course: Course) returns (made: bool)
      requires course.ConnectFails? ==> course.attached <= |n.targets|
      modifies this`world
      ensures made <==> !course.NetworkFails? && !course.VolumeFails? && !course.ConnectFails?
      ensures course.NetworkFails? ==> world == old(world)
      ensures made && old(HoldsNothing(world)) ==>
                world == old(world).(network := n.network != "", volume := n.volume != "",
                                     attached := if n.network == "" then {} else Named(n.targets))
      ensures course.VolumeFails? && old(HoldsNothing(world)) ==> HoldsNothing(world)
      ensures course.ConnectFails? && n.network != "" && old(HoldsNothing(world)) ==>
                && world.attached == Named(n.targets[..course.attached]) && (world.network <==> world.attached != {})
                && !world.volume && !world.client && !world.container
    {
      if course.NetworkFails? {
        return false;
      }
      if n.network != "" {
        world := world.(network := true);
      }
      if course.VolumeFails? {
        Release(n.(targets := []));
        return false;
      }
      if n.volume != "" {
        world := world.(volume := true);
      }
      if course.ConnectFails? {
        ConnectTargets(n, n.targets[..course.attached]);
        Release(n.(targets := []));
        return false;
      }
      ConnectTargets(n, n.targets);
      return true;
    }

    /** A job that is running already is left alone. A start that succeeds is where the runs of
        the protocol begin; one that fails releases what it made, except targets that were
        attached when attaching them failed, which also keep the network. */
    method Start(spec: Names, control: bool, course: Course, now: int) returns (r: Result<(), StartProblem>)
      requires course.ConnectFails? ==> course.attached <= |spec.targets|
      requires course.Starts? ==> course.pid > 0
      requires course.NetworkFails? ==> spec.network != ""
      requires course.VolumeFails? || course.SeedFails? ==> spec.volume != "" && world.secretsDir
      requires spec.container != ""
      modifies this
      ensures old(record).None? || !control ==> r.Failure? && record == old(record) && world == old(world)
      ensures old(record).Some? && control && old(record).value.status.Running? ==> r.Success? && record == old(record) && world == old(world)
      ensures old(record).Some? && control && !old(record).value.status.Running? && old(HoldsNothing(world)) ==>
                && (r.Success? <==> course.Starts?)
                && record.Some?
                && (r.Success? ==> IsCreated(State(Abstract(), [], Finalizer(F_WAIT, 0, None))))
                && (course.NetworkFails? ==> world == old(world))
                && (course.VolumeFails? || course.CommandFails? || course.StartFails? || course.SeedFails? ==> HoldsNothing(world))
                && (course.StartFails? || course.SeedFails? ==>
                      record.value.status == Failed && record.value.finishedAt == Some(now) && record.value.exitCode.Some?)
                && (course.NetworkFails? || course.VolumeFails? || course.CommandFails? || course.ConnectFails? ==> record == old(record))
                && (course.SeedFails? ==> !world.keyFile && !world.secretsDir)
                && (course.ConnectFails? && spec.network != "" ==>
                      world.attached == Named(spec.targets[..course.attached])
                      && (world.network <==> world.attached != {}) && !world.volume && !world.client && !world.container)
    {
      if record.None? {
        return Failure(NoJob);
      }
      if !control {
        return Failure(BadControl);
      }
      var meta := record.value;
      if meta.status == Running {
        return Success(());
      }
      var volume := if world.secretsDir then spec.volume else "";
      var n := spec.(volume := volume, pid := None);
      var made := MakeArtifacts(n, course);
      if !made {
        return Failure(NotStarted(course));
      }
      if course.CommandFails? || course.StartFails? {
        Release(n);
        if course.StartFails? {
          record := Some(meta.(status := Failed, finishedAt := Some(now), exitCode := Some(127)));
        }
        return Failure(NotStarted(course));
      }
      world := world.(client := true, container := true, signalled := false);
      if course.SeedFails? {
        world := world.(client := false);
        world := StopContainer(world, n);
        Disconnect(n);
        world := RemoveNetwork(world, n);
        var exitCode := if course.exitCode.Some? then course.exitCode.value else 127;
        record := Some(Meta(Failed, Some(now), Some(exitCode), n));
        CleanupSecretDir(n);
        return Failure(NotStarted(course));
      }
      record := Some(meta.(status := Running, names := n.(pid := Some(course.pid))));
      return Success(());
    }

    /** A job without a record cannot be cancelled; one with a verdict keeps it. */
    method CancelJob(now: int) returns (ok: bool)
      modifies this
      ensures ok == old(record.Some?)
      ensures !ok ==> record == old(record) && world == old(world)
      ensures ok ==> record.Some? && Abstract() == CancelToEnd(Cancel(READ, None), old(Abstract()), now)
    {
      if record.None? {
        return false;
      }
      CancelAlone(Abstract(), now);
      var meta := record.value;
      if IsTerminal(meta.status) {
        return true;
      }
      world := Terminate(world, meta.names);
      world := StopContainer(world, meta.names);
      Disconnect(meta.names);
      world := RemoveNetwork(world, meta.names);
      meta := meta.(status := Canceled, finishedAt := Some(now));
      record := Some(meta);
      CleanupSecretDir(meta.names);
      return true;
    }

    /** The process has ended with this exit code. */
    method WaitAndFinalize(code: int, now: int)
      requires record.Some?
      modifies this
      ensures record.Some? && Abstract() == FinalizeToEnd(Finalizer(F_READ, code, None), old(Abstract()), now)
    {
      FinalizeAlone(Abstract(), code, now);
      var meta := record.value;
      if meta.status == Canceled {
        if meta.finishedAt.None? {
          meta := meta.(finishedAt := Some(now));
        }
        record := Some(meta);
        Disconnect(meta.names);
        world := RemoveNetwork(world, meta.names);
        CleanupSecretDir(meta.names);
        return;
      }
      meta := meta.(finishedAt := Some(now), exitCode := Some(code));
      meta := meta.(status := if code == 0 then Succeeded else Failed);
      record := Some(meta);
      Disconnect(meta.names);
      world := RemoveNetwork(world, meta.names);
      CleanupSecretDir(meta.names);
    }
  }
}
