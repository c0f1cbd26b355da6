/** The sweep that removes what jobs left behind: runner containers, job networks, sidecars,
    secret volumes and old job directories. */
module OrphanSweep {
  import opened RunnerManager
  import opened Text
  import opened Wrappers

  const RUNNER_PREFIX := "infinito-job-"
  const NETWORK_PREFIX := "job-"
  const SIDECAR_PREFIX := "ssh-egress-"
  const VOLUME_PREFIX := "infinito-job-secrets-"
  const DAY := 86400

  /** A job directory: an unknown status and an end time that cannot be read are absent. */
  datatype Record = Record(status: Option<Status>, network: string, volume: string, finishedAt: Option<int>)

  datatype Label = Label(isRunner: bool, jobId: string)

  /** Docker's containers, and the networks and volumes with the containers that use them. */
  datatype Docker = Docker(containers: map<string, Label>, networks: map<string, set<string>>, volumes: map<string, set<string>>)

  type Jobs = map<string, Record>

  // ---------- what Docker does ----------

  function Detached(users: map<string, set<string>>, gone: set<string>): map<string, set<string>> {
    map n | n in users :: users[n] - gone
  }

  function RemoveContainer(d: Docker, name: string): Docker {
    Docker(d.containers - {name}, Detached(d.networks, {name}), Detached(d.volumes, {name}))
  }

  /** Refused while a container is attached. */
  function RemoveUnused(users: map<string, set<string>>, name: string): map<string, set<string>> {
    if name in users && users[name] == {} then users - {name} else users
  }

  // ---------- what the sweep looks at ----------

  predicate IsActive(r: Record) {
    r.status == Some(Queued) || r.status == Some(Running)
  }

  predicate IsActiveJob(jobs: Jobs, id: string) {
    id in jobs && IsActive(jobs[id])
  }

  function NetworkOf(id: string, r: Record): string {
    if r.network != "" then r.network else NETWORK_PREFIX + id
  }

  function VolumeOf(id: string, r: Record): string {
    if r.volume != "" then r.volume else VOLUME_PREFIX + id
  }

  function ActiveNetworks(jobs: Jobs): set<string> {
    set id | id in jobs && IsActive(jobs[id]) :: NetworkOf(id, jobs[id])
  }

  function ActiveVolumes(jobs: Jobs): set<string> {
    set id | id in jobs && IsActive(jobs[id]) :: VolumeOf(id, jobs[id])
  }

  predicate StartsWith(name: string, prefix: string) {
    |prefix| <= |name| && name[..|prefix|] == prefix
  }

  /** The job that a sidecar serves. */
  function SidecarJob(name: string): string
    requires StartsWith(name, SIDECAR_PREFIX)
  {
    Strip(name[|SIDECAR_PREFIX|..])
  }

  predicate IsOrphanRunner(name: string, d: Docker, jobs: Jobs) {
    name in d.containers && d.containers[name].isRunner && !IsActiveJob(jobs, d.containers[name].jobId)
  }

  predicate IsOrphanSidecar(name: string, d: Docker, jobs: Jobs) {
    name in d.containers && StartsWith(name, SIDECAR_PREFIX) && !IsActiveJob(jobs, SidecarJob(name))
  }

  predicate IsOrphanNetwork(name: string, jobs: Jobs) {
    StartsWith(name, NETWORK_PREFIX) && name !in ActiveNetworks(jobs)
  }

  predicate IsOrphanVolume(name: string, jobs: Jobs) {
    StartsWith(name, VOLUME_PREFIX) && name !in ActiveVolumes(jobs)
  }

  predicate IsStale(r: Record, cutoff: int) {
    && r.status.Some? && IsTerminal(r.status.value)
    && r.finishedAt.Some? && r.finishedAt.value <= cutoff
  }

  // ---------- what the sweep leaves ----------

  /** Which of Docker's listings worked; one that fails lists nothing. */
  datatype Listings = Listings(runners: bool, networks: bool, sidecars: bool, volumes: bool)

  predicate AllWork(w: Listings) {
    w.runners && w.networks && w.sidecars && w.volumes
  }

  function OrphanRunners(d: Docker, jobs: Jobs, works: bool): set<string> {
    set c | c in d.containers && works && IsOrphanRunner(c, d, jobs)
  }

  function OrphanSidecars(d: Docker, jobs: Jobs, works: bool): set<string> {
    set c | c in d.containers && works && IsOrphanSidecar(c, d, jobs)
  }

  /** The unused ones among those that nobody needs are gone. */
  function KeepUsed(users: map<string, set<string>>, orphan: set<string>): map<string, set<string>> {
    map n | n in users && !(n in orphan && users[n] == {}) :: users[n]
  }

  function OrphanNetworks(d: Docker, jobs: Jobs, works: bool): set<string> {
    set n | n in d.networks && works && IsOrphanNetwork(n, jobs)
  }

  function OrphanVolumes(d: Docker, jobs: Jobs, works: bool): set<string> {
    set v | v in d.volumes && works && IsOrphanVolume(v, jobs)
  }

  /** Networks are removed after the runner containers but before the sidecars. */
  function Swept(d: Docker, jobs: Jobs, w: Listings): Docker {
    var runners := OrphanRunners(d, jobs, w.runners);
    var sidecars := OrphanSidecars(d, jobs, w.sidecars) - runners;
    Docker(d.containers - runners - sidecars,
           Detached(KeepUsed(Detached(d.networks, runners), OrphanNetworks(d, jobs, w.networks)), sidecars),
           KeepUsed(Detached(Detached(d.volumes, runners), sidecars), OrphanVolumes(d, jobs, w.volumes)))
  }

  function KeptJobs(jobs: Jobs, cutoff: int): Jobs {
    map id | id in jobs && (IsActive(jobs[id]) || !IsStale(jobs[id], cutoff)) :: jobs[id]
  }

  // ---------- the sweep as it is performed ----------

  lemma DetachedTwice(users: map<string, set<string>>, a: set<string>, b: set<string>)
    ensures Detached(Detached(users, a), b) == Detached(users, a + b)
  {
    var left, right := Detached(Detached(users, a), b), Detached(users, a + b);
    forall n | n in users ensures left[n] == right[n] {
      assert users[n] - a - b == users[n] - (a + b);
    }
  }

  lemma DetachedNone(users: map<string, set<string>>)
    ensures Detached(users, {}) == users
  {
    forall n | n in users ensures Detached(users, {})[n] == users[n] {
      assert users[n] - {} == users[n];
    }
  }

  function WithoutContainers(d: Docker, gone: set<string>): Docker {
    Docker(d.containers - gone, Detached(d.networks, gone), Detached(d.volumes, gone))
  }

  lemma RemoveOneMore(d: Docker, gone: set<string>, name: string)
    ensures RemoveContainer(WithoutContainers(d, gone), name) == WithoutContainers(d, gone + {name})
  {
    DetachedTwice(d.networks, gone, {name});
    DetachedTwice(d.volumes, gone, {name});
    assert d.containers - gone - {name} == d.containers - (gone + {name});
  }

  lemma KeepOneLess(users: map<string, set<string>>, orphan: set<string>, name: string)
    ensures RemoveUnused(KeepUsed(users, orphan), name) == KeepUsed(users, orphan + {name})
  {
  }

  lemma KeepAll(users: map<string, set<string>>)
    ensures KeepUsed(users, {}) == users
  {
  }

  /** What the later listings show after the earlier removals. */
  lemma LaterListings(d: Docker, d1: Docker, d2: Docker, d3: Docker, jobs: Jobs, w: Listings)
    requires var runners := OrphanRunners(d, jobs, w.runners);
             && d1 == WithoutContainers(d, runners)
             && d2 == d1.(networks := KeepUsed(d1.networks, OrphanNetworks(d1, jobs, w.networks)))
             && d3 == WithoutContainers(d2, OrphanSidecars(d2, jobs, w.sidecars))
    ensures d3.(volumes := KeepUsed(d3.volumes, OrphanVolumes(d3, jobs, w.volumes))) == Swept(d, jobs, w)
  {
    hide IsOrphanNetwork, IsOrphanVolume, IsActiveJob, StartsWith, SidecarJob;
    var runners := OrphanRunners(d, jobs, w.runners);
    assert OrphanNetworks(d1, jobs, w.networks) == OrphanNetworks(d, jobs, w.networks);
    assert OrphanSidecars(d2, jobs, w.sidecars) == OrphanSidecars(d, jobs, w.sidecars) - runners;
    assert OrphanVolumes(d3, jobs, w.volumes) == OrphanVolumes(d, jobs, w.volumes);
  }

  class RunnerHost {
    var jobs: Jobs
    var docker: Docker

    method RemoveContainers(names: set<string>)
      modifies this`docker
      ensures docker == WithoutContainers(old(docker), names)
    {
      var rest: set<string>, gone: set<string> := names, {};
      DetachedNone(docker.networks);
      DetachedNone(docker.volumes);
      assert docker.containers - {} == docker.containers;
      while rest != {}
        invariant gone + rest == names
        invariant docker == WithoutContainers(old(docker), gone)
      {
        var name :| name in rest;
        RemoveOneMore(old(docker), gone, name);
        docker := RemoveContainer(docker, name);
        rest, gone := rest - {name}, gone + {name};
      }
      assert gone == names;
    }

    method RemoveNetworks(names: set<string>)
      modifies this`docker
      ensures docker == old(docker).(networks := KeepUsed(old(docker).networks, names))
    {
      var rest: set<string>, gone: set<string> := names, {};
      KeepAll(docker.networks);
      while rest != {}
        invariant gone + rest == names
        invariant docker == old(docker).(networks := KeepUsed(old(docker).networks, gone))
      {
        var name :| name in rest;
        KeepOneLess(old(docker).networks, gone, name);
        docker := docker.(networks := RemoveUnused(docker.networks, name));
        rest, gone := rest - {name}, gone + {name};
      }
      assert gone == names;
    }

    method RemoveVolumes(names: set<string>)
      modifies this`docker
      ensures docker == old(docker).(volumes := KeepUsed(old(docker).volumes, names))
    {
      var rest: set<string>, gone: set<string> := names, {};
      KeepAll(docker.volumes);
      while rest != {}
        invariant gone + rest == names
        invariant docker == old(docker).(volumes := KeepUsed(old(docker).volumes, gone))
      {
        var name :| name in rest;
        KeepOneLess(old(docker).volumes, gone, name);
        docker := docker.(volumes := RemoveUnused(docker.volumes, name));
        rest, gone := rest - {name}, gone + {name};
      }
      assert gone == names;
    }

    /** Directories of finished jobs past the retention, at least one day. */
    method SweepStaleJobDirs(now: int, retentionDays: int)
      requires retentionDays >= 1
      modifies this`jobs
      ensures jobs == KeptJobs(old(jobs), now - retentionDays * DAY)
    {
      var cutoff := now - retentionDays * DAY;
      var rest := jobs.Keys;
      while rest != {}
        invariant rest <= old(jobs).Keys
        invariant jobs == map id | id in old(jobs) && (id in rest || IsActive(old(jobs)[id]) || !IsStale(old(jobs)[id], cutoff)) :: old(jobs)[id]
      {
        var id :| id in rest;
        var r := jobs[id];
        if !IsActive(r) && IsStale(r, cutoff) {
          jobs := jobs - {id};
        }
        rest := rest - {id};
      }
    }

    method SweepOrphans(now: int, retentionDays: int, w: Listings)
      requires retentionDays >= 1
      modifies this
      ensures docker == Swept(old(docker), old(jobs), w)
      ensures jobs == KeptJobs(old(jobs), now - retentionDays * DAY)
    {
      hide *;
      var runners := OrphanRunners(docker, jobs, w.runners);
      RemoveContainers(runners);
      ghost var d1 := docker;
      var networks := OrphanNetworks(docker, jobs, w.networks);
      RemoveNetworks(networks);
      ghost var d2 := docker;
      var sidecars := OrphanSidecars(docker, jobs, w.sidecars);
      RemoveContainers(sidecars);
      ghost var d3 := docker;
      var volumes := OrphanVolumes(docker, jobs, w.volumes);
      RemoveVolumes(volumes);
      LaterListings(old(docker), d1, d2, d3, old(jobs), w);
      SweepStaleJobDirs(now, retentionDays);
    }
  }

  // ---------- what is left ----------

  /** What a working sweep leaves: no runner container and no sidecar of an inactive job, and a
      network or volume that nobody needs exactly when a container that stays, or a sidecar in
      the case of a network, was using it. */
  lemma SweepRemoves(d: Docker, jobs: Jobs, w: Listings)
    requires AllWork(w)
    ensures var r := Swept(d, jobs, w);
            var runners, sidecars := OrphanRunners(d, jobs, true), OrphanSidecars(d, jobs, true);
            && (forall c :: !IsOrphanRunner(c, r, jobs) && !IsOrphanSidecar(c, r, jobs))
            && (forall n | IsOrphanNetwork(n, jobs) :: n in r.networks <==> n in d.networks && d.networks[n] - runners != {})
            && (forall v | IsOrphanVolume(v, jobs) :: v in r.volumes <==> v in d.volumes && d.volumes[v] - runners - sidecars != {})
  {
    hide IsActiveJob, StartsWith, SidecarJob, IsOrphanNetwork, IsOrphanVolume;
    var r, runners, sidecars := Swept(d, jobs, w), OrphanRunners(d, jobs, true), OrphanSidecars(d, jobs, true);
    forall v | v in d.volumes ensures d.volumes[v] - runners - (sidecars - runners) == d.volumes[v] - runners - sidecars {
    }
  }

  /** Nothing that an active job needs, and nothing that is not the sweep's business, goes. */
  lemma SweepKeeps(d: Docker, jobs: Jobs, w: Listings)
    ensures var r := Swept(d, jobs, w);
            && (forall c | c in d.containers :: !IsOrphanRunner(c, d, jobs) && !IsOrphanSidecar(c, d, jobs) ==>
                  c in r.containers && r.containers[c] == d.containers[c])
            && (forall n | n in d.networks :: !IsOrphanNetwork(n, jobs) ==> n in r.networks)
            && (forall v | v in d.volumes :: !IsOrphanVolume(v, jobs) ==> v in r.volumes)
  {
    hide IsActiveJob, StartsWith, SidecarJob, IsOrphanNetwork, IsOrphanVolume;
  }

  /** A network that nobody needs is kept by the first sweep only because of sidecars that the
      same sweep removes after it. */
  ghost predicate SidecarsDelay(d: Docker, jobs: Jobs) {
    exists n :: n in d.networks && IsDelayed(n, d, jobs)
  }

  predicate IsDelayed(n: string, d: Docker, jobs: Jobs)
    requires n in d.networks
  {
    var runners := OrphanRunners(d, jobs, true);
    IsOrphanNetwork(n, jobs) && d.networks[n] - runners != {} && d.networks[n] - runners - OrphanSidecars(d, jobs, true) == {}
  }

  lemma NothingMoreToList(d: Docker, jobs: Jobs, w: Listings)
    requires AllWork(w)
    ensures var r := Swept(d, jobs, w); OrphanRunners(r, jobs, true) == {} && OrphanSidecars(r, jobs, true) == {}
  {
    hide IsActiveJob, StartsWith, SidecarJob, IsOrphanNetwork, IsOrphanVolume, Swept;
    SweepRemoves(d, jobs, w);
  }

  lemma QuietSweep(r: Docker, jobs: Jobs, w: Listings)
    requires AllWork(w) && OrphanRunners(r, jobs, true) == {} && OrphanSidecars(r, jobs, true) == {}
    ensures Swept(r, jobs, w) == r.(networks := KeepUsed(r.networks, OrphanNetworks(r, jobs, true)),
                                    volumes := KeepUsed(r.volumes, OrphanVolumes(r, jobs, true)))
  {
    hide OrphanRunners, OrphanSidecars, OrphanNetworks, OrphanVolumes, Detached, KeepUsed;
    DetachedNone(r.networks);
    DetachedNone(r.volumes);
    DetachedNone(KeepUsed(r.networks, OrphanNetworks(r, jobs, true)));
    var runners, sidecars := OrphanRunners(r, jobs, w.runners), OrphanSidecars(r, jobs, w.sidecars);
    assert sidecars - runners == {};
    assert r.containers - runners - (sidecars - runners) == r.containers;
  }

  /** A second sweep removes nothing if and only if no network was delayed in the first one. */
  lemma SecondSweep(d: Docker, jobs: Jobs, w: Listings)
    requires AllWork(w)
    ensures Swept(Swept(d, jobs, w), jobs, w) == Swept(d, jobs, w) <==> !SidecarsDelay(d, jobs)
  {
    hide Swept, OrphanRunners, OrphanSidecars, IsOrphanNetwork, IsOrphanVolume;
    var r := Swept(d, jobs, w);
    NothingMoreToList(d, jobs, w);
    QuietSweep(r, jobs, w);
    NetworkLeft(d, jobs, w);
    if n :| n in d.networks && IsDelayed(n, d, jobs) {
      assert n in r.networks && n !in KeepUsed(r.networks, OrphanNetworks(r, jobs, true));
    }
  }

  /** A sidecar in the network of a job that is gone: the network goes only in the second sweep. */
  lemma SidecarDelaysNetwork(w: Listings)
    requires AllWork(w)
    ensures var d := Docker(map["ssh-egress-a" := Label(false, "")], map["job-a" := {"ssh-egress-a"}], map[]);
            SidecarsDelay(d, map[]) && Swept(Swept(d, map[], w), map[], w) != Swept(d, map[], w)
  {
    hide Swept;
    var d := Docker(map["ssh-egress-a" := Label(false, "")], map["job-a" := {"ssh-egress-a"}], map[]);
    PrefixOf(SIDECAR_PREFIX, "a");
    PrefixOf(NETWORK_PREFIX, "a");
    assert SIDECAR_PREFIX + "a" == "ssh-egress-a" && NETWORK_PREFIX + "a" == "job-a";
    assert IsOrphanSidecar("ssh-egress-a", d, map[]);
    assert "ssh-egress-a" in d.networks["job-a"] - OrphanRunners(d, map[], true);
    assert "ssh-egress-a" in OrphanSidecars(d, map[], true);
    assert d.networks["job-a"] - OrphanRunners(d, map[], true) - OrphanSidecars(d, map[], true) == {};
    assert IsDelayed("job-a", d, map[]);
    SecondSweep(d, map[], w);
  }

  /** How the networks and volumes look after a sweep. */
  lemma NetworkLeft(d: Docker, jobs: Jobs, w: Listings)
    requires AllWork(w)
    ensures var r := Swept(d, jobs, w);
            && (forall n | n in d.networks && IsDelayed(n, d, jobs) :: n in r.networks && r.networks[n] == {} && IsOrphanNetwork(n, jobs))
            && (forall n | n in r.networks :: IsOrphanNetwork(n, jobs) && r.networks[n] == {} ==> n in d.networks && IsDelayed(n, d, jobs))
            && (forall v | v in r.volumes :: IsOrphanVolume(v, jobs) ==> r.volumes[v] != {})
  {
    hide IsOrphanRunner, IsOrphanSidecar, IsOrphanNetwork, IsOrphanVolume;
    var r, runners, sidecars := Swept(d, jobs, w), OrphanRunners(d, jobs, true), OrphanSidecars(d, jobs, true);
    forall n | n in d.networks ensures d.networks[n] - runners - (sidecars - runners) == d.networks[n] - runners - sidecars {
    }
  }

  // ---------- runs of jobs and sweeps ----------

  datatype Kind = Runner | Network | Sidecar | Volume

  /** Something a job has made and not released. */
  datatype Artifact = Artifact(kind: Kind, job: string)

  datatype Host = Host(jobs: Jobs, docker: Docker, live: set<Artifact>)

  datatype HostStep =
    | Enqueue(id: string, network: string)
    | Make(a: Artifact)
    | Attach(network: string, container: string)
    | Mount(volume: string, container: string)
    | Release(a: Artifact)
    | Update(id: string, status: Status, finishedAt: Option<int>, volume: string)
    | SweepNow(now: int, retentionDays: int, w: Listings)

  function Name(a: Artifact): string {
    match a.kind
    case Runner => RUNNER_PREFIX + a.job
    case Network => NETWORK_PREFIX + a.job
    case Sidecar => SIDECAR_PREFIX + a.job
    case Volume => VOLUME_PREFIX + a.job
  }

  /** Job ids are fresh, a record is written before anything is made for the job, and a finished
      job does not become active again. */
  predicate CanHappen(h: Host, step: HostStep) {
    match step
    case Enqueue(id, network) => id !in h.jobs && Strip(id) == id && (forall a | a in h.live :: a.job != id) && network in {"", NETWORK_PREFIX + id}
    case Make(a) => IsActiveJob(h.jobs, a.job)
    case Attach(network, container) => network in h.docker.networks && container in h.docker.containers
    case Mount(volume, container) => volume in h.docker.volumes && container in h.docker.containers
    case Release(a) => a in h.live
    case Update(id, status, _, volume) =>
      id in h.jobs && (IsTerminal(status) || IsActive(h.jobs[id])) && volume in {"", VOLUME_PREFIX + id}
    case SweepNow(_, retentionDays, _) => retentionDays >= 1
  }

  function Made(d: Docker, a: Artifact): Docker {
    match a.kind
    case Runner => d.(containers := d.containers[Name(a) := Label(true, a.job)])
    case Network => d.(networks := if Name(a) in d.networks then d.networks else d.networks[Name(a) := {}])
    case Sidecar => d.(containers := d.containers[Name(a) := Label(false, a.job)])
    case Volume => d.(volumes := if Name(a) in d.volumes then d.volumes else d.volumes[Name(a) := {}])
  }

  function Released(d: Docker, a: Artifact): Docker {
    match a.kind
    case Runner => RemoveContainer(d, Name(a))
    case Sidecar => RemoveContainer(d, Name(a))
    case Network => d.(networks := RemoveUnused(d.networks, Name(a)))
    case Volume => d.(volumes := RemoveUnused(d.volumes, Name(a)))
  }

  function Happen(h: Host, step: HostStep): Host
    requires CanHappen(h, step)
  {
    match step
    case Enqueue(id, network) => h.(jobs := h.jobs[id := Record(Some(Queued), network, "", None)])
    case Make(a) => h.(docker := Made(h.docker, a), live := h.live + {a})
    case Attach(network, container) =>
      h.(docker := h.docker.(networks := h.docker.networks[network := h.docker.networks[network] + {container}]))
    case Mount(volume, container) =>
      h.(docker := h.docker.(volumes := h.docker.volumes[volume := h.docker.volumes[volume] + {container}]))
    case Release(a) => h.(docker := Released(h.docker, a), live := h.live - {a})
    case Update(id, status, finishedAt, volume) =>
      h.(jobs := h.jobs[id := Record(Some(status), h.jobs[id].network, volume, finishedAt)])
    case SweepNow(now, retentionDays, w) =>
      h.(jobs := KeptJobs(h.jobs, now - retentionDays * DAY), docker := Swept(h.docker, h.jobs, w))
  }

  predicate AllCanHappen(h: Host, steps: seq<HostStep>)
    decreases |steps|
  {
    steps == [] || (CanHappen(h, steps[0]) && AllCanHappen(Happen(h, steps[0]), steps[1..]))
  }

  function HappenAll(h: Host, steps: seq<HostStep>): Host
    requires AllCanHappen(h, steps)
    decreases |steps|
  {
    if steps == [] then h else HappenAll(Happen(h, steps[0]), steps[1..])
  }

  predicate IsPresent(d: Docker, a: Artifact) {
    match a.kind
    case Runner => Name(a) in d.containers && d.containers[Name(a)] == Label(true, a.job)
    case Network => Name(a) in d.networks
    case Sidecar => Name(a) in d.containers && d.containers[Name(a)] == Label(false, a.job)
    case Volume => Name(a) in d.volumes
  }

  predicate RecordFits(id: string, r: Record) {
    Strip(id) == id && r.network in {"", NETWORK_PREFIX + id} && r.volume in {"", VOLUME_PREFIX + id}
  }

  ghost predicate HostInv(h: Host) {
    && (forall id | id in h.jobs :: RecordFits(id, h.jobs[id]))
    && (forall a | a in h.live :: IsActiveJob(h.jobs, a.job) ==> IsPresent(h.docker, a))
  }

  lemma PrefixOf(prefix: string, rest: string)
    ensures StartsWith(prefix + rest, prefix) && (prefix + rest)[|prefix|..] == rest
  {
  }

  lemma RunnerIsNoSidecar(job: string)
    ensures !StartsWith(RUNNER_PREFIX + job, SIDECAR_PREFIX)
  {
    assert (RUNNER_PREFIX + job)[0] == 'i';
    FirstChar(RUNNER_PREFIX + job, SIDECAR_PREFIX);
  }

  lemma FirstChar(name: string, prefix: string)
    requires name != "" && prefix != ""
    ensures StartsWith(name, prefix) ==> name[0] == prefix[0]
  {
    if StartsWith(name, prefix) {
      assert name[..|prefix|][0] == name[0];
    }
  }

  lemma SamePrefix(prefix: string, x: string, y: string)
    ensures prefix + x == prefix + y ==> x == y
  {
    PrefixOf(prefix, x);
    PrefixOf(prefix, y);
  }

  predicate IsContainer(a: Artifact) {
    a.kind.Runner? || a.kind.Sidecar?
  }

  /** Two artifacts of the same sort have different names. */
  lemma NamesDiffer(a: Artifact, b: Artifact)
    requires a != b && (a.kind == b.kind || (IsContainer(a) && IsContainer(b)))
    ensures Name(a) != Name(b)
  {
    hide StartsWith;
    if a.kind == b.kind {
      var prefix := match a.kind case Runner => RUNNER_PREFIX case Network => NETWORK_PREFIX case Sidecar => SIDECAR_PREFIX case Volume => VOLUME_PREFIX;
      SamePrefix(prefix, a.job, b.job);
    } else {
      var runner, sidecar := if a.kind.Runner? then a else b, if a.kind.Runner? then b else a;
      RunnerIsNoSidecar(runner.job);
      PrefixOf(SIDECAR_PREFIX, sidecar.job);
    }
  }

  /** An artifact of an active job is none of the sweep's orphans. */
  lemma ActiveIsNoOrphan(h: Host, a: Artifact)
    requires a.job in h.jobs && RecordFits(a.job, h.jobs[a.job]) && IsActiveJob(h.jobs, a.job)
    requires IsPresent(h.docker, a)
    ensures match a.kind
            case Runner => !IsOrphanRunner(Name(a), h.docker, h.jobs) && !IsOrphanSidecar(Name(a), h.docker, h.jobs)
            case Network => !IsOrphanNetwork(Name(a), h.jobs)
            case Sidecar => !IsOrphanRunner(Name(a), h.docker, h.jobs) && !IsOrphanSidecar(Name(a), h.docker, h.jobs)
            case Volume => !IsOrphanVolume(Name(a), h.jobs)
  {
    hide Strip, StartsWith;
    PrefixOf(SIDECAR_PREFIX, a.job);
    RunnerIsNoSidecar(a.job);
    var r := h.jobs[a.job];
    assert NetworkOf(a.job, r) == NETWORK_PREFIX + a.job && VolumeOf(a.job, r) == VOLUME_PREFIX + a.job;
  }

  lemma SweepKeepsPresent(h: Host, a: Artifact, w: Listings)
    requires a.job in h.jobs && RecordFits(a.job, h.jobs[a.job]) && IsActiveJob(h.jobs, a.job)
    requires IsPresent(h.docker, a)
    ensures IsPresent(Swept(h.docker, h.jobs, w), a)
  {
    hide Swept, IsOrphanRunner, IsOrphanSidecar, IsOrphanNetwork, IsOrphanVolume, RecordFits;
    ActiveIsNoOrphan(h, a);
    SweepKeeps(h.docker, h.jobs, w);
  }

  lemma SweepHappens(h: Host, now: int, retentionDays: int, w: Listings)
    requires HostInv(h) && CanHappen(h, SweepNow(now, retentionDays, w))
    ensures HostInv(Happen(h, SweepNow(now, retentionDays, w)))
  {
    hide Swept, IsPresent, RecordFits, IsStale;
    var g := Happen(h, SweepNow(now, retentionDays, w));
    forall a | a in g.live && IsActiveJob(g.jobs, a.job) ensures IsPresent(g.docker, a) {
      SweepKeepsPresent(h, a, w);
    }
  }

  lemma ReleaseHappens(h: Host, gone: Artifact)
    requires HostInv(h) && CanHappen(h, Release(gone))
    ensures HostInv(Happen(h, Release(gone)))
  {
    hide Strip;
    var g := Happen(h, Release(gone));
    forall a | a in g.live && IsActiveJob(g.jobs, a.job) ensures IsPresent(g.docker, a) {
      StillThere(h.docker, a, gone);
    }
  }

  lemma StillThere(d: Docker, a: Artifact, gone: Artifact)
    requires a != gone && IsPresent(d, a)
    ensures IsPresent(Released(d, gone), a)
  {
    hide Name;
    if a.kind == gone.kind || (IsContainer(a) && IsContainer(gone)) { NamesDiffer(a, gone); }
  }

  lemma MadeIsThere(d: Docker, a: Artifact, made: Artifact)
    requires a == made || IsPresent(d, a)
    ensures IsPresent(Made(d, made), a)
  {
    hide Name;
    if a != made && (a.kind == made.kind || (IsContainer(a) && IsContainer(made))) { NamesDiffer(a, made); }
  }

  lemma OtherStepHappens(h: Host, step: HostStep)
    requires HostInv(h) && CanHappen(h, step) && !step.SweepNow? && !step.Release?
    ensures HostInv(Happen(h, step))
  {
    hide Strip, Name, Made;
    var g := Happen(h, step);
    forall a | a in g.live && IsActiveJob(g.jobs, a.job) ensures IsPresent(g.docker, a) {
      if step.Make? { MadeIsThere(h.docker, a, step.a); }
    }
  }

  lemma {:induction false} HostRuns(h: Host, steps: seq<HostStep>)
    requires HostInv(h) && AllCanHappen(h, steps)
    ensures HostInv(HappenAll(h, steps))
    decreases |steps|
  {
    hide HostInv, CanHappen, Happen;
    if steps != [] {
      var step := steps[0];
      if step.SweepNow? { SweepHappens(h, step.now, step.retentionDays, step.w); }
      else if step.Release? { ReleaseHappens(h, step.a); }
      else { OtherStepHappens(h, step); }
      HostRuns(Happen(h, step), steps[1..]);
    }
  }

  /** Over every run from an empty host, with sweeps at any points, whatever a queued or running
      job has made and not released itself is still there. */
  lemma ActiveJobsKeepArtifacts(docker: Docker, steps: seq<HostStep>)
    requires AllCanHappen(Host(map[], docker, {}), steps)
    ensures var h := HappenAll(Host(map[], docker, {}), steps);
            forall a | a in h.live && IsActiveJob(h.jobs, a.job) :: IsPresent(h.docker, a)
  {
    hide CanHappen, Happen, IsPresent, RecordFits;
    HostRuns(Host(map[], docker, {}), steps);
  }

  /** A directory is deleted exactly when its job has ended no later than the cutoff; a sweep
      leaves the same jobs active. */
  lemma SweepKeepsActive(jobs: Jobs, cutoff: int)
    ensures ActiveNetworks(KeptJobs(jobs, cutoff)) == ActiveNetworks(jobs) && ActiveVolumes(KeptJobs(jobs, cutoff)) == ActiveVolumes(jobs)
    ensures forall id :: IsActiveJob(KeptJobs(jobs, cutoff), id) <==> IsActiveJob(jobs, id)
    ensures forall id | id in jobs :: id !in KeptJobs(jobs, cutoff) <==> !IsActive(jobs[id]) && IsStale(jobs[id], cutoff)
  {
    hide NetworkOf, VolumeOf;
    var kept := KeptJobs(jobs, cutoff);
    assert forall id :: id in kept && IsActive(kept[id]) <==> id in jobs && IsActive(jobs[id]);
  }

  // ---------- what goes, by names, labels and records ----------

  /** A record of the id is queued or running. */
  predicate IsBusy(jobs: Jobs, id: string) {
    id in jobs && jobs[id].status in {Some(Queued), Some(Running)}
  }

  /** The network belongs to a queued or running job, by its record or by its name. */
  ghost predicate IsBusyNetwork(jobs: Jobs, n: string) {
    exists id :: IsBusy(jobs, id) && n == if jobs[id].network == "" then "job-" + id else jobs[id].network
  }

  ghost predicate IsBusyVolume(jobs: Jobs, v: string) {
    exists id :: IsBusy(jobs, id) && v == if jobs[id].volume == "" then "infinito-job-secrets-" + id else jobs[id].volume
  }

  /** The container bears the label of a runner or the name of a sidecar, and its job is neither
      queued nor running. */
  predicate IsLeftover(d: Docker, jobs: Jobs, c: string) {
    c in d.containers
    && ((d.containers[c].isRunner && !IsBusy(jobs, d.containers[c].jobId))
        || ("ssh-egress-" <= c && !IsBusy(jobs, Strip(c[11..]))))
  }

  lemma StartsMeans(name: string, prefix: string)
    ensures StartsWith(name, prefix) <==> prefix <= name
  {
  }

  lemma OrphanMeans(d: Docker, jobs: Jobs, c: string)
    ensures IsLeftover(d, jobs, c) <==> IsOrphanRunner(c, d, jobs) || IsOrphanSidecar(c, d, jobs)
  {
    hide Strip;
    StartsMeans(c, SIDECAR_PREFIX);
    assert SIDECAR_PREFIX == "ssh-egress-" && |SIDECAR_PREFIX| == 11;
  }

  lemma BusyMeans(jobs: Jobs, name: string)
    ensures IsOrphanNetwork(name, jobs) <==> "job-" <= name && !IsBusyNetwork(jobs, name)
    ensures IsOrphanVolume(name, jobs) <==> "infinito-job-secrets-" <= name && !IsBusyVolume(jobs, name)
  {
    StartsMeans(name, NETWORK_PREFIX);
    StartsMeans(name, VOLUME_PREFIX);
    forall id ensures IsBusy(jobs, id) <==> id in jobs && IsActive(jobs[id]) {
    }
  }

  /** A container stays exactly if it is not left over by a job that has ended. A network or
      volume goes exactly if it has the name of one of a job, no queued or running job has it,
      and nothing that stays uses it; a sidecar that goes still holds a network. */
  lemma SweepByNames(d: Docker, jobs: Jobs, w: Listings)
    requires AllWork(w)
    ensures var r := Swept(d, jobs, w);
            && (forall c :: c in r.containers <==> c in d.containers && !IsLeftover(d, jobs, c))
            && (forall n :: n in r.networks <==>
                  n in d.networks
                  && ("job-" <= n && !IsBusyNetwork(jobs, n) ==>
                        exists c :: c in d.networks[n] && !(c in d.containers && d.containers[c].isRunner && !IsBusy(jobs, d.containers[c].jobId))))
            && (forall v :: v in r.volumes <==>
                  v in d.volumes
                  && ("infinito-job-secrets-" <= v && !IsBusyVolume(jobs, v) ==>
                        exists c :: c in d.volumes[v] && !IsLeftover(d, jobs, c)))
  {
    hide IsBusyNetwork, IsBusyVolume, IsOrphanNetwork, IsOrphanVolume, StartsWith, Strip, Swept;
    var r := Swept(d, jobs, w);
    forall c ensures c in r.containers <==> c in d.containers && !IsLeftover(d, jobs, c) {
      ContainerStays(d, jobs, w, c);
    }
    forall n ensures n in r.networks <==>
        n in d.networks
        && ("job-" <= n && !IsBusyNetwork(jobs, n) ==>
              exists c :: c in d.networks[n] && !(c in d.containers && d.containers[c].isRunner && !IsBusy(jobs, d.containers[c].jobId)))
    {
      NetworkStays(d, jobs, w, n);
    }
    forall v ensures v in r.volumes <==>
        v in d.volumes
        && ("infinito-job-secrets-" <= v && !IsBusyVolume(jobs, v) ==> exists c :: c in d.volumes[v] && !IsLeftover(d, jobs, c))
    {
      VolumeStays(d, jobs, w, v);
    }
  }

  lemma ContainerStays(d: Docker, jobs: Jobs, w: Listings, c: string)
    requires AllWork(w)
    ensures c in Swept(d, jobs, w).containers <==> c in d.containers && !IsLeftover(d, jobs, c)
  {
    hide IsOrphanRunner, IsOrphanSidecar, IsLeftover;
    OrphanMeans(d, jobs, c);
  }

  lemma NetworkStays(d: Docker, jobs: Jobs, w: Listings, n: string)
    requires AllWork(w)
    ensures n in Swept(d, jobs, w).networks <==>
              n in d.networks
              && ("job-" <= n && !IsBusyNetwork(jobs, n) ==>
                    exists c :: c in d.networks[n] && !(c in d.containers && d.containers[c].isRunner && !IsBusy(jobs, d.containers[c].jobId)))
  {
    hide Swept, IsBusyNetwork, IsBusyVolume, IsOrphanNetwork, IsOrphanVolume;
    BusyMeans(jobs, n);
    SweptNetwork(d, jobs, w, n);
    if n in d.networks {
      NotAll(d.networks[n], OrphanRunners(d, jobs, true));
      forall c ensures c in OrphanRunners(d, jobs, true) <==>
          c in d.containers && d.containers[c].isRunner && !IsBusy(jobs, d.containers[c].jobId)
      {
      }
    }
  }

  lemma NotAll(users: set<string>, gone: set<string>)
    ensures users - gone != {} <==> exists c :: c in users && c !in gone
  {
    if users - gone != {} {
      var c :| c in users - gone;
      assert c in users && c !in gone;
    } else {
      forall c | c in users ensures c in gone {
        assert c !in users - gone;
      }
    }
  }

  lemma VolumeStays(d: Docker, jobs: Jobs, w: Listings, v: string)
    requires AllWork(w)
    ensures v in Swept(d, jobs, w).volumes <==>
              v in d.volumes
              && ("infinito-job-secrets-" <= v && !IsBusyVolume(jobs, v) ==> exists c :: c in d.volumes[v] && !IsLeftover(d, jobs, c))
  {
    hide Swept, IsBusyNetwork, IsBusyVolume, IsOrphanNetwork, IsOrphanVolume, IsOrphanRunner, IsOrphanSidecar, IsLeftover;
    BusyMeans(jobs, v);
    SweptVolume(d, jobs, w, v);
    if v in d.volumes {
      var runners, sidecars := OrphanRunners(d, jobs, true), OrphanSidecars(d, jobs, true);
      assert d.volumes[v] - runners - (sidecars - runners) == d.volumes[v] - (runners + sidecars);
      NotAll(d.volumes[v], runners + sidecars);
      forall c ensures c in runners + sidecars <==> IsLeftover(d, jobs, c) {
        OrphanMeans(d, jobs, c);
        LeftoverIsThere(d, jobs, c);
      }
    }
  }

  lemma LeftoverIsThere(d: Docker, jobs: Jobs, c: string)
    ensures IsLeftover(d, jobs, c) || IsOrphanRunner(c, d, jobs) || IsOrphanSidecar(c, d, jobs) ==> c in d.containers
  {
  }

  /** A directory goes exactly if its job succeeded, failed or was cancelled and ended at least
      the days of retention ago; the others stay as they are. */
  lemma StaleDirsGo(jobs: Jobs, now: int, days: int, id: string)
    ensures var kept := KeptJobs(jobs, now - days * DAY);
            && (id in kept <==>
                  id in jobs
                  && !(jobs[id].status in {Some(Succeeded), Some(Failed), Some(Canceled)}
                       && jobs[id].finishedAt.Some? && jobs[id].finishedAt.value + days * 86400 <= now))
            && (id in kept ==> kept[id] == jobs[id])
  {
  }

  // ---------- the sweep as a step of one job ----------

  function Seen(w: World, container: bool, network: bool, volume: bool, attached: set<string>): World {
    w.(container := container, network := network, volume := volume, attached := attached)
  }

  /** The containers besides the job's own that are attached to its network. */
  function OthersAttached(d: Docker, id: string): set<string> {
    if NETWORK_PREFIX + id in d.networks then d.networks[NETWORK_PREFIX + id] - {RUNNER_PREFIX + id} else {}
  }

  /** What the life of one job looks at, read off the host. */
  function JobWorld(d: Docker, id: string, w: World): World {
    Seen(w, RUNNER_PREFIX + id in d.containers, NETWORK_PREFIX + id in d.networks, VOLUME_PREFIX + id in d.volumes,
         OthersAttached(d, id))
  }

  /** The job's container bears its label and uses its network and volume; besides, only
      containers that the sweep leaves alone are attached to the network, and nobody else uses
      the volume. */
  predicate IsSetUp(d: Docker, jobs: Jobs, id: string) {
    var runner, network, volume := RUNNER_PREFIX + id, NETWORK_PREFIX + id, VOLUME_PREFIX + id;
    && (runner in d.containers ==> d.containers[runner] == Label(true, id))
    && (network in d.networks ==>
          && (runner in d.networks[network] <==> runner in d.containers)
          && forall c | c in d.networks[network] && c != runner :: !IsOrphanRunner(c, d, jobs) && !IsOrphanSidecar(c, d, jobs))
    && (volume in d.volumes ==> d.volumes[volume] == if runner in d.containers then {runner} else {})
  }

  lemma OrphanNames(d: Docker, jobs: Jobs, id: string)
    requires !IsActiveJob(jobs, id) && IsSetUp(d, jobs, id)
    requires NETWORK_PREFIX + id !in ActiveNetworks(jobs) && VOLUME_PREFIX + id !in ActiveVolumes(jobs)
    ensures var runner := RUNNER_PREFIX + id;
            && (IsOrphanRunner(runner, d, jobs) <==> runner in d.containers) && !IsOrphanSidecar(runner, d, jobs)
            && IsOrphanNetwork(NETWORK_PREFIX + id, jobs) && IsOrphanVolume(VOLUME_PREFIX + id, jobs)
  {
    hide StartsWith, ActiveNetworks, ActiveVolumes;
    RunnerIsNoSidecar(id);
    PrefixOf(NETWORK_PREFIX, id);
    PrefixOf(VOLUME_PREFIX, id);
  }

  /** One network and one volume in a sweep. */
  lemma SweptNetwork(d: Docker, jobs: Jobs, w: Listings, n: string)
    ensures var r, runners := Swept(d, jobs, w), OrphanRunners(d, jobs, w.runners);
            && (n in r.networks <==> n in d.networks && !(w.networks && IsOrphanNetwork(n, jobs) && d.networks[n] - runners == {}))
            && (n in r.networks ==> r.networks[n] == d.networks[n] - runners - (OrphanSidecars(d, jobs, w.sidecars) - runners))
  {
    hide IsOrphanRunner, IsOrphanSidecar, IsOrphanNetwork, IsOrphanVolume, OrphanRunners, OrphanSidecars;
  }

  lemma SweptVolume(d: Docker, jobs: Jobs, w: Listings, v: string)
    ensures var r, runners := Swept(d, jobs, w), OrphanRunners(d, jobs, w.runners);
            v in r.volumes <==>
              v in d.volumes
              && !(w.volumes && IsOrphanVolume(v, jobs) && d.volumes[v] - runners - (OrphanSidecars(d, jobs, w.sidecars) - runners) == {})
  {
    hide IsOrphanRunner, IsOrphanSidecar, IsOrphanNetwork, IsOrphanVolume, OrphanRunners, OrphanSidecars;
  }

  lemma SweptContainer(d: Docker, jobs: Jobs, w: Listings, id: string)
    requires !IsActiveJob(jobs, id) && IsSetUp(d, jobs, id)
    requires NETWORK_PREFIX + id !in ActiveNetworks(jobs) && VOLUME_PREFIX + id !in ActiveVolumes(jobs)
    ensures var runner, runners := RUNNER_PREFIX + id, OrphanRunners(d, jobs, w.runners);
            && (runner in runners <==> w.runners && runner in d.containers)
            && runner !in OrphanSidecars(d, jobs, w.sidecars)
            && (runner in Swept(d, jobs, w).containers <==> runner in d.containers && !w.runners)
  {
    hide IsOrphanRunner, IsOrphanSidecar, IsOrphanNetwork, IsOrphanVolume, IsActiveJob, IsSetUp, ActiveNetworks, ActiveVolumes;
    OrphanNames(d, jobs, id);
  }

  /** What is left of the network's users once the orphans are gone. */
  lemma UsersLeft(d: Docker, jobs: Jobs, w: Listings, id: string)
    requires !IsActiveJob(jobs, id) && IsSetUp(d, jobs, id) && NETWORK_PREFIX + id in d.networks
    requires NETWORK_PREFIX + id !in ActiveNetworks(jobs) && VOLUME_PREFIX + id !in ActiveVolumes(jobs)
    ensures var users, runner, runners := d.networks[NETWORK_PREFIX + id], RUNNER_PREFIX + id, OrphanRunners(d, jobs, w.runners);
            && users - runners == (if w.runners then users - {runner} else users)
            && users - runners - (OrphanSidecars(d, jobs, w.sidecars) - runners) == users - runners
  {
    hide IsOrphanRunner, IsOrphanSidecar, IsActiveJob, ActiveNetworks, ActiveVolumes;
    SweptContainer(d, jobs, w, id);
    var users := d.networks[NETWORK_PREFIX + id];
    forall c | c in users && c != RUNNER_PREFIX + id
      ensures c !in OrphanRunners(d, jobs, w.runners) && c !in OrphanSidecars(d, jobs, w.sidecars)
    {
    }
  }

  lemma NetworkOfJob(d: Docker, jobs: Jobs, w: Listings, id: string)
    requires !IsActiveJob(jobs, id) && IsSetUp(d, jobs, id)
    requires NETWORK_PREFIX + id !in ActiveNetworks(jobs) && VOLUME_PREFIX + id !in ActiveVolumes(jobs)
    requires NETWORK_PREFIX + id in d.networks
    ensures var r, network, runner := Swept(d, jobs, w), NETWORK_PREFIX + id, RUNNER_PREFIX + id;
            var others := d.networks[network] - {runner};
            && (network in r.networks <==> !(w.networks && others == {} && (w.runners || runner !in d.containers)))
            && (network in r.networks ==> r.networks[network] - {runner} == others)
  {
    hide IsActiveJob, ActiveNetworks, ActiveVolumes, Swept, OrphanRunners, OrphanSidecars, IsOrphanRunner, IsOrphanSidecar,
         IsOrphanNetwork, IsOrphanVolume;
    OrphanNames(d, jobs, id);
    SweptNetwork(d, jobs, w, NETWORK_PREFIX + id);
    UsersLeft(d, jobs, w, id);
    var users, runner := d.networks[NETWORK_PREFIX + id], RUNNER_PREFIX + id;
    assert users - {runner} - {runner} == users - {runner};
    assert users == {} <==> users - {runner} == {} && runner !in users;
  }

  lemma VolumeOfJob(d: Docker, jobs: Jobs, w: Listings, id: string)
    requires !IsActiveJob(jobs, id) && IsSetUp(d, jobs, id)
    requires NETWORK_PREFIX + id !in ActiveNetworks(jobs) && VOLUME_PREFIX + id !in ActiveVolumes(jobs)
    ensures var volume, runner := VOLUME_PREFIX + id, RUNNER_PREFIX + id;
            volume in Swept(d, jobs, w).volumes
            <==> volume in d.volumes && !(w.volumes && (w.runners || runner !in d.containers))
  {
    hide IsActiveJob, ActiveNetworks, ActiveVolumes, Swept, OrphanRunners, OrphanSidecars, IsOrphanRunner, IsOrphanSidecar,
         IsOrphanNetwork, IsOrphanVolume;
    OrphanNames(d, jobs, id);
    SweptVolume(d, jobs, w, VOLUME_PREFIX + id);
    SweptContainer(d, jobs, w, id);
    if VOLUME_PREFIX + id in d.volumes {
      var users, runners := d.volumes[VOLUME_PREFIX + id], OrphanRunners(d, jobs, w.runners);
      assert users - runners - (OrphanSidecars(d, jobs, w.sidecars) - runners) == if w.runners then {} else users;
      assert users == {} <==> RUNNER_PREFIX + id !in d.containers;
    }
  }

  lemma UnknownNetwork(d: Docker, jobs: Jobs, w: Listings, n: string)
    ensures n !in d.networks ==> n !in Swept(d, jobs, w).networks
  {
    hide OrphanRunners, OrphanSidecars, OrphanNetworks;
  }

  lemma SweptSeen(w: World, container: bool, network: bool, volume: bool, attached: set<string>, n: Names, runners: bool,
                  networks: bool, volumes: bool)
    requires n.network != "" && n.volume != ""
    ensures var left, step := container && !runners, SweptWorld(Seen(w, container, network, volume, attached), n, runners, networks, volumes);
            step == Seen(w, left, network && !(networks && attached == {} && !left), volume && !(volumes && !left), attached)
  {
  }

  lemma OthersStay(d: Docker, jobs: Jobs, w: Listings, id: string)
    requires !IsActiveJob(jobs, id) && IsSetUp(d, jobs, id)
    requires NETWORK_PREFIX + id !in ActiveNetworks(jobs) && VOLUME_PREFIX + id !in ActiveVolumes(jobs)
    ensures var network, left := NETWORK_PREFIX + id, RUNNER_PREFIX + id in d.containers && !w.runners;
            && OthersAttached(Swept(d, jobs, w), id) == OthersAttached(d, id)
            && (network in Swept(d, jobs, w).networks
                <==> network in d.networks && !(w.networks && OthersAttached(d, id) == {} && !left))
  {
    hide IsActiveJob, ActiveNetworks, ActiveVolumes, Swept, IsSetUp;
    UnknownNetwork(d, jobs, w, NETWORK_PREFIX + id);
    if NETWORK_PREFIX + id in d.networks { NetworkOfJob(d, jobs, w, id); }
  }

  /** For a job that is not active a sweep of the host is the sweep step of its protocol. */
  lemma {:induction false} SweepOfJob(d: Docker, jobs: Jobs, w: Listings, id: string, n: Names, before: World)
    requires !IsActiveJob(jobs, id) && IsSetUp(d, jobs, id)
    requires NETWORK_PREFIX + id !in ActiveNetworks(jobs) && VOLUME_PREFIX + id !in ActiveVolumes(jobs)
    requires n.network == NETWORK_PREFIX + id && n.volume == VOLUME_PREFIX + id
    ensures JobWorld(Swept(d, jobs, w), id, before) == SweptWorld(JobWorld(d, id, before), n, w.runners, w.networks, w.volumes)
  {
    hide IsActiveJob, ActiveNetworks, ActiveVolumes, Swept, IsSetUp, SweptWorld, OrphanRunners, OrphanSidecars, OthersAttached, Seen;
    SweptContainer(d, jobs, w, id);
    VolumeOfJob(d, jobs, w, id);
    OthersStay(d, jobs, w, id);
    NotEmpty(id);
    SweptSeen(before, RUNNER_PREFIX + id in d.containers, NETWORK_PREFIX + id in d.networks, VOLUME_PREFIX + id in d.volumes,
              OthersAttached(d, id), n, w.runners, w.networks, w.volumes);
  }

  lemma NotEmpty(id: string)
    ensures NETWORK_PREFIX + id != "" && VOLUME_PREFIX + id != ""
  {
  }
}
