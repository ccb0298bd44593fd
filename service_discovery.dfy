/** The Linux service-discovery cycle: three pid-keyed tables (potential services seen with open
    ports last cycle, alive services, ignored pids) updated from a snapshot of the running
    processes and the system-probe list of services with open ports. */
module ServiceDiscovery {
  import opened Common

  /** One minute, in nanoseconds (`time.Minute`). */
  const Minute: int := 60_000_000_000

  /** Process names ignored on Linux in addition to the configured ones. */
  const IgnoreCfgLinux: seq<string> :=
    ["sshd", "dhclient", "systemd", "systemd-resolved", "systemd-networkd", "datadog-agent", "livenessprobe", "docker-proxy"]

  /** `/proc/<pid>/stat`, reduced to the start time in clock ticks since boot. */
  datatype ProcStat = ProcStat(Starttime: uint64)

  /** A running process; `Stat` is None when its stat file cannot be read. */
  datatype Proc = Proc(PID: int, Stat: Option<ProcStat>)

  /** A service with open ports as reported by the system probe. */
  datatype ModelService = ModelService(PID: int, Name: string, Ports: seq<int>)

  datatype ProcessInfo = ProcessInfo(PID: int, StartTime: uint64, Ports: seq<int>)
  datatype ServiceMetadata = ServiceMetadata(Name: string)
  datatype ServiceInfo = ServiceInfo(Process: ProcessInfo, Meta: ServiceMetadata, LastHeartbeat: int)

  datatype ErrorCode = ErrorCodeProcfs | ErrorCodeSystemProbeConn | ErrorCodeSystemProbeServices

  /** What the system probe answers: no connection, a failed query, or the services. */
  datatype ProbeAnswer = ProbeUnreachable | ServicesUnavailable | Services(Services: seq<ModelService>)

  datatype Events = Events(Start: seq<ServiceInfo>, Stop: seq<ServiceInfo>, Heartbeat: seq<ServiceInfo>)

  datatype Discovered = Discovered(
    AliveProcsCount: nat, IgnoreProcs: set<int>, Potentials: map<int, ServiceInfo>,
    RunningServices: map<int, ServiceInfo>, Events: Events)

  datatype Result<T> = Ok(value: T) | Err(code: ErrorCode)

  /** The three tables; an ignored pid is a key mapped to true, so the table is a set. */
  datatype Tables = Tables(Ignore: set<int>, Alive: map<int, ServiceInfo>, Potentials: map<int, ServiceInfo>)

  /** The configuration with every name of `names` marked ignored, other entries kept. */
  function MarkIgnored(cfg: map<string, bool>, names: seq<string>): (r: map<string, bool>)
    ensures r.Keys == cfg.Keys + set n | n in names
    ensures forall n :: n in names ==> r[n]
    ensures forall n :: n in cfg && n !in names ==> r[n] == cfg[n]
  {
    cfg + map n | n in names :: true
  }

  /** `newLinuxImpl`: the Linux defaults are added to the configured names, as ignored. */
  function MergeIgnoreCfg(cfg: map<string, bool>): map<string, bool> {
    MarkIgnored(cfg, IgnoreCfgLinux)
  }

  lemma MarkIgnoredSnoc(cfg: map<string, bool>, names: seq<string>, n: string)
    ensures MarkIgnored(cfg, names + [n]) == MarkIgnored(cfg, names)[n := true]
  {
    var a := MarkIgnored(cfg, names + [n]);
    var b := MarkIgnored(cfg, names)[n := true];
    assert forall x :: x in names + [n] <==> x in names || x == n;
    assert a.Keys == b.Keys;
    forall x | x in a
      ensures a[x] == b[x]
    {
    }
  }

  /** The merge loop of `newLinuxImpl`, one name at a time. */
  method MarkEachIgnored(cfg: map<string, bool>, names: seq<string>) returns (r: map<string, bool>)
    ensures r == MarkIgnored(cfg, names)
  {
    r := cfg;
    var i := 0;
    while i < |names|
      invariant 0 <= i <= |names|
      invariant r == MarkIgnored(cfg, names[..i])
    {
      assert names[..i + 1] == names[..i] + [names[i]];
      MarkIgnoredSnoc(cfg, names[..i], names[i]);
      r := r[names[i] := true];
      i := i + 1;
    }
    assert names[..i] == names;
  }

  /** Whether a process name is ignored by configuration (a missing name reads as false). */
  predicate Ignored(cfg: map<string, bool>, name: string) {
    name in cfg && cfg[name]
  }

  /** The distinct pids of a process list. */
  function ProcPids(procs: seq<Proc>): set<int> {
    set i | 0 <= i < |procs| :: procs[i].PID
  }

  /** `aliveProcs`: the processes by pid; for a repeated pid the later process wins. */
  function AliveProcMap(procs: seq<Proc>): (r: map<int, Proc>)
    ensures r.Keys == ProcPids(procs)
    ensures forall pid :: pid in r ==> r[pid].PID == pid && r[pid] in procs
  {
    if procs == [] then map[]
    else
      var init := procs[..|procs| - 1];
      var r0 := AliveProcMap(init);
      assert forall p :: p in init ==> p in procs;
      assert ProcPids(procs) == ProcPids(init) + {procs[|procs| - 1].PID} by {
        forall x | x in ProcPids(procs)
          ensures x in ProcPids(init) + {procs[|procs| - 1].PID}
        {
          var i :| 0 <= i < |procs| && procs[i].PID == x;
          if i < |procs| - 1 {
            assert init[i] == procs[i];
          }
        }
        forall x | x in ProcPids(init)
          ensures x in ProcPids(procs)
        {
          var i :| 0 <= i < |init| && init[i].PID == x;
          assert procs[i] == init[i];
        }
      }
      r0[procs[|procs| - 1].PID := procs[|procs| - 1]]
  }

  /** Every process appears in the table under its own pid, and the table has one entry per
      distinct pid: `aliveProcsCount` counts distinct pids. */
  lemma AliveProcMapCount(procs: seq<Proc>)
    ensures |AliveProcMap(procs)| == |ProcPids(procs)|
    ensures forall i :: 0 <= i < |procs| ==> procs[i].PID in AliveProcMap(procs)
  {
    var m := AliveProcMap(procs);
    assert |m| == |m.Keys|;
    forall i | 0 <= i < |procs|
      ensures procs[i].PID in m
    {
      assert procs[i].PID in ProcPids(procs);
    }
  }

  /** `getServiceInfo`: fails when the stat file cannot be read; otherwise the start time is the
      boot time plus the ticks since boot in whole seconds (100 ticks a second), in 64-bit
      unsigned arithmetic, with the name and ports of the reported service. */
  function GetServiceInfo(bootTime: uint64, p: Proc, s: ModelService, now: int): (r: Option<ServiceInfo>)
    ensures r.None? <==> p.Stat.None?
    ensures r.Some? ==> (r.value.Process.PID == p.PID && r.value.Process.Ports == s.Ports
                         && r.value.Meta.Name == s.Name && r.value.LastHeartbeat == now)
  {
    match p.Stat
    case None => None
    case Some(stat) =>
      Some(ServiceInfo(ProcessInfo(p.PID, (bootTime + stat.Starttime / 100) % Uint64Limit, s.Ports), ServiceMetadata(s.Name), now))
  }

  /** The start time counts whole seconds since boot: it is the boot time plus the ticks rounded
      down to seconds, and it wraps only when that sum leaves 64 bits. */
  lemma StartTimeSeconds(bootTime: uint64, p: Proc, s: ModelService, now: int)
    requires p.Stat.Some?
    ensures var st := GetServiceInfo(bootTime, p, s, now).value.Process.StartTime;
      var ticks := p.Stat.value.Starttime;
      (bootTime + ticks / 100 < Uint64Limit ==> (st - bootTime) * 100 <= ticks < (st - bootTime + 1) * 100)
      && (bootTime + ticks / 100 >= Uint64Limit ==> st == bootTime + ticks / 100 - Uint64Limit)
  {
    var ticks := p.Stat.value.Starttime;
    assert ticks / 100 < Uint64Limit;
    if bootTime + ticks / 100 >= Uint64Limit {
      assert bootTime + ticks / 100 < 2 * Uint64Limit;
      assert (bootTime + ticks / 100) % Uint64Limit == bootTime + ticks / 100 - Uint64Limit;
    }
  }

  /** Whether a heartbeat is due: the time since the last one, truncated to whole minutes, has
      reached the heartbeat period. */
  predicate Due(now: int, last: int, heartbeatTime: int): (r: bool)
    ensures heartbeatTime > 0 && r ==> now - last >= heartbeatTime
    ensures now - last >= heartbeatTime + Minute - 1 ==> r
  {
    TruncToMultiple(now - last, Minute) >= heartbeatTime
  }

  /** With a period of whole minutes, a heartbeat is due exactly when the period has elapsed. */
  lemma DueIffElapsed(now: int, last: int, heartbeatTime: int)
    requires heartbeatTime > 0 && heartbeatTime % Minute == 0
    ensures Due(now, last, heartbeatTime) <==> now - last >= heartbeatTime
  {
    var d := now - last;
    var t := TruncToMultiple(d, Minute);
    if d >= heartbeatTime {
      if t < heartbeatTime {
        DiffMultiple(heartbeatTime, t, Minute);
        SmallMultipleIsZero(heartbeatTime - t, Minute);
        assert false;
      }
    }
  }

  /** A service stamped now is not due in the same cycle. */
  lemma NotDueRightAway(now: int, heartbeatTime: int)
    requires heartbeatTime > 0
    ensures !Due(now, now, heartbeatTime)
  {
    assert TruncToMultiple(0, Minute) == 0;
  }

  /** The potentials among `done` whose process is still alive, stamped now. */
  function PromotedAmong(pot: map<int, ServiceInfo>, procs: map<int, Proc>, now: int, done: set<int>): (r: map<int, ServiceInfo>)
    ensures r.Keys == pot.Keys * procs.Keys * done
  {
    map pid | pid in done && pid in pot && pid in procs :: pot[pid].(LastHeartbeat := now)
  }

  /** All potentials that are still alive, stamped now: they become alive services. */
  function Promoted(pot: map<int, ServiceInfo>, procs: map<int, Proc>, now: int): map<int, ServiceInfo> {
    PromotedAmong(pot, procs, now, pot.Keys)
  }

  /** The scan of open-port services: new potentials and ignored pids. */
  datatype Scan = Scan(Potentials: map<int, ServiceInfo>, Ignore: set<int>)

  /** One reported service: skipped when its pid is ignored, already alive or not running; ignored
      when its info cannot be read or its name is ignored; otherwise a potential service. */
  function CandidateStep(
    cfg: map<string, bool>, bootTime: uint64, alive: map<int, ServiceInfo>, procs: map<int, Proc>, now: int,
    st: Scan, s: ModelService): (r: Scan)
    ensures r.Potentials.Keys <= st.Potentials.Keys + {s.PID} && r.Ignore <= st.Ignore + {s.PID}
    ensures st.Ignore <= r.Ignore
    ensures r != st ==> s.PID !in st.Ignore && s.PID !in alive && s.PID in procs
    ensures r.Potentials != st.Potentials ==>
      r.Ignore == st.Ignore && s.PID in r.Potentials && GetServiceInfo(bootTime, procs[s.PID], s, now) == Some(r.Potentials[s.PID])
      && !Ignored(cfg, s.Name)
    ensures r.Ignore != st.Ignore ==> r.Potentials == st.Potentials && r.Ignore == st.Ignore + {s.PID}
    ensures forall pid :: pid != s.PID && pid in st.Potentials ==> pid in r.Potentials && r.Potentials[pid] == st.Potentials[pid]
    ensures s.PID !in st.Ignore && s.PID !in alive && s.PID in procs ==>
      match GetServiceInfo(bootTime, procs[s.PID], s, now)
      case None => r == st.(Ignore := st.Ignore + {s.PID})
      case Some(svc) =>
        if Ignored(cfg, s.Name) then r == st.(Ignore := st.Ignore + {s.PID})
        else r == st.(Potentials := st.Potentials[s.PID := svc])
  {
    var pid := s.PID;
    if pid in st.Ignore || pid in alive || pid !in procs then st
    else
      match GetServiceInfo(bootTime, procs[pid], s, now)
      case None => st.(Ignore := st.Ignore + {pid})
      case Some(svc) =>
        if Ignored(cfg, svc.Meta.Name) then st.(Ignore := st.Ignore + {pid})
        else st.(Potentials := st.Potentials[pid := svc])
  }

  /** The reported services, scanned in order. Only reported pids are added to either table, and
      every new potential service is a running pid, neither alive nor ignored at the start. */
  function Candidates(
    cfg: map<string, bool>, bootTime: uint64, alive: map<int, ServiceInfo>, procs: map<int, Proc>, now: int,
    st: Scan, services: seq<ModelService>): (r: Scan)
    ensures st.Ignore <= r.Ignore <= st.Ignore + ServicePids(services)
    ensures forall pid :: pid in r.Potentials && pid !in st.Potentials ==>
      pid in ServicePids(services) && pid in procs && pid !in alive && pid !in st.Ignore
  {
    if services == [] then st
    else
      var n := |services|;
      var r0 := Candidates(cfg, bootTime, alive, procs, now, st, services[..n - 1]);
      ServicePidsSnoc(services);
      CandidateStep(cfg, bootTime, alive, procs, now, r0, services[n - 1])
  }

  /** Every new potential service holds the info of a report of its pid under a kept name. */
  lemma {:induction false} CandidatesFound(
    cfg: map<string, bool>, bootTime: uint64, alive: map<int, ServiceInfo>, procs: map<int, Proc>, now: int,
    st: Scan, services: seq<ModelService>)
    ensures var r := Candidates(cfg, bootTime, alive, procs, now, st, services);
      forall pid :: pid in r.Potentials && pid !in st.Potentials ==>
        pid in procs && exists i :: (0 <= i < |services| && services[i].PID == pid && !Ignored(cfg, services[i].Name)
                                     && GetServiceInfo(bootTime, procs[pid], services[i], now) == Some(r.Potentials[pid]))
  {
    if services != [] {
      var n := |services|;
      var init := services[..n - 1];
      CandidatesFound(cfg, bootTime, alive, procs, now, st, init);
      var r0 := Candidates(cfg, bootTime, alive, procs, now, st, init);
      var r := Candidates(cfg, bootTime, alive, procs, now, st, services);
      forall pid | pid in r.Potentials && pid !in st.Potentials
        ensures pid in procs && exists i :: (0 <= i < n && services[i].PID == pid && !Ignored(cfg, services[i].Name)
                                             && GetServiceInfo(bootTime, procs[pid], services[i], now) == Some(r.Potentials[pid]))
      {
        if pid == services[n - 1].PID && r.Potentials != r0.Potentials {
          assert services[n - 1].PID == pid;
        } else {
          var i :| 0 <= i < n - 1 && init[i].PID == pid && !Ignored(cfg, init[i].Name)
            && GetServiceInfo(bootTime, procs[pid], init[i], now) == Some(r0.Potentials[pid]);
          assert services[i] == init[i];
        }
      }
    }
  }

  /** Where a reported pid that is running ends up after a scan: a potential service holding its
      info when its stat is readable and its name is kept, an ignored pid otherwise. */
  predicate Recorded(cfg: map<string, bool>, bootTime: uint64, procs: map<int, Proc>, now: int, s: ModelService, r: Scan)
    requires s.PID in procs
  {
    match GetServiceInfo(bootTime, procs[s.PID], s, now)
    case None => s.PID in r.Ignore && s.PID !in r.Potentials
    case Some(svc) =>
      if Ignored(cfg, s.Name) then s.PID in r.Ignore && s.PID !in r.Potentials
      else s.PID in r.Potentials && r.Potentials[s.PID] == svc && s.PID !in r.Ignore
  }

  /** The alive services among `done` checked: a dead one is dropped, a due one stamped now;
      those not yet checked are kept as they are. */
  function CheckedAmong(alive: map<int, ServiceInfo>, procs: map<int, Proc>, now: int, heartbeatTime: int, done: set<int>)
    : (r: map<int, ServiceInfo>)
    ensures r.Keys == set pid | pid in alive && (pid in done ==> pid in procs)
  {
    map pid | pid in alive && (pid in done ==> pid in procs) ::
      if pid in done && Due(now, alive[pid].LastHeartbeat, heartbeatTime) then alive[pid].(LastHeartbeat := now) else alive[pid]
  }

  /** The alive services among `done` whose process is gone: one stop event each. */
  function StoppedAmong(alive: map<int, ServiceInfo>, procs: map<int, Proc>, done: set<int>): (r: map<int, ServiceInfo>)
    ensures r.Keys == (alive.Keys * done) - procs.Keys
  {
    map pid | pid in done && pid in alive && pid !in procs :: alive[pid]
  }

  /** The alive services among `done` still running and due: one heartbeat event each, stamped now. */
  function BeatenAmong(alive: map<int, ServiceInfo>, procs: map<int, Proc>, now: int, heartbeatTime: int, done: set<int>)
    : (r: map<int, ServiceInfo>)
    ensures r.Keys <= alive.Keys * procs.Keys * done
  {
    map pid | pid in done && pid in alive && pid in procs && Due(now, alive[pid].LastHeartbeat, heartbeatTime) ::
      alive[pid].(LastHeartbeat := now)
  }

  /** The alive services once potentials still running have been promoted. */
  function AliveAfterPromotion(t: Tables, procs: map<int, Proc>, now: int): map<int, ServiceInfo> {
    t.Alive + Promoted(t.Potentials, procs, now)
  }

  /** One successful `DiscoverServices` cycle on the tables. */
  function Cycle(
    cfg: map<string, bool>, bootTime: uint64, heartbeatTime: int, t: Tables, procs: map<int, Proc>,
    services: seq<ModelService>, now: int): (r: Tables)
    ensures r.Alive.Keys == (t.Alive.Keys + t.Potentials.Keys) * procs.Keys
    ensures r.Ignore <= procs.Keys
    ensures forall pid :: pid in r.Alive && pid in t.Alive && pid !in t.Potentials && !Due(now, t.Alive[pid].LastHeartbeat, heartbeatTime) ==>
      r.Alive[pid] == t.Alive[pid]
    ensures forall pid :: pid in r.Potentials ==>
      pid in ServicePids(services) && pid in procs && pid !in AliveAfterPromotion(t, procs, now) && pid !in t.Ignore
      && exists i :: (0 <= i < |services| && services[i].PID == pid && !Ignored(cfg, services[i].Name)
                      && GetServiceInfo(bootTime, procs[pid], services[i], now) == Some(r.Potentials[pid]))
    ensures t.Ignore * procs.Keys <= r.Ignore <= (t.Ignore + ServicePids(services)) * procs.Keys
  {
    var alive := AliveAfterPromotion(t, procs, now);
    CandidatesFound(cfg, bootTime, alive, procs, now, Scan(map[], t.Ignore), services);
    var scan := Candidates(cfg, bootTime, alive, procs, now, Scan(map[], t.Ignore), services);
    Tables(scan.Ignore * procs.Keys,
           CheckedAmong(alive, procs, now, heartbeatTime, alive.Keys),
           scan.Potentials)
  }

  /** `order` lists the keys of a table, each exactly once. */
  ghost predicate Enumerates(order: seq<int>, keys: set<int>) {
    (forall i, j :: 0 <= i < j < |order| ==> order[i] != order[j])
    && (forall i :: 0 <= i < |order| ==> order[i] in keys)
    && (forall k :: k in keys ==> k in order)
  }

  /** `evs` holds the services of `m` in the order `order`. */
  ghost predicate ListedBy(evs: seq<ServiceInfo>, m: map<int, ServiceInfo>, order: seq<int>) {
    |evs| == |order| && forall i :: 0 <= i < |order| ==> order[i] in m && evs[i] == m[order[i]]
  }

  /** The events for a table: each of its services exactly once, in the (unspecified) order in
      which the table was iterated. */
  ghost predicate ListsOnce(evs: seq<ServiceInfo>, m: map<int, ServiceInfo>) {
    exists order :: Enumerates(order, m.Keys) && ListedBy(evs, m, order)
  }

  /** Scanning keeps its bounds: new potentials are running pids that are not alive, and new
      ignored pids are running pids. */
  lemma {:induction false} CandidatesBounds(
    cfg: map<string, bool>, bootTime: uint64, alive: map<int, ServiceInfo>, procs: map<int, Proc>, now: int,
    st: Scan, services: seq<ModelService>)
    ensures var r := Candidates(cfg, bootTime, alive, procs, now, st, services);
      r.Potentials.Keys <= st.Potentials.Keys + (procs.Keys - alive.Keys)
      && st.Ignore <= r.Ignore && r.Ignore <= st.Ignore + procs.Keys
  {
    if services != [] {
      CandidatesBounds(cfg, bootTime, alive, procs, now, st, services[..|services| - 1]);
    }
  }

  /** The pids of a list of reported services. */
  function ServicePids(services: seq<ModelService>): set<int> {
    set i | 0 <= i < |services| :: services[i].PID
  }

  lemma ServicePidsSnoc(services: seq<ModelService>)
    requires services != []
    ensures ServicePids(services) == ServicePids(services[..|services| - 1]) + {services[|services| - 1].PID}
  {
    var n := |services|;
    var init := services[..n - 1];
    forall x | x in ServicePids(services)
      ensures x in ServicePids(init) + {services[n - 1].PID}
    {
      var i :| 0 <= i < n && services[i].PID == x;
      if i < n - 1 {
        assert init[i] == services[i];
      }
    }
    forall x | x in ServicePids(init)
      ensures x in ServicePids(services)
    {
      var i :| 0 <= i < n - 1 && init[i].PID == x;
      assert services[i] == init[i];
    }
  }

  predicate DistinctPids(services: seq<ModelService>) {
    forall i, j :: 0 <= i < j < |services| ==> services[i].PID != services[j].PID
  }

  /** With every pid reported once, a scan from no potentials never both ignores and keeps a pid. */
  lemma {:induction false} CandidatesDisjoint(
    cfg: map<string, bool>, bootTime: uint64, alive: map<int, ServiceInfo>, procs: map<int, Proc>, now: int,
    ignore: set<int>, services: seq<ModelService>)
    requires DistinctPids(services)
    ensures var r := Candidates(cfg, bootTime, alive, procs, now, Scan(map[], ignore), services);
      r.Potentials.Keys !! r.Ignore && r.Potentials.Keys <= ServicePids(services)
      && r.Ignore <= ignore + ServicePids(services)
  {
    var st := Scan(map[], ignore);
    CandidatesRecord(cfg, bootTime, alive, procs, now, st, services);
    var r := Candidates(cfg, bootTime, alive, procs, now, st, services);
    forall pid | pid in r.Potentials
      ensures pid !in r.Ignore
    {
      var i :| 0 <= i < |services| && services[i].PID == pid;
      assert Recorded(cfg, bootTime, procs, now, services[i], r);
    }
  }

  /** With every pid reported once, each reported pid that is running, neither alive nor ignored
      at the start, and not already a potential, is recorded as `Recorded` says. */
  lemma {:induction false} CandidatesRecord(
    cfg: map<string, bool>, bootTime: uint64, alive: map<int, ServiceInfo>, procs: map<int, Proc>, now: int,
    st: Scan, services: seq<ModelService>)
    requires DistinctPids(services)
    ensures var r := Candidates(cfg, bootTime, alive, procs, now, st, services);
      forall i :: (0 <= i < |services| && services[i].PID in procs && services[i].PID !in alive
                   && services[i].PID !in st.Ignore && services[i].PID !in st.Potentials) ==>
        Recorded(cfg, bootTime, procs, now, services[i], r)
  {
    if services != [] {
      var n := |services|;
      var init := services[..n - 1];
      var s := services[n - 1];
      assert DistinctPids(init);
      CandidatesRecord(cfg, bootTime, alive, procs, now, st, init);
      var r0 := Candidates(cfg, bootTime, alive, procs, now, st, init);
      var r := CandidateStep(cfg, bootTime, alive, procs, now, r0, s);
      assert s.PID !in ServicePids(init);
      forall i | 0 <= i < n && services[i].PID in procs && services[i].PID !in alive
        && services[i].PID !in st.Ignore && services[i].PID !in st.Potentials
        ensures Recorded(cfg, bootTime, procs, now, services[i], r)
      {
        if i < n - 1 {
          assert init[i] == services[i];
          assert services[i].PID != s.PID;
          assert Recorded(cfg, bootTime, procs, now, init[i], r0);
        }
      }
    }
  }

  /** With every pid reported once, a cycle records each reported pid that is running, neither
      alive after promotion nor ignored: a potential service holding its info when its stat is
      readable and its name is kept, an ignored pid otherwise. */
  lemma CycleRecordsCandidates(
    cfg: map<string, bool>, bootTime: uint64, heartbeatTime: int, t: Tables, procs: map<int, Proc>,
    services: seq<ModelService>, now: int)
    requires DistinctPids(services)
    ensures var r := Cycle(cfg, bootTime, heartbeatTime, t, procs, services, now);
      forall i :: (0 <= i < |services| && services[i].PID in procs && services[i].PID !in AliveAfterPromotion(t, procs, now)
                   && services[i].PID !in t.Ignore) ==>
        Recorded(cfg, bootTime, procs, now, services[i], Scan(r.Potentials, r.Ignore))
  {
    var alive := AliveAfterPromotion(t, procs, now);
    var st := Scan(map[], t.Ignore);
    CandidatesRecord(cfg, bootTime, alive, procs, now, st, services);
    var scan := Candidates(cfg, bootTime, alive, procs, now, st, services);
    forall i | 0 <= i < |services| && services[i].PID in procs && services[i].PID !in alive && services[i].PID !in t.Ignore
      ensures Recorded(cfg, bootTime, procs, now, services[i], Scan(scan.Potentials, scan.Ignore * procs.Keys))
    {
      assert Recorded(cfg, bootTime, procs, now, services[i], scan);
    }
  }

  /** After a cycle every table holds running pids only. */
  lemma CycleKeysAreAlive(
    cfg: map<string, bool>, bootTime: uint64, heartbeatTime: int, t: Tables, procs: map<int, Proc>,
    services: seq<ModelService>, now: int)
    ensures var r := Cycle(cfg, bootTime, heartbeatTime, t, procs, services, now);
      r.Alive.Keys <= procs.Keys && r.Potentials.Keys <= procs.Keys && r.Ignore <= procs.Keys
  {
    var alive := AliveAfterPromotion(t, procs, now);
    CandidatesBounds(cfg, bootTime, alive, procs, now, Scan(map[], t.Ignore), services);
  }

  /** After a cycle no potential service is an alive service. */
  lemma CyclePotentialsNotAlive(
    cfg: map<string, bool>, bootTime: uint64, heartbeatTime: int, t: Tables, procs: map<int, Proc>,
    services: seq<ModelService>, now: int)
    ensures var r := Cycle(cfg, bootTime, heartbeatTime, t, procs, services, now);
      r.Potentials.Keys !! r.Alive.Keys
  {
    var alive := AliveAfterPromotion(t, procs, now);
    CandidatesBounds(cfg, bootTime, alive, procs, now, Scan(map[], t.Ignore), services);
  }

  /** After a cycle in which every pid was reported once, no potential service is ignored. */
  lemma CyclePotentialsNotIgnored(
    cfg: map<string, bool>, bootTime: uint64, heartbeatTime: int, t: Tables, procs: map<int, Proc>,
    services: seq<ModelService>, now: int)
    requires DistinctPids(services)
    ensures var r := Cycle(cfg, bootTime, heartbeatTime, t, procs, services, now);
      r.Potentials.Keys !! r.Ignore
  {
    var alive := AliveAfterPromotion(t, procs, now);
    CandidatesDisjoint(cfg, bootTime, alive, procs, now, t.Ignore, services);
  }

  /** A pid reported twice, once under a kept name and then under an ignored one, ends up both a
      potential service and ignored: the previous lemma needs its distinct-pid premise. */
  lemma RepeatedPidBothPotentialAndIgnored(bootTime: uint64, now: int)
    ensures var procs := map[7 := Proc(7, Some(ProcStat(0)))];
      var services := [ModelService(7, "web", [80]), ModelService(7, "sshd", [22])];
      var r := Cycle(MergeIgnoreCfg(map[]), bootTime, Minute, Tables({}, map[], map[]), procs, services, now);
      7 in r.Potentials && 7 in r.Ignore
  {
    var cfg := MergeIgnoreCfg(map[]);
    var procs := map[7 := Proc(7, Some(ProcStat(0)))];
    var services := [ModelService(7, "web", [80]), ModelService(7, "sshd", [22])];
    var t := Tables({}, map[], map[]);
    assert "sshd" in IgnoreCfgLinux;
    assert !Ignored(cfg, "web");
    var alive := AliveAfterPromotion(t, procs, now);
    assert alive == map[];
    assert services[..1][..0] == [];
    assert services[..1] == [services[0]];
    assert Candidates(cfg, bootTime, alive, procs, now, Scan(map[], {}), services[..1][..0]) == Scan(map[], {});
    var s0 := Candidates(cfg, bootTime, alive, procs, now, Scan(map[], {}), services[..1]);
    assert s0 == CandidateStep(cfg, bootTime, alive, procs, now, Scan(map[], {}), services[0]);
    assert GetServiceInfo(bootTime, procs[7], services[0], now).Some?;
    assert 7 in s0.Potentials;
    var s1 := Candidates(cfg, bootTime, alive, procs, now, Scan(map[], {}), services);
    assert s1 == CandidateStep(cfg, bootTime, alive, procs, now, s0, services[1]);
    assert 7 in s1.Ignore && 7 in s1.Potentials;
  }

  /** A promoted service does not also get a heartbeat in the cycle that promoted it. */
  lemma PromotedNotBeaten(t: Tables, procs: map<int, Proc>, now: int, heartbeatTime: int, pid: int)
    requires heartbeatTime > 0 && pid in Promoted(t.Potentials, procs, now)
    ensures var alive := AliveAfterPromotion(t, procs, now);
      pid !in BeatenAmong(alive, procs, now, heartbeatTime, alive.Keys)
  {
    NotDueRightAway(now, heartbeatTime);
  }

  /** Every service alive before the check is either reported stopped or still alive, never both. */
  lemma StoppedOrKept(alive: map<int, ServiceInfo>, procs: map<int, Proc>, now: int, heartbeatTime: int)
    ensures StoppedAmong(alive, procs, alive.Keys).Keys + CheckedAmong(alive, procs, now, heartbeatTime, alive.Keys).Keys == alive.Keys
    ensures StoppedAmong(alive, procs, alive.Keys).Keys !! CheckedAmong(alive, procs, now, heartbeatTime, alive.Keys).Keys
  {
  }

  /** Appending one service under a new pid extends an ordered event list. */
  lemma ListedSnoc(evs: seq<ServiceInfo>, m: map<int, ServiceInfo>, order: seq<int>, pid: int, v: ServiceInfo)
    requires Enumerates(order, m.Keys) && ListedBy(evs, m, order) && pid !in m
    ensures Enumerates(order + [pid], m[pid := v].Keys) && ListedBy(evs + [v], m[pid := v], order + [pid])
  {
  }

  /** Updating a union at one key updates its right-hand side. */
  lemma UnionUpdate(a: map<int, ServiceInfo>, b: map<int, ServiceInfo>, k: int, v: ServiceInfo)
    ensures (a + b)[k := v] == a + b[k := v]
  {
    var l := (a + b)[k := v];
    var r := a + b[k := v];
    assert l.Keys == r.Keys;
    forall x | x in l
      ensures l[x] == r[x]
    {
    }
  }

  /** Promoting one more potential. */
  lemma PromoteStep(pot: map<int, ServiceInfo>, procs: map<int, Proc>, now: int, done: set<int>, pid: int)
    requires pid in pot && pid !in done
    ensures PromotedAmong(pot, procs, now, done + {pid})
      == (if pid in procs then PromotedAmong(pot, procs, now, done)[pid := pot[pid].(LastHeartbeat := now)]
          else PromotedAmong(pot, procs, now, done))
  {
  }

  /** Promoting one more potential keeps the promotion loop's account: the alive table and the
      start events grow by the promoted service exactly when its process is running. */
  lemma PromoteAdvance(
    alive0: map<int, ServiceInfo>, pot: map<int, ServiceInfo>, procs: map<int, Proc>, now: int, done: set<int>,
    pid: int, alive: map<int, ServiceInfo>, start: seq<ServiceInfo>, order: seq<int>)
    requires pid in pot && pid !in done
    requires alive == alive0 + PromotedAmong(pot, procs, now, done)
    requires Enumerates(order, PromotedAmong(pot, procs, now, done).Keys) && ListedBy(start, PromotedAmong(pot, procs, now, done), order)
    ensures var p := PromotedAmong(pot, procs, now, done + {pid});
      var svc := pot[pid].(LastHeartbeat := now);
      if pid in procs then
        alive[pid := svc] == alive0 + p && Enumerates(order + [pid], p.Keys) && ListedBy(start + [svc], p, order + [pid])
      else
        alive == alive0 + p && Enumerates(order, p.Keys) && ListedBy(start, p, order)
  {
    PromoteStep(pot, procs, now, done, pid);
    if pid in procs {
      var svc := pot[pid].(LastHeartbeat := now);
      ListedSnoc(start, PromotedAmong(pot, procs, now, done), order, pid, svc);
      UnionUpdate(alive0, PromotedAmong(pot, procs, now, done), pid, svc);
    }
  }

  /** Checking one more alive service: a dead one is dropped and listed stopped, a due one is
      stamped and listed beaten, any other is left alone. */
  lemma CheckStep(alive: map<int, ServiceInfo>, procs: map<int, Proc>, now: int, heartbeatTime: int, done: set<int>, pid: int)
    requires pid in alive && pid !in done
    ensures var c := CheckedAmong(alive, procs, now, heartbeatTime, done);
      var beat := alive[pid].(LastHeartbeat := now);
      CheckedAmong(alive, procs, now, heartbeatTime, done + {pid})
        == (if pid !in procs then c - {pid}
            else if Due(now, alive[pid].LastHeartbeat, heartbeatTime) then c[pid := beat]
            else c)
    ensures StoppedAmong(alive, procs, done + {pid})
      == (if pid !in procs then StoppedAmong(alive, procs, done)[pid := alive[pid]] else StoppedAmong(alive, procs, done))
    ensures BeatenAmong(alive, procs, now, heartbeatTime, done + {pid})
      == (if pid in procs && Due(now, alive[pid].LastHeartbeat, heartbeatTime)
          then BeatenAmong(alive, procs, now, heartbeatTime, done)[pid := alive[pid].(LastHeartbeat := now)]
          else BeatenAmong(alive, procs, now, heartbeatTime, done))
  {
  }

  /** The Linux service-discovery state. */
  class LinuxImpl {
    const bootTime: uint64
    const ignoreCfg: map<string, bool>
    const heartbeatTime: int
    var ignoreProcs: set<int>
    var aliveServices: map<int, ServiceInfo>
    var potentialServices: map<int, ServiceInfo>

    /** `newLinuxImpl`: the Linux defaults join the ignore configuration; every table starts empty. */
    constructor (ignoreCfg: map<string, bool>, bootTime: uint64, heartbeatTime: int)
      ensures this.ignoreCfg == MergeIgnoreCfg(ignoreCfg) && this.bootTime == bootTime && this.heartbeatTime == heartbeatTime
      ensures ignoreProcs == {} && aliveServices == map[] && potentialServices == map[]
    {
      var cfg := MarkEachIgnored(ignoreCfg, IgnoreCfgLinux);
      this.ignoreCfg := cfg;
      this.bootTime := bootTime;
      this.heartbeatTime := heartbeatTime;
      ignoreProcs := {};
      aliveServices := map[];
      potentialServices := map[];
    }

    function State(): Tables
      reads this
    {
      Tables(ignoreProcs, aliveServices, potentialServices)
    }

    /** `aliveProcs`: the process list by pid, or the procfs error. */
    method AliveProcs(all: Option<seq<Proc>>) returns (r: Option<map<int, Proc>>)
      ensures r.None? <==> all.None?
      ensures r.Some? ==> r.value == AliveProcMap(all.value)
    {
      if all.None? {
        return None;
      }
      var procs := all.value;
      var m: map<int, Proc> := map[];
      var i := 0;
      while i < |procs|
        invariant 0 <= i <= |procs|
        invariant m == AliveProcMap(procs[..i])
      {
        assert procs[..i + 1][..i] == procs[..i];
        m := m[procs[i].PID := procs[i]];
        i := i + 1;
      }
      assert procs[..i] == procs;
      return Some(m);
    }

    /** Potentials whose process is still alive become alive services stamped now, each with a
        start event; the potentials are then cleared. */
    method PromotePotentials(procs: map<int, Proc>, now: int) returns (start: seq<ServiceInfo>)
      modifies this
      ensures aliveServices == old(aliveServices) + Promoted(old(potentialServices), procs, now)
      ensures potentialServices == map[] && ignoreProcs == old(ignoreProcs)
      ensures ListsOnce(start, Promoted(old(potentialServices), procs, now))
    {
      ghost var pot := potentialServices;
      var todo := potentialServices.Keys;
      ghost var order: seq<int> := [];
      start := [];
      while todo != {}
        invariant todo <= pot.Keys && potentialServices == pot && ignoreProcs == old(ignoreProcs)
        invariant aliveServices == old(aliveServices) + PromotedAmong(pot, procs, now, pot.Keys - todo)
        invariant Enumerates(order, PromotedAmong(pot, procs, now, pot.Keys - todo).Keys)
        invariant ListedBy(start, PromotedAmong(pot, procs, now, pot.Keys - todo), order)
        decreases |todo|
      {
        NonEmptyHasMember(todo);
        var pid :| pid in todo;
        ghost var done := pot.Keys - todo;
        assert pot.Keys - (todo - {pid}) == done + {pid};
        PromoteAdvance(old(aliveServices), pot, procs, now, done, pid, aliveServices, start, order);
        if pid in procs {
          var svc := potentialServices[pid].(LastHeartbeat := now);
          aliveServices := aliveServices[pid := svc];
          start := start + [svc];
          order := order + [pid];
        }
        todo := todo - {pid};
      }
      assert pot.Keys - todo == pot.Keys;
      assert Enumerates(order, Promoted(pot, procs, now).Keys) && ListedBy(start, Promoted(pot, procs, now), order);
      potentialServices := map[];
    }

    /** The reported services, in order, become potentials or ignored pids. */
    method ScanServices(procs: map<int, Proc>, services: seq<ModelService>, now: int)
      modifies this
      ensures Scan(potentialServices, ignoreProcs)
        == Candidates(ignoreCfg, bootTime, aliveServices, procs, now, Scan(old(potentialServices), old(ignoreProcs)), services)
      ensures aliveServices == old(aliveServices)
    {
      var i := 0;
      while i < |services|
        invariant 0 <= i <= |services| && aliveServices == old(aliveServices)
        invariant Scan(potentialServices, ignoreProcs)
          == Candidates(ignoreCfg, bootTime, aliveServices, procs, now, Scan(old(potentialServices), old(ignoreProcs)), services[..i])
      {
        var s := services[i];
        var pid := s.PID;
        if pid !in ignoreProcs && pid !in aliveServices && pid in procs {
          var info := GetServiceInfo(bootTime, procs[pid], s, now);
          if info.None? {
            ignoreProcs := ignoreProcs + {pid};
          } else if Ignored(ignoreCfg, info.value.Meta.Name) {
            ignoreProcs := ignoreProcs + {pid};
          } else {
            potentialServices := potentialServices[pid := info.value];
          }
        }
        assert services[..i + 1][..i] == services[..i];
        i := i + 1;
      }
      assert services[..i] == services;
    }

    /** Alive services whose process is gone are deleted, each with a stop event; the others get
        a heartbeat event and are stamped now when one is due. */
    method CheckAlive(procs: map<int, Proc>, now: int) returns (stop: seq<ServiceInfo>, heartbeat: seq<ServiceInfo>)
      modifies this
      ensures aliveServices == CheckedAmong(old(aliveServices), procs, now, heartbeatTime, old(aliveServices).Keys)
      ensures potentialServices == old(potentialServices) && ignoreProcs == old(ignoreProcs)
      ensures ListsOnce(stop, StoppedAmong(old(aliveServices), procs, old(aliveServices).Keys))
      ensures ListsOnce(heartbeat, BeatenAmong(old(aliveServices), procs, now, heartbeatTime, old(aliveServices).Keys))
    {
      ghost var alive := aliveServices;
      var todo := aliveServices.Keys;
      ghost var stopOrder: seq<int> := [];
      ghost var beatOrder: seq<int> := [];
      stop := [];
      heartbeat := [];
      while todo != {}
        invariant todo <= alive.Keys
        invariant potentialServices == old(potentialServices) && ignoreProcs == old(ignoreProcs)
        invariant aliveServices == CheckedAmong(alive, procs, now, heartbeatTime, alive.Keys - todo)
        invariant Enumerates(stopOrder, StoppedAmong(alive, procs, alive.Keys - todo).Keys)
        invariant ListedBy(stop, StoppedAmong(alive, procs, alive.Keys - todo), stopOrder)
        invariant Enumerates(beatOrder, BeatenAmong(alive, procs, now, heartbeatTime, alive.Keys - todo).Keys)
        invariant ListedBy(heartbeat, BeatenAmong(alive, procs, now, heartbeatTime, alive.Keys - todo), beatOrder)
        decreases |todo|
      {
        NonEmptyHasMember(todo);
        var pid :| pid in todo;
        ghost var done := alive.Keys - todo;
        assert alive.Keys - (todo - {pid}) == done + {pid};
        CheckStep(alive, procs, now, heartbeatTime, done, pid);
        assert pid in aliveServices && aliveServices[pid] == alive[pid];
        var svc := aliveServices[pid];
        if pid !in procs {
          ListedSnoc(stop, StoppedAmong(alive, procs, done), stopOrder, pid, svc);
          aliveServices := aliveServices - {pid};
          stop := stop + [svc];
          stopOrder := stopOrder + [pid];
        } else if Due(now, svc.LastHeartbeat, heartbeatTime) {
          var beat := svc.(LastHeartbeat := now);
          ListedSnoc(heartbeat, BeatenAmong(alive, procs, now, heartbeatTime, done), beatOrder, pid, beat);
          aliveServices := aliveServices[pid := beat];
          heartbeat := heartbeat + [beat];
          beatOrder := beatOrder + [pid];
        }
        todo := todo - {pid};
      }
      assert alive.Keys - todo == alive.Keys;
      assert Enumerates(stopOrder, StoppedAmong(alive, procs, alive.Keys).Keys)
        && ListedBy(stop, StoppedAmong(alive, procs, alive.Keys), stopOrder);
      assert Enumerates(beatOrder, BeatenAmong(alive, procs, now, heartbeatTime, alive.Keys).Keys)
        && ListedBy(heartbeat, BeatenAmong(alive, procs, now, heartbeatTime, alive.Keys), beatOrder);
    }

    /** Ignored pids whose process is gone are forgotten. */
    method PruneIgnored(procs: map<int, Proc>)
      modifies this
      ensures ignoreProcs == old(ignoreProcs) * procs.Keys
      ensures aliveServices == old(aliveServices) && potentialServices == old(potentialServices)
    {
      var todo := ignoreProcs;
      while todo != {}
        invariant todo <= old(ignoreProcs)
        invariant aliveServices == old(aliveServices) && potentialServices == old(potentialServices)
        invariant ignoreProcs == set pid | pid in old(ignoreProcs) && (pid in todo || pid in procs)
        decreases |todo|
      {
        NonEmptyHasMember(todo);
        var pid :| pid in todo;
        if pid !in procs {
          ignoreProcs := ignoreProcs - {pid};
        }
        todo := todo - {pid};
      }
    }

    /** `DiscoverServices`: on a procfs, connection or query failure the matching error is returned
        and no table changes; otherwise the tables take one cycle and the result reports them with
        the events and the number of distinct running pids. */
    method DiscoverServices(all: Option<seq<Proc>>, probe: ProbeAnswer, now: int) returns (r: Result<Discovered>)
      modifies this
      ensures all.None? ==> r == Err(ErrorCodeProcfs)
      ensures all.Some? && probe.ProbeUnreachable? ==> r == Err(ErrorCodeSystemProbeConn)
      ensures all.Some? && probe.ServicesUnavailable? ==> r == Err(ErrorCodeSystemProbeServices)
      ensures r.Err? ==> State() == old(State())
      ensures r.Ok? <==> all.Some? && probe.Services?
      ensures r.Ok? ==>
        var procs := AliveProcMap(all.value);
        var alive := AliveAfterPromotion(old(State()), procs, now);
        State() == Cycle(ignoreCfg, bootTime, heartbeatTime, old(State()), procs, probe.Services, now)
        && r.value.AliveProcsCount == |procs| && r.value.IgnoreProcs == ignoreProcs
        && r.value.Potentials == potentialServices && r.value.RunningServices == aliveServices
        && ListsOnce(r.value.Events.Start, Promoted(old(potentialServices), procs, now))
        && ListsOnce(r.value.Events.Stop, StoppedAmong(alive, procs, alive.Keys))
        && ListsOnce(r.value.Events.Heartbeat, BeatenAmong(alive, procs, now, heartbeatTime, alive.Keys))
    {
      var procsR := AliveProcs(all);
      if procsR.None? {
        return Err(ErrorCodeProcfs);
      }
      if probe.ProbeUnreachable? {
        return Err(ErrorCodeSystemProbeConn);
      }
      if probe.ServicesUnavailable? {
        return Err(ErrorCodeSystemProbeServices);
      }
      var procs := procsR.value;
      var start := PromotePotentials(procs, now);
      ScanServices(procs, probe.Services, now);
      var stop, heartbeat := CheckAlive(procs, now);
      PruneIgnored(procs);
      r := Ok(Discovered(|procs|, ignoreProcs, potentialServices, aliveServices, Events(start, stop, heartbeat)));
    }
  }
}
