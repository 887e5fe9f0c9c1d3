/**
  The rolling deploy of container/deploy.go: start replicas one by one, register each with
  the proxies, roll everything back on a failure, then drain and remove the old containers.
 */
module RollingDeploy {
  import opened Basics
  import opened TcpProxies
  import opened DeployBags
  import opened ContainerRuntime

  datatype PortMapping = PortMapping(proxyPort: Port, containerPort: Port)

  datatype DeployError =
    | FindFailed
    | StartFailed
    | PortLookupFailed(id: Id)
    | HealthCheckFailed
    | BackendFailed(replica: DeployResult, registered: set<Port>)

  datatype Started = Healthy(result: DeployResult) | NotStarted(error: DeployError)

  datatype Outcome = Deployed(results: seq<DeployResult>, removedCount: nat) | Failed(error: DeployError)

  function ProxyPorts(ms: seq<PortMapping>): set<Port> {
    set m | m in ms :: m.proxyPort
  }

  /** Enforced on the command line. */
  predicate UniqueProxyPorts(ms: seq<PortMapping>) {
    forall i, j :: 0 <= i < j < |ms| ==> ms[i].proxyPort != ms[j].proxyPort
  }

  function Ids(rs: seq<DeployResult>): set<Id> {
    set r | r in rs :: r.id
  }

  /** Each mapped proxy reaches the replica at the host port of the mapping's container port. */
  ghost predicate MapsTo(mapped: map<Port, Port>, ms: seq<PortMapping>, ports: map<Port, Port>) {
    && mapped.Keys == ProxyPorts(ms)
    && (forall m :: m in ms ==> m.containerPort in ports && mapped[m.proxyPort] == ports[m.containerPort])
  }

  /** No old container that still runs shares a host port with a new replica. */
  ghost predicate OldNewDisjoint(f: Fleet, existing: seq<Id>, rs: seq<DeployResult>) {
    forall id, r :: id in existing && id in f && f[id].running && r in rs ==> r.mappedPorts.Values !! f[id].ports.Values
  }

  /** What the old container's lookups give: one registration per mapping it publishes. */
  function OldOne(id: Id, ports: map<Port, Port>, ms: seq<PortMapping>): seq<DeployResult> {
    if ms == [] then []
    else
      var m := ms[|ms| - 1];
      OldOne(id, ports, ms[..|ms| - 1]) +
      (if m.containerPort in ports then [DeployResult(id, map[m.proxyPort := ports[m.containerPort]], 0)] else [])
  }

  /** The registrations of all old containers, in order. */
  function OldAll(ids: seq<Id>, f: Fleet, ms: seq<PortMapping>): seq<DeployResult> {
    if ids == [] then []
    else
      var id := ids[|ids| - 1];
      OldAll(ids[..|ids| - 1], f, ms) + (if id in f then OldOne(id, f[id].ports, ms) else [])
  }

  lemma AgedTrans(f: Fleet, g: Fleet, h: Fleet)
    requires Aged(f, g) && Aged(g, h)
    ensures Aged(f, h)
  {
  }

  /** The failed command behind an error. */
  predicate Explains(cmd: Command, error: DeployError) {
    match error
    case FindFailed => cmd.DidList? && cmd.ids.None?
    case StartFailed => cmd.DidRun? && cmd.launched.None?
    case PortLookupFailed(id) => cmd.DidLookUp? && cmd.id == id && cmd.port.None?
    case HealthCheckFailed => cmd.DidCheck? && !cmd.ok
    case BackendFailed(_, _) => false
  }

  /** Since position `from` of the log a command failed that explains the error; a failed
      registration is explained by a missing proxy instead. */
  ghost predicate Caused(log: seq<Command>, from: nat, error: DeployError) {
    error.BackendFailed? || exists n :: from <= n < |log| && Explains(log[n], error)
  }

  lemma CausedKept(log: seq<Command>, from: nat, log': seq<Command>, from': nat, error: DeployError)
    requires Caused(log, from, error) && log <= log' && from' <= from
    ensures Caused(log', from', error)
  {
    if !error.BackendFailed? {
      var n :| from <= n < |log| && Explains(log[n], error);
      assert Explains(log'[n], error);
    }
  }

  // ----- startAndCheck -----

  lemma TidyLookUp(log: seq<Command>, from: nat, id: Id, log': seq<Command>, containerPort: Port, port: Option<Port>)
    requires from <= |log| && Tidy(log, from, {id}, {}, false) && log' == log + [DidLookUp(id, containerPort, port)]
    ensures Tidy(log', from, {id}, {}, false)
  {
    TidyOne(log, DidLookUp(id, containerPort, port));
    TidyJoin(log, from, {id}, {}, false, log', {id}, {}, false);
  }

  lemma MapsToNext(mapped: map<Port, Port>, ms: seq<PortMapping>, i: nat, ports: map<Port, Port>)
    requires i < |ms| && UniqueProxyPorts(ms) && MapsTo(mapped, ms[..i], ports) && ms[i].containerPort in ports
    ensures MapsTo(mapped[ms[i].proxyPort := ports[ms[i].containerPort]], ms[..i + 1], ports)
  {
    assert ms[..i + 1] == ms[..i] + [ms[i]];
    assert ProxyPorts(ms[..i + 1]) == ProxyPorts(ms[..i]) + {ms[i].proxyPort};
    forall m | m in ms[..i] ensures m.proxyPort != ms[i].proxyPort {
      var k :| 0 <= k < i && ms[k] == m;
    }
  }

  /** Looks up the host port of every mapping, each container port once. */
  method ResolveMapped(rt: Runtime, ms: seq<PortMapping>, id: Id) returns (mapped: Option<map<Port, Port>>)
    requires rt.Valid() && UniqueProxyPorts(ms) && id in rt.containers
    modifies rt
    ensures rt.Continued() && rt.failures == old(rt.failures)
    ensures Aged(old(rt.containers), rt.containers)
    ensures Tidy(rt.log, |old(rt.log)|, {id}, {}, false)
    ensures mapped.Some? ==> MapsTo(mapped.value, ms, rt.containers[id].ports)
    ensures mapped.None? ==> Caused(rt.log, |old(rt.log)|, PortLookupFailed(id))
  {
    ghost var ports := rt.containers[id].ports;
    TidyEmpty(rt.log);
    TidyWider(rt.log, |rt.log|, {}, {}, false, {id}, {}, false);
    var known: map<Port, Port> := map[];
    var result: map<Port, Port> := map[];
    for i := 0 to |ms|
      invariant rt.Valid() && rt.Continued() && rt.failures == old(rt.failures)
      invariant Tidy(rt.log, |old(rt.log)|, {id}, {}, false)
      invariant Aged(old(rt.containers), rt.containers)
      invariant forall cp :: cp in known ==> cp in ports && known[cp] == ports[cp]
      invariant MapsTo(result, ms[..i], ports)
    {
      var m := ms[i];
      if m.containerPort !in known {
        ghost var log := rt.log;
        var port := rt.GetMappedPort(id, m.containerPort);
        TidyLookUp(log, |old(rt.log)|, id, rt.log, m.containerPort, port);
        if port.None? {
          assert Explains(rt.log[|rt.log| - 1], PortLookupFailed(id));
          return None;
        }
        known := known[m.containerPort := port.value];
      }
      MapsToNext(result, ms, i, ports);
      result := result[m.proxyPort := known[m.containerPort]];
    }
    assert ms[..|ms|] == ms;
    return Some(result);
  }

  /** Runs the health check, if there is one; a container that fails it is stopped and removed. */
  method Check(rt: Runtime, id: Id, checked: bool) returns (healthy: bool)
    requires rt.Valid() && id in rt.containers
    modifies rt
    ensures rt.Continued() && Aged(old(rt.containers) - {id}, rt.containers - {id})
    ensures healthy ==> rt.failures == old(rt.failures) && Aged(old(rt.containers), rt.containers)
    ensures healthy && checked ==> DidCheck(id, true) in rt.log
    ensures Tidy(rt.log, |old(rt.log)|, {}, if healthy then {} else {id}, true)
    ensures !healthy ==> Caused(rt.log, |old(rt.log)|, HealthCheckFailed)
    ensures !healthy && rt.failures == old(rt.failures) ==> id !in rt.containers
  {
    healthy := true;
    TidyEmpty(rt.log);
    if checked {
      healthy := rt.HealthCheck(id);
      ghost var log, aged := rt.log, rt.containers;
      TidyOne(old(rt.log), DidCheck(id, healthy));
      if !healthy {
        assert Explains(log[|log| - 1], HealthCheckFailed);
        rt.StopAndRemove(id);
        CausedKept(log, |old(rt.log)|, rt.log, |old(rt.log)|, HealthCheckFailed);
        assert Aged(old(rt.containers) - {id}, aged - {id});
        TidyJoin(log, |old(rt.log)|, {}, {}, true, rt.log, {}, {id}, false);
      }
    }
  }

  /** Resolves the ports of a new container. A failed lookup is answered by `rm` alone, which a running
      container survives. */
  method ResolveOrRemove(rt: Runtime, ms: seq<PortMapping>, id: Id) returns (mapped: Option<map<Port, Port>>)
    requires rt.Valid() && UniqueProxyPorts(ms) && id in rt.containers
    modifies rt
    ensures rt.Continued() && Aged(old(rt.containers) - {id}, rt.containers - {id})
    ensures Tidy(rt.log, |old(rt.log)|, {id}, if mapped.Some? then {} else {id}, false)
    ensures mapped.Some? ==>
      && rt.failures == old(rt.failures) && Aged(old(rt.containers), rt.containers)
      && MapsTo(mapped.value, ms, rt.containers[id].ports)
    ensures mapped.None? ==> Caused(rt.log, |old(rt.log)|, PortLookupFailed(id))
    ensures mapped.None? && rt.failures == old(rt.failures) && id in rt.containers ==> rt.containers[id].running
  {
    mapped := ResolveMapped(rt, ms, id);
    ghost var log, aged := rt.log, rt.containers;
    assert Aged(old(rt.containers) - {id}, aged - {id});
    if mapped.None? {
      rt.Remove(id);
      RemoveIsTidy(log, |old(rt.log)|, id, rt.log);
      CausedKept(log, |old(rt.log)|, rt.log, |old(rt.log)|, PortLookupFailed(id));
    }
  }

  /** Starts one container and resolves its ports. */
  method Launch(rt: Runtime, app: string, ms: seq<PortMapping>)
    returns (r: Option<DeployResult>, error: DeployError, ghost made: set<Id>)
    requires rt.Valid() && UniqueProxyPorts(ms)
    modifies rt
    ensures rt.Continued() && old(rt.containers).Keys <= rt.containers.Keys
    ensures made !! old(rt.containers).Keys && Tidy(rt.log, |old(rt.log)|, made, if r.Some? then {} else made, true)
    ensures r.Some? ==>
      && made == {r.value.id} && r.value.id in rt.containers
      && Aged(old(rt.containers), rt.containers - {r.value.id})
      && MapsTo(r.value.mappedPorts, ms, rt.containers[r.value.id].ports)
      && Unused(rt.containers - {r.value.id}, rt.containers[r.value.id].ports)
      && rt.containers[r.value.id].app == app && rt.failures == old(rt.failures)
    ensures r.None? ==> (error.StartFailed? || error.PortLookupFailed?) && Caused(rt.log, |old(rt.log)|, error)
    ensures r.None? && rt.failures == old(rt.failures) && error.StartFailed? ==> rt.containers.Keys == old(rt.containers).Keys
    ensures r.None? && rt.failures == old(rt.failures) && error.PortLookupFailed? ==>
      && error.id !in old(rt.containers)
      && rt.containers.Keys - {error.id} == old(rt.containers).Keys
      && (error.id in rt.containers ==> rt.containers[error.id].running)
  {
    var wanted := set m | m in ms :: m.containerPort;
    var started := rt.Run(app, wanted);
    ghost var log := rt.log;
    TidyOne(old(rt.log), DidRun(app, started));
    if started.None? {
      assert Explains(log[|old(rt.log)|], StartFailed);
      return None, StartFailed, {};
    }
    var id := started.value;
    made, error := {id}, PortLookupFailed(id);
    ghost var launched := rt.containers;
    var mapped := ResolveOrRemove(rt, ms, id);
    TidyJoin(log, |old(rt.log)|, {}, {}, true, rt.log, made, if mapped.Some? then {} else made, false);
    AgedTrans(old(rt.containers), launched - {id}, rt.containers - {id});
    if mapped.None? {
      CausedKept(rt.log, |log|, rt.log, |old(rt.log)|, error);
      return None, error, made;
    }
    r := Some(DeployResult(id, mapped.value, 0));
  }

  /** Starts one container, resolves its ports and runs the health check, if there is one. */
  method StartAndCheck(rt: Runtime, app: string, ms: seq<PortMapping>, checked: bool, index: nat)
    returns (s: Started, ghost made: set<Id>)
    requires rt.Valid() && UniqueProxyPorts(ms)
    modifies rt
    ensures rt.Continued() && old(rt.containers).Keys <= rt.containers.Keys
    ensures made !! old(rt.containers).Keys && Tidy(rt.log, |old(rt.log)|, made, if s.Healthy? then {} else made, true)
    ensures s.Healthy? ==>
      && s.result.id !in old(rt.containers) && s.result.id in rt.containers
      && Aged(old(rt.containers), rt.containers - {s.result.id})
      && MapsTo(s.result.mappedPorts, ms, rt.containers[s.result.id].ports)
      && Unused(rt.containers - {s.result.id}, rt.containers[s.result.id].ports)
      && s.result.replicaIndex == index
      && rt.containers[s.result.id].app == app && (checked ==> DidCheck(s.result.id, true) in rt.log)
      && rt.failures == old(rt.failures)
    ensures s.NotStarted? ==> s.error.StartFailed? || s.error.PortLookupFailed? || s.error.HealthCheckFailed?
    ensures s.NotStarted? ==> Caused(rt.log, |old(rt.log)|, s.error)
    ensures s.NotStarted? && rt.failures == old(rt.failures) && !s.error.PortLookupFailed? ==> rt.containers.Keys == old(rt.containers).Keys
    ensures s.NotStarted? && rt.failures == old(rt.failures) && s.error.PortLookupFailed? ==>
      && s.error.id !in old(rt.containers)
      && rt.containers.Keys - {s.error.id} == old(rt.containers).Keys
      && (s.error.id in rt.containers ==> rt.containers[s.error.id].running)
  {
    var r, error;
    r, error, made := Launch(rt, app, ms);
    if r.None? {
      return NotStarted(error), made;
    }
    var id := r.value.id;
    ghost var log, launched := rt.log, rt.containers;
    var healthy := Check(rt, id, checked);
    TidyJoin(log, |old(rt.log)|, made, {}, true, rt.log, {}, if healthy then {} else made, true);
    AgedTrans(old(rt.containers), launched - {id}, rt.containers - {id});
    if !healthy {
      CausedKept(rt.log, |log|, rt.log, |old(rt.log)|, HealthCheckFailed);
      assert id !in rt.containers ==> rt.containers.Keys == (rt.containers - {id}).Keys;
      return NotStarted(HealthCheckFailed), made;
    }
    return Healthy(r.value.(replicaIndex := index)), made;
  }

  lemma RemoveIsTidy(log: seq<Command>, from: nat, id: Id, log': seq<Command>)
    requires from <= |log| && Tidy(log, from, {id}, {}, false) && log <= log' && |log'| == |log| + 1
    requires log'[|log|].DidRemove? && log'[|log|].id == id
    ensures Tidy(log', from, {id}, {id}, false)
  {
    assert log' == log + [log'[|log|]];
    TidyOne(log, log'[|log|]);
    TidyJoin(log, from, {id}, {}, false, log', {}, {id}, false);
  }

  // ----- registration and rollback -----

  /** Every table recorded from position `from` on still covers t. */
  ghost predicate CoveredSince(history: seq<Table>, from: nat, t: Table) {
    forall k :: from <= k < |history| ==> Covers(t, history[k])
  }

  lemma CoveredSinceTrans(history: seq<Table>, from: nat, t0: Table, t: Table)
    requires CoveredSince(history, from, t) && Covers(t0, t)
    ensures CoveredSince(history, from, t0)
  {
    forall k | from <= k < |history| ensures Covers(t0, history[k]) {
      CoversTrans(t0, t, history[k]);
    }
  }

  lemma CoveredSnoc(history: seq<Table>, from: nat, t0: Table, t: Table)
    requires CoveredSince(history, from, t0) && Covers(t0, t)
    ensures CoveredSince(history + [t], from, t0)
  {
    forall k | from <= k < |history + [t]| ensures Covers(t0, (history + [t])[k]) {
      if k < |history| { assert (history + [t])[k] == history[k]; }
    }
  }

  /** One AddBackend call of the registration loop. */
  method RegisterOne(rt: Runtime, table: ProxyTable, ghost t0: Table, ghost rs: seq<DeployResult>, r: DeployResult,
                     ghost done: set<Port>, p: Port)
    returns (ok: bool)
    requires rt.Valid() && table.Valid() && Grown(t0, table.Current(), rs + [Part(r, done)]) && p in r.mappedPorts && p !in done
    modifies rt`log, rt`failures, table`history, table.tcpProxies.Values`backends
    ensures rt.Valid() && rt.failures == old(rt.failures) && rt.log == old(rt.log) + [DidRegister(r.id, p, ok)]
    ensures Grown(t0, table.Current(), rs + [Part(r, if ok then done + {p} else done)])
    ensures ok <==> p in table.tcpProxies
    ensures table.history == old(table.history) + [table.Current()] && Covers(t0, table.Current())
  {
    ghost var before := table.Current();
    ok := table.AddBackend(LOCALHOST, r.mappedPorts[p], p);
    label Added:
    rt.Record(DidRegister(r.id, p, ok));
    table.Untouched@Added();
    if ok {
      GrownStep(t0, before, rs, r, done, p);
      GrownCovers(t0, table.Current(), rs + [Part(r, done + {p})]);
    } else {
      GrownCovers(t0, table.Current(), rs + [Part(r, done)]);
    }
  }

  /** Since position `from` every registration succeeded, except that the last one failed if not ok. */
  ghost predicate StopsAtFailure(log: seq<Command>, from: nat, ok: bool) {
    && from <= |log| && (!ok ==> from < |log|)
    && forall n :: from <= n < |log| ==> log[n].DidRegister? && (log[n].ok <==> ok || n < |log| - 1)
  }

  lemma RegisterIsTidy(log: seq<Command>, from: nat, id: Id, p: Port, ok: bool)
    requires from <= |log| && Tidy(log, from, {}, {}, true)
    ensures Tidy(log + [DidRegister(id, p, ok)], from, {}, {}, true)
  {
    TidyOne(log, DidRegister(id, p, ok));
    TidyJoin(log, from, {}, {}, true, log + [DidRegister(id, p, ok)], {}, {}, true);
  }

  /** Registers the replica at its proxies, in arbitrary order as Go visits a
      map; stops at the first failure. */
  method Register(rt: Runtime, table: ProxyTable, ghost t0: Table, ghost rs: seq<DeployResult>, r: DeployResult)
    returns (ok: bool, done: set<Port>)
    requires rt.Valid() && table.Valid() && Grown(t0, table.Current(), rs)
    modifies rt`log, rt`failures, table`history, table.tcpProxies.Values`backends
    ensures rt.Continued() && rt.failures == old(rt.failures) && Tidy(rt.log, |old(rt.log)|, {}, {}, true)
    ensures StopsAtFailure(rt.log, |old(rt.log)|, ok)
    ensures done <= r.mappedPorts.Keys && Grown(t0, table.Current(), rs + [Part(r, done)])
    ensures ok ==> done == r.mappedPorts.Keys
    ensures !ok ==> exists p :: p in r.mappedPorts && p !in done && p !in table.tcpProxies
    ensures old(table.history) <= table.history && CoveredSince(table.history, |old(table.history)|, t0)
  {
    done := {};
    var rest := r.mappedPorts.Keys;
    GrownStart(t0, table.Current(), rs, r);
    TidyEmpty(rt.log);
    while rest != {}
      invariant rt.Valid() && rt.Continued() && rt.failures == old(rt.failures) && Tidy(rt.log, |old(rt.log)|, {}, {}, true)
      invariant StopsAtFailure(rt.log, |old(rt.log)|, true)
      invariant rest !! done && rest + done == r.mappedPorts.Keys
      invariant Grown(t0, table.Current(), rs + [Part(r, done)])
      invariant old(table.history) <= table.history && CoveredSince(table.history, |old(table.history)|, t0)
      decreases rest
    {
      var p :| p in rest;
      ghost var h, log := table.history, rt.log;
      ok := RegisterOne(rt, table, t0, rs, r, done, p);
      RegisterIsTidy(log, |old(rt.log)|, r.id, p, ok);
      CoveredSnoc(h, |old(table.history)|, t0, table.Current());
      if !ok {
        return;
      }
      done, rest := done + {p}, rest - {p};
    }
    ok := true;
  }

  lemma HistoryJoin(h: seq<Table>, h': seq<Table>, from: nat, t: Table)
    requires h <= h' && CoveredSince(h, from, t) && CoveredSince(h', |h|, t)
    ensures CoveredSince(h', from, t)
  {
    forall k | from <= k < |h'| ensures Covers(t, h'[k]) {
      if k < |h| { assert h'[k] == h[k]; }
    }
  }

  /** One RemoveBackend call of the rollback. */
  method UnregisterOne(rt: Runtime, table: ProxyTable, ghost t1: Table, ghost rs: seq<DeployResult>, r: DeployResult,
                       ghost done: set<Port>, p: Port)
    requires rt.Valid() && table.Valid() && Shrunk(t1, table.Current(), rs + [Part(r, done)]) && p in r.mappedPorts && p !in done
    modifies rt`log, rt`failures, table`history, table.tcpProxies.Values`backends
    ensures rt.Valid() && rt.failures == old(rt.failures) && |rt.log| == |old(rt.log)| + 1 && old(rt.log) <= rt.log
    ensures rt.log[|old(rt.log)|].DidUnregister? && rt.log[|old(rt.log)|].id == r.id
    ensures Shrunk(t1, table.Current(), rs + [Part(r, done + {p})]) && Covers(table.Current(), old(table.Current()))
    ensures table.history == old(table.history) + [table.Current()]
  {
    ghost var before := table.Current();
    var ok := table.RemoveBackend(LOCALHOST, r.mappedPorts[p], p);
    label Dropped:
    rt.Record(DidUnregister(r.id, p, r.mappedPorts[p], ok));
    table.Untouched@Dropped();
    ShrunkStep(t1, before, rs, r, done, p);
    RemovedCovered(before, p, BackendAt(r, p));
  }

  lemma UnregisterIsTidy(log: seq<Command>, from: nat, id: Id, log': seq<Command>)
    requires from <= |log| && Tidy(log, from, {id}, {}, false) && log <= log' && |log'| == |log| + 1
    requires log'[|log|].DidUnregister? && log'[|log|].id == id
    ensures Tidy(log', from, {id}, {}, false)
  {
    assert log' == log + [log'[|log|]];
    TidyOne(log, log'[|log|]);
    TidyJoin(log, from, {id}, {}, false, log', {id}, {}, false);
  }

  /** Removes one replica's backends, in arbitrary order. */
  method Unregister(rt: Runtime, table: ProxyTable, ghost t1: Table, ghost rs: seq<DeployResult>, r: DeployResult)
    requires rt.Valid() && table.Valid() && Shrunk(t1, table.Current(), rs)
    modifies rt`log, rt`failures, table`history, table.tcpProxies.Values`backends
    ensures rt.Continued() && rt.failures == old(rt.failures) && Tidy(rt.log, |old(rt.log)|, {r.id}, {}, false)
    ensures Shrunk(t1, table.Current(), rs + [r]) && Covers(table.Current(), old(table.Current()))
    ensures old(table.history) <= table.history && CoveredSince(table.history, |old(table.history)|, table.Current())
  {
    ghost var done: set<Port> := {};
    var rest := r.mappedPorts.Keys;
    ShrunkStart(t1, table.Current(), rs, r);
    TidyEmpty(rt.log);
    while rest != {}
      invariant rt.Valid() && rt.Continued() && rt.failures == old(rt.failures)
      invariant Tidy(rt.log, |old(rt.log)|, {r.id}, {}, false)
      invariant rest !! done && rest + done == r.mappedPorts.Keys
      invariant Shrunk(t1, table.Current(), rs + [Part(r, done)])
      invariant Covers(table.Current(), old(table.Current()))
      invariant old(table.history) <= table.history && CoveredSince(table.history, |old(table.history)|, table.Current())
      decreases rest
    {
      var p :| p in rest;
      ghost var before, h, log := table.Current(), table.history, rt.log;
      UnregisterOne(rt, table, t1, rs, r, done, p);
      UnregisterIsTidy(log, |old(rt.log)|, r.id, rt.log);
      CoversTrans(table.Current(), before, old(table.Current()));
      CoveredSinceTrans(h, |old(table.history)|, table.Current(), before);
      done, rest := done + {p}, rest - {p};
    }
    PartWhole(r, done);
  }

  /** Removes the backends of all given replicas. */
  method UnregisterAll(rt: Runtime, table: ProxyTable, rs: seq<DeployResult>)
    requires rt.Valid() && table.Valid()
    modifies rt`log, rt`failures, table`history, table.tcpProxies.Values`backends
    ensures rt.Continued() && rt.failures == old(rt.failures) && Tidy(rt.log, |old(rt.log)|, Ids(rs), {}, false)
    ensures Shrunk(old(table.Current()), table.Current(), rs)
    ensures old(table.history) <= table.history && CoveredSince(table.history, |old(table.history)|, table.Current())
  {
    ghost var t1 := table.Current();
    TidyEmpty(rt.log);
    for i := 0 to |rs|
      invariant rt.Valid() && rt.Continued() && rt.failures == old(rt.failures)
      invariant Tidy(rt.log, |old(rt.log)|, Ids(rs[..i]), {}, false)
      invariant Shrunk(t1, table.Current(), rs[..i])
      invariant old(table.history) <= table.history && CoveredSince(table.history, |old(table.history)|, table.Current())
    {
      ghost var h, before, log := table.history, table.Current(), rt.log;
      Unregister(rt, table, t1, rs[..i], rs[i]);
      IdsNext(rs, i);
      TidyJoin(log, |old(rt.log)|, Ids(rs[..i]), {}, false, rt.log, {rs[i].id}, {}, false);
      CoveredSinceTrans(h, |old(table.history)|, table.Current(), before);
      HistoryJoin(h, table.history, |old(table.history)|, table.Current());
    }
    assert rs[..|rs|] == rs;
  }

  lemma IdsNext(rs: seq<DeployResult>, i: nat)
    requires i < |rs|
    ensures rs[..i + 1] == rs[..i] + [rs[i]] && Ids(rs[..i + 1]) == Ids(rs[..i]) + {rs[i].id}
  {
    assert rs[..i + 1] == rs[..i] + [rs[i]];
  }

  lemma OneRemoved(f: Fleet, g: Fleet, id: Id)
    requires Aged(f - {id}, g - {id}) && (id in g ==> id in f)
    ensures g.Keys == f.Keys || g.Keys == f.Keys - {id}
    ensures g.Keys - {id} == f.Keys - {id}
  {
    forall x ensures x != id ==> (x in g <==> x in f) {
      assert x in (g - {id}).Keys <==> x in (f - {id}).Keys;
    }
  }

  lemma GoneNext(faults: nat -> bool, log: seq<Command>, from: nat, ids: set<Id>, f: Fleet, log': seq<Command>, g: Fleet, id: Id)
    requires from <= |log| && log <= log' && g.Keys <= f.Keys && GoneUnlessBlamed(faults, log, from, ids, f)
    requires id in g ==> Blamed(faults, log', |log|, id)
    ensures GoneUnlessBlamed(faults, log', from, ids + {id}, g)
  {
    GoneKept(faults, log, from, ids, f, log', from, g);
    if id in g { BlamedKept(faults, log', |log|, log', from, id); }
  }

  /** Stops and removes the replicas' containers. */
  method RemoveContainers(rt: Runtime, rs: seq<DeployResult>)
    requires rt.Valid()
    modifies rt
    ensures rt.Continued() && Tidy(rt.log, |old(rt.log)|, {}, Ids(rs), false)
    ensures rt.containers.Keys <= old(rt.containers).Keys
    ensures old(rt.containers).Keys - Ids(rs) <= rt.containers.Keys
    ensures GoneUnlessBlamed(rt.faults, rt.log, |old(rt.log)|, Ids(rs), rt.containers)
    ensures rt.failures == old(rt.failures) ==> rt.containers.Keys == old(rt.containers).Keys - Ids(rs)
  {
    TidyEmpty(rt.log);
    for i := 0 to |rs|
      invariant rt.Valid() && rt.Continued() && Tidy(rt.log, |old(rt.log)|, {}, Ids(rs[..i]), false)
      invariant GoneUnlessBlamed(rt.faults, rt.log, |old(rt.log)|, Ids(rs[..i]), rt.containers)
      invariant rt.containers.Keys <= old(rt.containers).Keys
      invariant old(rt.containers).Keys - Ids(rs[..i]) <= rt.containers.Keys
      invariant rt.failures == old(rt.failures) ==> rt.containers.Keys == old(rt.containers).Keys - Ids(rs[..i])
    {
      var id := rs[i].id;
      IdsNext(rs, i);
      ghost var before, log := rt.containers, rt.log;
      rt.StopAndRemove(id);
      TidyJoin(log, |old(rt.log)|, {}, Ids(rs[..i]), false, rt.log, {}, {id}, false);
      OneRemoved(before, rt.containers, id);
      GoneNext(rt.faults, log, |old(rt.log)|, Ids(rs[..i]), before, rt.log, rt.containers, id);
    }
    assert rs[..|rs|] == rs;
  }

  /** Removes all given replicas: their backends first, then their containers. */
  method Rollback(rt: Runtime, table: ProxyTable, rs: seq<DeployResult>)
    requires rt.Valid() && table.Valid()
    modifies rt, table`history, table.tcpProxies.Values`backends
    ensures rt.Continued() && Tidy(rt.log, |old(rt.log)|, Ids(rs), Ids(rs), false)
    ensures Shrunk(old(table.Current()), table.Current(), rs)
    ensures old(table.history) <= table.history && CoveredSince(table.history, |old(table.history)|, table.Current())
    ensures rt.containers.Keys <= old(rt.containers).Keys
    ensures old(rt.containers).Keys - Ids(rs) <= rt.containers.Keys
    ensures GoneUnlessBlamed(rt.faults, rt.log, |old(rt.log)|, Ids(rs), rt.containers)
    ensures rt.failures == old(rt.failures) ==> rt.containers.Keys == old(rt.containers).Keys - Ids(rs)
  {
    UnregisterAll(rt, table, rs);
    ghost var log := rt.log;
    label Unregistered:
    RemoveContainers(rt, rs);
    table.Untouched@Unregistered();
    GoneKept(rt.faults, rt.log, |log|, Ids(rs), rt.containers, rt.log, |old(rt.log)|, rt.containers);
    TidyJoin(log, |old(rt.log)|, Ids(rs), {}, false, rt.log, {}, Ids(rs), false);
  }

  // ----- the replica loop -----

  /** One result per replica, in index order, each reachable from every mapped proxy. */
  ghost predicate InOrder(rs: seq<DeployResult>, ms: seq<PortMapping>) {
    forall k :: 0 <= k < |rs| ==> rs[k].replicaIndex == k && rs[k].mappedPorts.Keys == ProxyPorts(ms)
  }

  /** The fleet g is f, aged, plus the given replicas' containers. */
  ghost predicate Joined(f: Fleet, g: Fleet, rs: seq<DeployResult>) {
    && Ids(rs) !! f.Keys
    && g.Keys == f.Keys + Ids(rs)
    && (forall id :: id in f ==> g[id].app == f[id].app && g[id].ports == f[id].ports && (g[id].running ==> f[id].running))
  }

  /** Every replica is a container of the application that its proxies map to, and passed its check. */
  ghost predicate Launched(g: Fleet, log: seq<Command>, rs: seq<DeployResult>, app: string, ms: seq<PortMapping>, checked: bool) {
    forall r :: r in rs ==>
      && r.id in g && g[r.id].app == app && MapsTo(r.mappedPorts, ms, g[r.id].ports)
      && (checked ==> DidCheck(r.id, true) in log)
  }

  lemma LaunchedKept(g: Fleet, h: Fleet, log: seq<Command>, log': seq<Command>, rs: seq<DeployResult>, app: string,
                     ms: seq<PortMapping>, checked: bool)
    requires Launched(g, log, rs, app, ms, checked) && log <= log'
    requires forall r :: r in rs ==> r.id in h && h[r.id].app == g[r.id].app && h[r.id].ports == g[r.id].ports
    ensures Launched(h, log', rs, app, ms, checked)
  {
  }

  lemma LaunchedStep(g: Fleet, h: Fleet, log: seq<Command>, log': seq<Command>, rs: seq<DeployResult>, r: DeployResult,
                     app: string, ms: seq<PortMapping>, checked: bool)
    requires Launched(g, log, rs, app, ms, checked) && log <= log' && r.id !in g && r.id in h && Aged(g, h - {r.id})
    requires h[r.id].app == app && MapsTo(r.mappedPorts, ms, h[r.id].ports) && (checked ==> DidCheck(r.id, true) in log')
    ensures Launched(h, log', rs + [r], app, ms, checked)
  {
    forall q | q in rs ensures q.id in h && h[q.id].app == g[q.id].app && h[q.id].ports == g[q.id].ports {
      assert q.id in g && q.id in h - {r.id} && (h - {r.id})[q.id] == h[q.id];
    }
    LaunchedKept(g, h, log, log', rs, app, ms, checked);
  }

  lemma JoinedStep(f: Fleet, g: Fleet, h: Fleet, rs: seq<DeployResult>, r: DeployResult, existing: seq<Id>, ms: seq<PortMapping>)
    requires Joined(f, g, rs) && OldNewDisjoint(g, existing, rs)
    requires r.id !in g && r.id in h && Aged(g, h - {r.id})
    requires MapsTo(r.mappedPorts, ms, h[r.id].ports) && Unused(h - {r.id}, h[r.id].ports)
    requires forall id :: id in existing ==> id in f
    ensures Joined(f, h, rs + [r]) && OldNewDisjoint(h, existing, rs + [r])
  {
    assert Ids(rs + [r]) == Ids(rs) + {r.id};
    assert h.Keys == (h - {r.id}).Keys + {r.id};
    assert r.mappedPorts.Values <= h[r.id].ports.Values by {
      forall x | x in r.mappedPorts.Values ensures x in h[r.id].ports.Values {
        var p :| p in r.mappedPorts && r.mappedPorts[p] == x;
        var m :| m in ms && m.proxyPort == p;
      }
    }
    forall id, q | id in existing && id in h && h[id].running && q in rs + [r]
      ensures q.mappedPorts.Values !! h[id].ports.Values
    {
      assert id in g && id in h - {r.id} && (h - {r.id})[id] == h[id];
      if q in rs {
        assert g[id].running && g[id].ports == h[id].ports;
      }
    }
  }

  /** After a failure while starting, the replicas so far are rolled back and the proxies hold
      again what they held. */
  method UndoAll(rt: Runtime, table: ProxyTable, ghost t0: Table, ghost from: nat, rs: seq<DeployResult>)
    requires rt.Valid() && table.Valid() && Grown(t0, table.Current(), rs)
    requires from <= |table.history| && CoveredSince(table.history, from, t0)
    modifies rt, table`history, table.tcpProxies.Values`backends
    ensures rt.Continued() && Tidy(rt.log, |old(rt.log)|, Ids(rs), Ids(rs), false)
    ensures old(rt.containers).Keys - Ids(rs) <= rt.containers.Keys
    ensures SameBags(t0, table.Current()) && old(table.history) <= table.history && CoveredSince(table.history, from, t0)
    ensures rt.failures == old(rt.failures) ==> rt.containers.Keys == old(rt.containers).Keys - Ids(rs)
  {
    ghost var t1, h := table.Current(), table.history;
    Rollback(rt, table, rs);
    RollbackRestores(t0, t1, table.Current(), rs);
    SameCovers(t0, table.Current());
    CoveredSinceTrans(table.history, |h|, t0, table.Current());
    HistoryJoin(h, table.history, from, t0);
  }

  lemma SameCovers(t0: Table, t: Table)
    requires SameBags(t0, t)
    ensures Covers(t0, t)
  {
  }

  /** The same after a registration failed half-way, provided the replica's unregistered
      backends were not there before. */
  method UndoPartial(rt: Runtime, table: ProxyTable, ghost t0: Table, ghost from: nat, rs: seq<DeployResult>,
                     r: DeployResult, ghost registered: set<Port>)
    requires rt.Valid() && table.Valid() && Grown(t0, table.Current(), rs + [Part(r, registered)])
    requires from <= |table.history| && CoveredSince(table.history, from, t0)
    modifies rt, table`history, table.tcpProxies.Values`backends
    ensures rt.Continued() && Tidy(rt.log, |old(rt.log)|, Ids(rs + [r]), Ids(rs + [r]), false)
    ensures old(rt.containers).Keys - Ids(rs + [r]) <= rt.containers.Keys
    ensures old(table.history) <= table.history
    ensures SameBags(t0, table.Current()) <==> UnregisteredAbsent(t0, r, registered)
    ensures UnregisteredAbsent(t0, r, registered) ==> CoveredSince(table.history, from, t0)
    ensures rt.failures == old(rt.failures) ==> rt.containers.Keys == old(rt.containers).Keys - Ids(rs + [r])
  {
    ghost var t1, h := table.Current(), table.history;
    Rollback(rt, table, rs + [r]);
    PartialRollback(t0, t1, table.Current(), rs, r, registered);
    if UnregisteredAbsent(t0, r, registered) {
      SameCovers(t0, table.Current());
      CoveredSinceTrans(table.history, |h|, t0, table.Current());
      HistoryJoin(h, table.history, from, t0);
    }
  }

  /** What a failed start leaves behind in the fleet f, unless stop or rm failed by themselves:
      nothing, except for the container whose port lookup failed. */
  ghost predicate CleanedUp(f: Fleet, g: Fleet, error: DeployError) {
    g.Keys - (if error.PortLookupFailed? then {error.id} else {}) == f.Keys
  }

  /** What a failed start leaves at the proxies that held t0. */
  ghost predicate RolledBack(t0: Table, table: ProxyTable, from: nat, ms: seq<PortMapping>, error: DeployError)
    reads table, table.tcpProxies.Values
  {
    if error.BackendFailed? then
      && !(ProxyPorts(ms) <= table.tcpProxies.Keys)
      && (SameBags(t0, table.Current()) <==> UnregisteredAbsent(t0, error.replica, error.registered))
      && (UnregisteredAbsent(t0, error.replica, error.registered) ==> CoveredSince(table.history, from, t0))
    else
      SameBags(t0, table.Current()) && CoveredSince(table.history, from, t0)
  }

  /** Registers a healthy replica, or rolls it and all before it back. */
  method RegisterOrUndo(rt: Runtime, table: ProxyTable, ms: seq<PortMapping>, rs: seq<DeployResult>, r: DeployResult,
                        ghost t0: Table, ghost from: nat)
    returns (ok: bool, registered: set<Port>)
    requires rt.Valid() && table.Valid() && Grown(t0, table.Current(), rs) && r.mappedPorts.Keys == ProxyPorts(ms)
    requires from <= |table.history| && CoveredSince(table.history, from, t0)
    modifies rt, table`history, table.tcpProxies.Values`backends
    ensures rt.Continued()
    ensures old(table.history) <= table.history
    ensures ok ==> rt.containers == old(rt.containers) && Tidy(rt.log, |old(rt.log)|, {}, {}, true)
    ensures !ok ==> Tidy(rt.log, |old(rt.log)|, Ids(rs + [r]), Ids(rs + [r]), true)
    ensures !ok ==> old(rt.containers).Keys - Ids(rs + [r]) <= rt.containers.Keys
    ensures ok ==> Grown(t0, table.Current(), rs + [r]) && CoveredSince(table.history, from, t0)
    ensures !ok ==> RolledBack(t0, table, from, ms, BackendFailed(r, registered))
    ensures !ok && rt.failures == old(rt.failures) ==> rt.containers.Keys == old(rt.containers).Keys - Ids(rs + [r])
  {
    ghost var h := table.history;
    ok, registered := Register(rt, table, t0, rs, r);
    ghost var log := rt.log;
    HistoryJoin(h, table.history, from, t0);
    if ok {
      PartWhole(r, registered);
    } else {
      UndoPartial(rt, table, t0, from, rs, r, registered);
      TidyJoin(log, |old(rt.log)|, {}, {}, true, rt.log, Ids(rs + [r]), Ids(rs + [r]), false);
    }
  }

  /** A healthy replica joins the others, or all of them are rolled back. */
  method Admit(rt: Runtime, table: ProxyTable, app: string, ms: seq<PortMapping>, checked: bool, rs: seq<DeployResult>,
               r: DeployResult, ghost existing: seq<Id>, ghost t0: Table, ghost from: nat, ghost f: Fleet)
    returns (s: Started)
    requires rt.Valid() && table.Valid() && Grown(t0, table.Current(), rs) && r.mappedPorts.Keys == ProxyPorts(ms)
    requires from <= |table.history| && CoveredSince(table.history, from, t0)
    requires Joined(f, rt.containers, rs + [r]) && OldNewDisjoint(rt.containers, existing, rs + [r])
    requires Launched(rt.containers, rt.log, rs + [r], app, ms, checked)
    modifies rt, table`history, table.tcpProxies.Values`backends
    ensures rt.Continued() && old(table.history) <= table.history && f.Keys <= rt.containers.Keys
    ensures s.Healthy? ==>
      && s.result == r && Grown(t0, table.Current(), rs + [r]) && CoveredSince(table.history, from, t0)
      && rt.containers == old(rt.containers) && Launched(rt.containers, rt.log, rs + [r], app, ms, checked)
      && Tidy(rt.log, |old(rt.log)|, {}, {}, true)
    ensures s.NotStarted? ==> s.error.BackendFailed? && RolledBack(t0, table, from, ms, s.error)
    ensures s.NotStarted? ==> Tidy(rt.log, |old(rt.log)|, Ids(rs + [r]), Ids(rs + [r]), true)
    ensures s.NotStarted? && rt.failures == old(rt.failures) ==> CleanedUp(f, rt.containers, s.error)
  {
    var ok, registered := RegisterOrUndo(rt, table, ms, rs, r, t0, from);
    if ok {
      LaunchedKept(old(rt.containers), rt.containers, old(rt.log), rt.log, rs + [r], app, ms, checked);
      s := Healthy(r);
    } else {
      s := NotStarted(BackendFailed(r, registered));
    }
  }

  lemma AdmittedTidy(log: seq<Command>, from: nat, made: set<Id>, log': seq<Command>, touched: set<Id>, ok: bool)
    requires from <= |log| && log <= log' && Tidy(log, from, made, {}, true) && Tidy(log', |log|, touched, touched, true)
    requires ok ==> touched == {}
    ensures Tidy(log', from, made + touched, if ok then {} else made + touched, true)
  {
    TidyJoin(log, from, made, {}, true, log', touched, touched, true);
  }

  /** What starting a replica leads to, told apart by its outcome. */
  ghost predicate Joins(f: Fleet, g: Fleet, log: seq<Command>, t0: Table, t: Table, rs: seq<DeployResult>, existing: seq<Id>,
                        app: string, ms: seq<PortMapping>, checked: bool) {
    && Grown(t0, t, rs) && Joined(f, g, rs) && OldNewDisjoint(g, existing, rs) && Launched(g, log, rs, app, ms, checked)
  }

  /** The replicas so far are rolled back after one could not be started. */
  method GiveUp(rt: Runtime, table: ProxyTable, rs: seq<DeployResult>, error: DeployError, ghost made: set<Id>,
                ghost t0: Table, ghost from: nat, ghost f: Fleet, ghost g: Fleet, ghost start: nat, ghost failures: nat)
    returns (ghost touched: set<Id>)
    requires rt.Valid() && table.Valid() && Grown(t0, table.Current(), rs) && Joined(f, g, rs)
    requires from <= |table.history| && CoveredSince(table.history, from, t0)
    requires g.Keys <= rt.containers.Keys && made !! g.Keys && start <= |rt.log| && failures <= rt.failures
    requires !error.BackendFailed? && Caused(rt.log, start, error) && Tidy(rt.log, start, made, made, true)
    requires rt.failures == failures ==> CleanedUp(g, rt.containers, error) && (error.PortLookupFailed? ==> error.id !in g)
    modifies rt, table`history, table.tcpProxies.Values`backends
    ensures rt.Continued() && old(table.history) <= table.history && f.Keys <= rt.containers.Keys
    ensures touched !! f.Keys && Tidy(rt.log, start, touched, touched, true)
    ensures Caused(rt.log, start, error) && RolledBack(t0, table, from, [], error)
    ensures rt.failures == failures ==> CleanedUp(f, rt.containers, error)
  {
    ghost var log := rt.log;
    UndoAll(rt, table, t0, from, rs);
    CausedKept(log, start, rt.log, start, error);
    TidyJoin(log, start, made, made, true, rt.log, Ids(rs), Ids(rs), false);
    touched := made + Ids(rs);
  }

  /** One pass of the replica loop. */
  method AddReplica(rt: Runtime, table: ProxyTable, app: string, ms: seq<PortMapping>, checked: bool,
                    rs: seq<DeployResult>, ghost existing: seq<Id>, ghost t0: Table, ghost from: nat, ghost f: Fleet)
    returns (s: Started, ghost made: set<Id>)
    requires rt.Valid() && table.Valid() && UniqueProxyPorts(ms) && (forall id :: id in existing ==> id in f)
    requires from <= |table.history| && CoveredSince(table.history, from, t0)
    requires Joins(f, rt.containers, rt.log, t0, table.Current(), rs, existing, app, ms, checked)
    modifies rt, table`history, table.tcpProxies.Values`backends
    ensures rt.Continued() && old(table.history) <= table.history && f.Keys <= rt.containers.Keys
    ensures made !! f.Keys && Tidy(rt.log, |old(rt.log)|, made, if s.Healthy? then {} else made, true)
    ensures s.Healthy? ==>
      && s.result.replicaIndex == |rs| && s.result.mappedPorts.Keys == ProxyPorts(ms) && CoveredSince(table.history, from, t0)
      && Joins(f, rt.containers, rt.log, t0, table.Current(), rs + [s.result], existing, app, ms, checked)
    ensures s.NotStarted? ==> Caused(rt.log, |old(rt.log)|, s.error)
    ensures s.NotStarted? ==> !s.error.FindFailed? && RolledBack(t0, table, from, ms, s.error)
    ensures s.NotStarted? && rt.failures == old(rt.failures) ==> CleanedUp(f, rt.containers, s.error)
  {
    ghost var g := rt.containers;
    label Pass:
    s, made := StartAndCheck(rt, app, ms, checked, |rs|);
    table.Untouched@Pass();
    if s.NotStarted? {
      made := GiveUp(rt, table, rs, s.error, made, t0, from, f, g, |old(rt.log)|, old(rt.failures));
      return;
    }
    ghost var log, r := rt.log, s.result;
    LaunchedStep(g, rt.containers, old(rt.log), log, rs, r, app, ms, checked);
    JoinedStep(f, g, rt.containers, rs, r, existing, ms);
    s := Admit(rt, table, app, ms, checked, rs, s.result, existing, t0, from, f);
    ghost var touched := if s.Healthy? then {} else Ids(rs + [r]);
    AdmittedTidy(log, |old(rt.log)|, made, rt.log, touched, s.Healthy?);
    made := made + touched;
  }

  /** Starts and registers the replicas one by one; undoes everything on a failure. */
  method StartReplicas(rt: Runtime, table: ProxyTable, app: string, ms: seq<PortMapping>, replicas: nat, checked: bool,
                       ghost existing: seq<Id>)
    returns (rs: seq<DeployResult>, err: Option<DeployError>, ghost made: set<Id>)
    requires rt.Valid() && table.Valid() && UniqueProxyPorts(ms)
    requires forall id :: id in existing ==> id in rt.containers
    modifies rt, table`history, table.tcpProxies.Values`backends
    ensures rt.Continued() && old(table.history) <= table.history && old(rt.containers).Keys <= rt.containers.Keys
    ensures made !! old(rt.containers).Keys && Tidy(rt.log, |old(rt.log)|, made, if err.None? then {} else made, true)
    ensures err.None? ==>
      && |rs| == replicas && InOrder(rs, ms)
      && CoveredSince(table.history, |old(table.history)|, old(table.Current()))
      && Joins(old(rt.containers), rt.containers, rt.log, old(table.Current()), table.Current(), rs, existing, app, ms, checked)
    ensures err.Some? ==> Caused(rt.log, |old(rt.log)|, err.value)
    ensures err.Some? ==>
      !err.value.FindFailed? && RolledBack(old(table.Current()), table, |old(table.history)|, ms, err.value)
    ensures err.Some? && rt.failures == old(rt.failures) ==> CleanedUp(old(rt.containers), rt.containers, err.value)
  {
    ghost var t0, from, f := table.Current(), |table.history|, rt.containers;
    rs, err, made := [], None, {};
    TidyEmpty(rt.log);
    for i := 0 to replicas
      invariant rt.Valid() && rt.Continued()
      invariant made !! f.Keys && Tidy(rt.log, |old(rt.log)|, made, {}, true)
      invariant |rs| == i && InOrder(rs, ms) && err.None?
      invariant old(table.history) <= table.history && CoveredSince(table.history, from, t0)
      invariant Joins(f, rt.containers, rt.log, t0, table.Current(), rs, existing, app, ms, checked)
    {
      ghost var log := rt.log;
      var s;
      ghost var more;
      s, more := AddReplica(rt, table, app, ms, checked, rs, existing, t0, from, f);
      ghost var gone := if s.Healthy? then {} else more;
      TidyJoin(log, |old(rt.log)|, made, {}, true, rt.log, more, gone, true);
      made := made + more;
      if s.NotStarted? {
        err := Some(s.error);
        TidyWider(rt.log, |old(rt.log)|, made, gone, true, made, made, true);
        CausedKept(rt.log, |log|, rt.log, |old(rt.log)|, s.error);
        return;
      }
      rs := rs + [s.result];
    }
  }

  // ----- draining the old containers -----

  ghost predicate ServedSince(history: seq<Table>, from: nat, rs: seq<DeployResult>) {
    forall k :: from <= k < |history| ==> Serves(history[k], rs)
  }

  /** What draining keeps: the new replicas stay behind every proxy. */
  ghost predicate Draining(t0: Table, t1: Table, t: Table, rs: seq<DeployResult>, drained: seq<DeployResult>) {
    Grown(t0, t1, rs) && Shrunk(t1, t, drained) && PortsDisjoint(drained, rs)
  }

  lemma DrainStep(t0: Table, t1: Table, t: Table, rs: seq<DeployResult>, drained: seq<DeployResult>, x: DeployResult, p: Port)
    requires Draining(t0, t1, t, rs, drained) && x.mappedPorts.Keys == {p}
    requires forall r :: r in rs ==> r.mappedPorts.Values !! x.mappedPorts.Values
    ensures Draining(t0, t1, Removed(t, p, BackendAt(x, p)), rs, drained + [x])
    ensures Serves(Removed(t, p, BackendAt(x, p)), rs)
  {
    ShrunkStart(t1, t, drained, x);
    ShrunkStep(t1, t, drained, x, {}, p);
    PartWhole(x, {} + {p});
    DrainServes(t0, t1, Removed(t, p, BackendAt(x, p)), rs, drained + [x]);
  }

  lemma SingletonValues(p: Port, v: Port)
    ensures map[p := v].Values == {v}
  {
    assert map[p := v][p] == v;
  }

  /** Every lookup of these containers since position `from` of the log was answered. */
  ghost predicate Answered(log: seq<Command>, from: nat, ids: seq<Id>) {
    forall n :: from <= n < |log| && log[n].DidLookUp? && log[n].id in ids ==> log[n].port.Some?
  }

  lemma AnsweredWithin(log: seq<Command>, from: nat, ids: seq<Id>, log': seq<Command>, from': nat, ids': seq<Id>)
    requires log' <= log && from <= from' && (forall id :: id in ids' ==> id in ids)
    ensures Answered(log, from, ids) ==> Answered(log', from', ids')
  {
    forall n | from' <= n < |log'| && Answered(log, from, ids) && log'[n].DidLookUp? && log'[n].id in ids'
      ensures log'[n].port.Some?
    {
      assert log'[n] == log[n];
    }
  }

  // What the lookups of the old containers were answered, mapping by mapping.

  predicate Drops(cmd: Command, id: Id, proxyPort: Port, mappedPort: Port) {
    cmd.DidUnregister? && cmd.id == id && cmd.proxyPort == proxyPort && cmd.mappedPort == mappedPort
  }

  /** At position n of the log the mapping is looked up with this answer; an answered lookup is followed
      by the removal of that backend at the mapping's proxy. */
  predicate LookedUpAt(log: seq<Command>, n: nat, id: Id, m: PortMapping, answer: Option<Port>) {
    && n < |log| && log[n] == DidLookUp(id, m.containerPort, answer)
    && (answer.Some? ==> n + 1 < |log| && Drops(log[n + 1], id, m.proxyPort, answer.value))
  }

  ghost predicate LookedUp(log: seq<Command>, from: nat, id: Id, m: PortMapping, answer: Option<Port>) {
    exists n: nat :: from <= n && LookedUpAt(log, n, id, m, answer)
  }

  lemma LookedUpKept(log: seq<Command>, from: nat, id: Id, m: PortMapping, answer: Option<Port>, log': seq<Command>, from': nat)
    requires LookedUp(log, from, id, m, answer) && log <= log' && from' <= from
    ensures LookedUp(log', from', id, m, answer)
  {
    var n: nat :| from <= n && LookedUpAt(log, n, id, m, answer);
    assert LookedUpAt(log', n, id, m, answer);
  }

  /** Every mapping of the container was looked up, with these answers. */
  ghost predicate AllLookedUp(log: seq<Command>, from: nat, id: Id, ms: seq<PortMapping>, answers: seq<Option<Port>>) {
    |answers| == |ms| && forall j :: 0 <= j < |ms| ==> LookedUp(log, from, id, ms[j], answers[j])
  }

  lemma AllLookedUpKept(log: seq<Command>, from: nat, id: Id, ms: seq<PortMapping>, answers: seq<Option<Port>>, log': seq<Command>, from': nat)
    requires AllLookedUp(log, from, id, ms, answers) && log <= log' && from' <= from
    ensures AllLookedUp(log', from', id, ms, answers)
  {
    forall j | 0 <= j < |ms| ensures LookedUp(log', from', id, ms[j], answers[j]) {
      LookedUpKept(log, from, id, ms[j], answers[j], log', from');
    }
  }

  /** Answers are the container's own host ports. */
  ghost predicate Truthful(ports: map<Port, Port>, ms: seq<PortMapping>, answers: seq<Option<Port>>) {
    |answers| == |ms| &&
    forall j :: 0 <= j < |ms| && answers[j].Some? ==> ms[j].containerPort in ports && answers[j].value == ports[ms[j].containerPort]
  }

  function WithdrawnAt(id: Id, m: PortMapping, answer: Option<Port>): seq<DeployResult> {
    if answer.Some? then [DeployResult(id, map[m.proxyPort := answer.value], 0)] else []
  }

  /** The backends of the answered lookups of one container. */
  function Withdrawn(id: Id, ms: seq<PortMapping>, answers: seq<Option<Port>>): seq<DeployResult>
    requires |answers| == |ms|
  {
    if ms == [] then []
    else
      var k := |ms| - 1;
      Withdrawn(id, ms[..k], answers[..k]) + WithdrawnAt(id, ms[k], answers[k])
  }

  lemma WithdrawnNext(before: seq<DeployResult>, id: Id, ms: seq<PortMapping>, j: nat, answers: seq<Option<Port>>, answer: Option<Port>)
    requires j < |ms| && |answers| == j
    ensures before + Withdrawn(id, ms[..j + 1], answers + [answer]) ==
            (before + Withdrawn(id, ms[..j], answers)) + WithdrawnAt(id, ms[j], answer)
  {
    assert ms[..j + 1][..j] == ms[..j] && (answers + [answer])[..j] == answers;
  }

  /** If all lookups were answered these are all the backends the container had. */
  lemma {:induction false} WithdrawnIsOldOne(id: Id, ports: map<Port, Port>, ms: seq<PortMapping>, answers: seq<Option<Port>>)
    requires Truthful(ports, ms, answers) && forall j :: 0 <= j < |ms| ==> answers[j].Some?
    ensures Withdrawn(id, ms, answers) == OldOne(id, ports, ms)
  {
    if ms != [] { WithdrawnIsOldOne(id, ports, ms[..|ms| - 1], answers[..|ms| - 1]); }
  }

  lemma AnsweredIsSome(log: seq<Command>, from: nat, id: Id, ms: seq<PortMapping>, answers: seq<Option<Port>>)
    requires AllLookedUp(log, from, id, ms, answers) && Answered(log, from, [id])
    ensures forall j :: 0 <= j < |ms| ==> answers[j].Some?
  {
    forall j | 0 <= j < |ms| ensures answers[j].Some? {
      var n: nat :| from <= n && LookedUpAt(log, n, id, ms[j], answers[j]);
      assert log[n].id in [id];
    }
  }

  lemma LookedUpNext(log: seq<Command>, from: nat, id: Id, ports: map<Port, Port>, ms: seq<PortMapping>, j: nat,
                     answers: seq<Option<Port>>, log': seq<Command>, answer: Option<Port>)
    requires j < |ms| && from <= |log| && log <= log' && AllLookedUp(log, from, id, ms[..j], answers) && Truthful(ports, ms[..j], answers)
    requires LookedUp(log', |log|, id, ms[j], answer)
    requires answer.Some? ==> ms[j].containerPort in ports && answer.value == ports[ms[j].containerPort]
    ensures AllLookedUp(log', from, id, ms[..j + 1], answers + [answer]) && Truthful(ports, ms[..j + 1], answers + [answer])
  {
    AllLookedUpKept(log, from, id, ms[..j], answers, log', from);
    LookedUpKept(log', |log|, id, ms[j], answer, log', from);
    forall k | 0 <= k < j + 1 ensures LookedUp(log', from, id, ms[..j + 1][k], (answers + [answer])[k]) {
      if k < j { assert ms[..j + 1][k] == ms[..j][k]; }
    }
  }

  /** Looks one mapping of an old container up and drops its backend; a failed lookup is skipped. */
  method DrainMapping(rt: Runtime, table: ProxyTable, id: Id, m: PortMapping,
                      ghost t0: Table, ghost t1: Table, ghost rs: seq<DeployResult>, ghost before: seq<DeployResult>)
    returns (ghost answer: Option<Port>)
    requires rt.Valid() && table.Valid() && Draining(t0, t1, table.Current(), rs, before)
    requires OldNewDisjoint(rt.containers, [id], rs)
    modifies rt, table`history, table.tcpProxies.Values`backends
    ensures rt.Continued() && rt.failures == old(rt.failures)
    ensures Aged(old(rt.containers), rt.containers) && Tidy(rt.log, |old(rt.log)|, {id}, {}, false)
    ensures LookedUp(rt.log, |old(rt.log)|, id, m, answer)
    ensures Draining(t0, t1, table.Current(), rs, before + WithdrawnAt(id, m, answer))
    ensures answer.Some? ==>
      && id in old(rt.containers) && m.containerPort in old(rt.containers)[id].ports
      && answer.value == old(rt.containers)[id].ports[m.containerPort]
    ensures old(table.history) <= table.history && ServedSince(table.history, |old(table.history)|, rs)
  {
    ghost var f := rt.containers;
    label Lookup:
    var port := rt.GetMappedPort(id, m.containerPort);
    answer := port;
    table.Untouched@Lookup();
    ghost var log := rt.log;
    assert log[|old(rt.log)|] == DidLookUp(id, m.containerPort, port);
    TidyOne(old(rt.log), log[|old(rt.log)|]);
    if port.Some? {
      assert id in [id] && f[id].running && port.value in f[id].ports.Values;
      DropFor(rt, table, id, m, port.value, t0, t1, rs, before);
      UnregisterIsTidy(log, |old(rt.log)|, id, rt.log);
    } else {
      assert before + [] == before;
    }
    assert LookedUpAt(rt.log, |old(rt.log)|, id, m, answer);
  }

  /** Takes out the backend a lookup answered. */
  method DropFor(rt: Runtime, table: ProxyTable, id: Id, m: PortMapping, port: Port,
                 ghost t0: Table, ghost t1: Table, ghost rs: seq<DeployResult>, ghost before: seq<DeployResult>)
    requires rt.Valid() && table.Valid() && Draining(t0, t1, table.Current(), rs, before)
    requires forall r :: r in rs ==> port !in r.mappedPorts.Values
    modifies rt`log, rt`failures, table`history, table.tcpProxies.Values`backends
    ensures rt.Valid() && rt.failures == old(rt.failures) && old(rt.log) <= rt.log && |rt.log| == |old(rt.log)| + 1
    ensures Drops(rt.log[|old(rt.log)|], id, m.proxyPort, port)
    ensures Draining(t0, t1, table.Current(), rs, before + WithdrawnAt(id, m, Some(port)))
    ensures old(table.history) <= table.history && ServedSince(table.history, |old(table.history)|, rs)
  {
    ghost var x := DeployResult(id, map[m.proxyPort := port], 0);
    SingletonValues(m.proxyPort, port);
    DrainStep(t0, t1, table.Current(), rs, before, x, m.proxyPort);
    DropBackend(rt, table, id, port, m.proxyPort);
  }

  /** One RemoveBackend call of the drain; a failure is only reported. */
  method DropBackend(rt: Runtime, table: ProxyTable, id: Id, mappedPort: Port, proxyPort: Port)
    requires rt.Valid() && table.Valid()
    modifies rt`log, rt`failures, table`history, table.tcpProxies.Values`backends
    ensures rt.Valid() && rt.failures == old(rt.failures) && old(rt.log) <= rt.log && |rt.log| == |old(rt.log)| + 1
    ensures Drops(rt.log[|old(rt.log)|], id, proxyPort, mappedPort)
    ensures table.Current() == Removed(old(table.Current()), proxyPort, Backend(LOCALHOST, mappedPort))
    ensures table.history == old(table.history) + [table.Current()]
  {
    var ok := table.RemoveBackend(LOCALHOST, mappedPort, proxyPort);
    label Dropped:
    rt.Record(DidUnregister(id, proxyPort, mappedPort, ok));
    table.Untouched@Dropped();
  }

  lemma ServedJoin(h: seq<Table>, h': seq<Table>, from: nat, rs: seq<DeployResult>)
    requires h <= h' && ServedSince(h, from, rs) && ServedSince(h', |h|, rs)
    ensures ServedSince(h', from, rs)
  {
    forall k | from <= k < |h'| ensures Serves(h'[k], rs) {
      if k < |h| { assert h'[k] == h[k]; }
    }
  }

  /** Drops the backends of one old container, mapping by mapping. */
  method DrainOne(rt: Runtime, table: ProxyTable, id: Id, ms: seq<PortMapping>,
                  ghost t0: Table, ghost t1: Table, ghost rs: seq<DeployResult>, ghost before: seq<DeployResult>)
    returns (ghost answers: seq<Option<Port>>)
    requires rt.Valid() && table.Valid() && Draining(t0, t1, table.Current(), rs, before) && id in rt.containers
    requires OldNewDisjoint(rt.containers, [id], rs)
    modifies rt, table`history, table.tcpProxies.Values`backends
    ensures rt.Continued() && rt.failures == old(rt.failures)
    ensures Aged(old(rt.containers), rt.containers) && Tidy(rt.log, |old(rt.log)|, {id}, {}, false)
    ensures AllLookedUp(rt.log, |old(rt.log)|, id, ms, answers) && Truthful(old(rt.containers)[id].ports, ms, answers)
    ensures Draining(t0, t1, table.Current(), rs, before + Withdrawn(id, ms, answers))
    ensures old(table.history) <= table.history && ServedSince(table.history, |old(table.history)|, rs)
  {
    ghost var f, start := rt.containers, |rt.log|;
    answers := [];
    TidyEmpty(rt.log);
    assert before + [] == before;
    for j := 0 to |ms|
      invariant rt.Valid() && rt.Continued() && rt.failures == old(rt.failures)
      invariant Aged(f, rt.containers) && Tidy(rt.log, start, {id}, {}, false)
      invariant AllLookedUp(rt.log, start, id, ms[..j], answers) && Truthful(f[id].ports, ms[..j], answers)
      invariant Draining(t0, t1, table.Current(), rs, before + Withdrawn(id, ms[..j], answers))
      invariant old(table.history) <= table.history && ServedSince(table.history, |old(table.history)|, rs)
    {
      ghost var h, log := table.history, rt.log;
      ghost var answer := DrainMapping(rt, table, id, ms[j], t0, t1, rs, before + Withdrawn(id, ms[..j], answers));
      TidyJoin(log, start, {id}, {}, false, rt.log, {id}, {}, false);
      ServedJoin(h, table.history, |old(table.history)|, rs);
      LookedUpNext(log, start, id, f[id].ports, ms, j, answers, rt.log, answer);
      WithdrawnNext(before, id, ms, j, answers, answer);
      answers := answers + [answer];
    }
    assert ms[..|ms|] == ms;
  }

  /** Drains one old container, then stops and removes it. */
  method Retire(rt: Runtime, table: ProxyTable, id: Id, ms: seq<PortMapping>,
                ghost t0: Table, ghost t1: Table, ghost rs: seq<DeployResult>, ghost before: seq<DeployResult>)
    returns (ghost answers: seq<Option<Port>>)
    requires rt.Valid() && table.Valid() && Draining(t0, t1, table.Current(), rs, before) && id in rt.containers
    requires OldNewDisjoint(rt.containers, [id], rs)
    modifies rt, table`history, table.tcpProxies.Values`backends
    ensures rt.Continued() && Tidy(rt.log, |old(rt.log)|, {id}, {id}, false)
    ensures Aged(old(rt.containers) - {id}, rt.containers - {id})
    ensures id in rt.containers ==> Aged(old(rt.containers), rt.containers) && Blamed(rt.faults, rt.log, |old(rt.log)|, id)
    ensures rt.failures == old(rt.failures) ==> id !in rt.containers
    ensures AllLookedUp(rt.log, |old(rt.log)|, id, ms, answers) && Truthful(old(rt.containers)[id].ports, ms, answers)
    ensures Draining(t0, t1, table.Current(), rs, before + Withdrawn(id, ms, answers))
    ensures old(table.history) <= table.history && ServedSince(table.history, |old(table.history)|, rs)
  {
    answers := DrainOne(rt, table, id, ms, t0, t1, rs, before);
    ghost var aged, log := rt.containers, rt.log;
    label Drained:
    rt.StopAndRemove(id);
    table.Untouched@Drained();
    assert Aged(old(rt.containers) - {id}, aged - {id});
    TidyJoin(log, |old(rt.log)|, {id}, {}, false, rt.log, {}, {id}, false);
    AllLookedUpKept(log, |old(rt.log)|, id, ms, answers, rt.log, |old(rt.log)|);
    if id in rt.containers { BlamedKept(rt.faults, rt.log, |log|, rt.log, |old(rt.log)|, id); }
  }

  /** The backends of the answered lookups of the listed containers. */
  function WithdrawnAll(ids: seq<Id>, ms: seq<PortMapping>, answers: seq<seq<Option<Port>>>): seq<DeployResult>
    requires |answers| == |ids| && forall i :: 0 <= i < |ids| ==> |answers[i]| == |ms|
  {
    if ids == [] then []
    else
      var k := |ids| - 1;
      WithdrawnAll(ids[..k], ms, answers[..k]) + Withdrawn(ids[k], ms, answers[k])
  }

  /** Every mapping of every listed container was looked up, with these answers; f is the fleet at the
      listing. */
  ghost predicate AllDrained(log: seq<Command>, from: nat, f: Fleet, ids: seq<Id>, ms: seq<PortMapping>, answers: seq<seq<Option<Port>>>) {
    |answers| == |ids| &&
    forall i :: 0 <= i < |ids| ==>
      ids[i] in f && |answers[i]| == |ms| && AllLookedUp(log, from, ids[i], ms, answers[i]) && Truthful(f[ids[i]].ports, ms, answers[i])
  }

  lemma AllDrainedKept(log: seq<Command>, from: nat, f: Fleet, ids: seq<Id>, ms: seq<PortMapping>, answers: seq<seq<Option<Port>>>,
                       log': seq<Command>, from': nat, f': Fleet)
    requires AllDrained(log, from, f, ids, ms, answers) && log <= log' && from' <= from
    requires forall id :: id in ids ==> id in f && id in f' && f'[id].ports == f[id].ports
    ensures AllDrained(log', from', f', ids, ms, answers)
  {
    forall i | 0 <= i < |ids|
      ensures ids[i] in f' && AllLookedUp(log', from', ids[i], ms, answers[i]) && Truthful(f'[ids[i]].ports, ms, answers[i])
    {
      assert ids[i] in ids;
      AllLookedUpKept(log, from, ids[i], ms, answers[i], log', from');
    }
  }

  lemma AllDrainedNext(log: seq<Command>, from: nat, f: Fleet, ids: seq<Id>, i: nat, ms: seq<PortMapping>,
                       answers: seq<seq<Option<Port>>>, log': seq<Command>, more: seq<Option<Port>>)
    requires i < |ids| && from <= |log| && log <= log' && AllDrained(log, from, f, ids[..i], ms, answers)
    requires ids[i] in f && AllLookedUp(log', |log|, ids[i], ms, more) && Truthful(f[ids[i]].ports, ms, more)
    ensures AllDrained(log', from, f, ids[..i + 1], ms, answers + [more])
    ensures WithdrawnAll(ids[..i + 1], ms, answers + [more]) == WithdrawnAll(ids[..i], ms, answers) + Withdrawn(ids[i], ms, more)
  {
    AllLookedUpKept(log', |log|, ids[i], ms, more, log', from);
    forall k | 0 <= k < i
      ensures AllLookedUp(log', from, ids[..i + 1][k], ms, answers[k])
    {
      assert ids[..i][k] == ids[..i + 1][k];
      AllLookedUpKept(log, from, ids[..i][k], ms, answers[k], log', from);
    }
    assert forall k :: 0 <= k < i ==> ids[..i][k] == ids[..i + 1][k];
    assert ids[..i + 1][..i] == ids[..i] && (answers + [more])[..i] == answers;
  }

  lemma {:induction false} WithdrawnIsOldAll(log: seq<Command>, from: nat, f: Fleet, ids: seq<Id>, ms: seq<PortMapping>,
                                             answers: seq<seq<Option<Port>>>)
    requires AllDrained(log, from, f, ids, ms, answers) && Answered(log, from, ids)
    ensures WithdrawnAll(ids, ms, answers) == OldAll(ids, f, ms)
  {
    if ids != [] {
      var k := |ids| - 1;
      assert ids == ids[..k] + [ids[k]];
      AnsweredWithin(log, from, ids, log, from, ids[..k]);
      AnsweredWithin(log, from, ids, log, from, [ids[k]]);
      WithdrawnIsOldAll(log, from, f, ids[..k], ms, answers[..k]);
      AnsweredIsSome(log, from, ids[k], ms, answers[k]);
      WithdrawnIsOldOne(ids[k], f[ids[k]].ports, ms, answers[k]);
    }
  }

  /** Containers were removed or exited, and nothing else. */
  ghost predicate Faded(f: Fleet, g: Fleet) {
    forall id :: id in g ==>
      id in f && g[id].app == f[id].app && g[id].ports == f[id].ports && (g[id].running ==> f[id].running)
  }

  lemma FadedStep(f: Fleet, g: Fleet, h: Fleet, id: Id)
    requires Faded(f, g) && Aged(g - {id}, h - {id}) && (id in h ==> id in g && Aged(g, h))
    ensures Faded(f, h)
  {
    forall x | x in h
      ensures x in f && h[x].app == f[x].app && h[x].ports == f[x].ports && (h[x].running ==> f[x].running)
    {
      if x != id { assert x in h - {id} && (h - {id})[x] == h[x] && x in g - {id} && (g - {id})[x] == g[x]; }
    }
  }

  /** The old containers not yet drained are as they were, except that some may have exited. */
  ghost predicate RestIntact(f: Fleet, g: Fleet, existing: seq<Id>, i: nat) {
    forall k :: i <= k < |existing| && existing[k] in f ==>
      existing[k] in g && g[existing[k]].ports == f[existing[k]].ports && (g[existing[k]].running ==> f[existing[k]].running)
  }

  function Among(ids: seq<Id>): set<Id> {
    set id | id in ids
  }

  lemma AmongNext(ids: seq<Id>, i: nat)
    requires i < |ids| && forall i, j :: 0 <= i < j < |ids| ==> ids[i] != ids[j]
    ensures Among(ids[..i + 1]) == Among(ids[..i]) + {ids[i]} && ids[i] !in Among(ids[..i])
  {
    assert ids[..i + 1] == ids[..i] + [ids[i]];
  }

  lemma NextOld(f: Fleet, g: Fleet, existing: seq<Id>, i: nat, ms: seq<PortMapping>, rs: seq<DeployResult>)
    requires i < |existing| && RestIntact(f, g, existing, i) && OldNewDisjoint(f, existing, rs)
    requires forall id :: id in existing ==> id in f
    ensures existing[i] in f && existing[i] in g && g[existing[i]].ports == f[existing[i]].ports
    ensures OldNewDisjoint(g, [existing[i]], rs)
    ensures OldAll(existing[..i + 1], f, ms) == OldAll(existing[..i], f, ms) + OldOne(existing[i], f[existing[i]].ports, ms)
  {
    assert existing[i] in existing;
    assert existing[..i + 1][..i] == existing[..i];
  }

  lemma KeysAfter(f: Fleet, g: Fleet, h: Fleet, existing: seq<Id>, i: nat)
    requires i < |existing| && Aged(g - {existing[i]}, h - {existing[i]}) && (existing[i] in h ==> existing[i] in g)
    ensures f.Keys - Among(existing[..i]) <= g.Keys ==> f.Keys - Among(existing[..i + 1]) <= h.Keys
    ensures g.Keys == f.Keys - Among(existing[..i]) && existing[i] !in h ==>
              h.Keys == f.Keys - Among(existing[..i + 1])
  {
    OneRemoved(g, h, existing[i]);
    assert existing[..i + 1] == existing[..i] + [existing[i]];
    assert Among(existing[..i + 1]) == Among(existing[..i]) + {existing[i]};
  }

  /** Drains, stops and removes the old containers one by one. */
  method DrainOld(rt: Runtime, table: ProxyTable, existing: seq<Id>, ms: seq<PortMapping>, ghost t0: Table, ghost rs: seq<DeployResult>)
    returns (removedCount: nat, ghost answers: seq<seq<Option<Port>>>)
    requires rt.Valid() && table.Valid() && Grown(t0, table.Current(), rs)
    requires forall i, j :: 0 <= i < j < |existing| ==> existing[i] != existing[j]
    requires forall id :: id in existing ==> id in rt.containers
    requires OldNewDisjoint(rt.containers, existing, rs)
    modifies rt, table`history, table.tcpProxies.Values`backends
    ensures rt.Continued() && Tidy(rt.log, |old(rt.log)|, Among(existing), Among(existing), false)
    ensures removedCount == |existing|
    ensures AllDrained(rt.log, |old(rt.log)|, old(rt.containers), existing, ms, answers)
    ensures Draining(t0, old(table.Current()), table.Current(), rs, WithdrawnAll(existing, ms, answers))
    ensures old(table.history) <= table.history && ServedSince(table.history, |old(table.history)|, rs)
    ensures Faded(old(rt.containers), rt.containers)
    ensures old(rt.containers).Keys - Among(existing) <= rt.containers.Keys
    ensures GoneUnlessBlamed(rt.faults, rt.log, |old(rt.log)|, Among(existing), rt.containers)
    ensures rt.failures == old(rt.failures) ==> rt.containers.Keys == old(rt.containers).Keys - Among(existing)
  {
    ghost var f, t1, start := rt.containers, table.Current(), |rt.log|;
    removedCount, answers := 0, [];
    TidyEmpty(rt.log);
    for i := 0 to |existing|
      invariant rt.Valid() && rt.Continued()
      invariant removedCount == i && Tidy(rt.log, start, Among(existing[..i]), Among(existing[..i]), false)
      invariant AllDrained(rt.log, start, f, existing[..i], ms, answers)
      invariant Draining(t0, t1, table.Current(), rs, WithdrawnAll(existing[..i], ms, answers))
      invariant old(table.history) <= table.history && ServedSince(table.history, |old(table.history)|, rs)
      invariant RestIntact(f, rt.containers, existing, i)
      invariant Faded(f, rt.containers) && f.Keys - Among(existing[..i]) <= rt.containers.Keys
      invariant GoneUnlessBlamed(rt.faults, rt.log, start, Among(existing[..i]), rt.containers)
      invariant rt.failures == old(rt.failures) ==> rt.containers.Keys == f.Keys - Among(existing[..i])
    {
      var id := existing[i];
      NextOld(f, rt.containers, existing, i, ms, rs);
      ghost var h, g, log := table.history, rt.containers, rt.log;
      ghost var more := Retire(rt, table, id, ms, t0, t1, rs, WithdrawnAll(existing[..i], ms, answers));
      AmongNext(existing, i);
      TidyJoin(log, start, Among(existing[..i]), Among(existing[..i]), false, rt.log, {id}, {id}, false);
      ServedJoin(h, table.history, |old(table.history)|, rs);
      AllDrainedNext(log, start, f, existing, i, ms, answers, rt.log, more);
      RestAfter(f, g, rt.containers, existing, i);
      FadedStep(f, g, rt.containers, id);
      KeysAfter(f, g, rt.containers, existing, i);
      OneRemoved(g, rt.containers, id);
      GoneNext(rt.faults, log, start, Among(existing[..i]), g, rt.log, rt.containers, id);
      removedCount, answers := removedCount + 1, answers + [more];
    }
    assert existing[..|existing|] == existing;
  }

  lemma RestAfter(f: Fleet, g: Fleet, h: Fleet, existing: seq<Id>, i: nat)
    requires i < |existing| && RestIntact(f, g, existing, i)
    requires Aged(g - {existing[i]}, h - {existing[i]})
    requires forall i, j :: 0 <= i < j < |existing| ==> existing[i] != existing[j]
    ensures RestIntact(f, h, existing, i + 1)
  {
    forall k | i + 1 <= k < |existing| && existing[k] in f
      ensures existing[k] in h && h[existing[k]].ports == f[existing[k]].ports && (h[existing[k]].running ==> f[existing[k]].running)
    {
      var id := existing[k];
      assert id != existing[i];
      assert id in g - {existing[i]} && id in h - {existing[i]};
      assert (h - {existing[i]})[id] == h[id] && (g - {existing[i]})[id] == g[id];
    }
  }

  // ----- Deploy -----

  lemma {:induction false} OldAllAged(ids: seq<Id>, f: Fleet, g: Fleet, ms: seq<PortMapping>)
    requires forall id :: id in ids ==> id in f && id in g && f[id].ports == g[id].ports
    ensures OldAll(ids, f, ms) == OldAll(ids, g, ms)
  {
    if ids != [] {
      OldAllAged(ids[..|ids| - 1], f, g, ms);
      assert ids[|ids| - 1] in ids;
    }
  }

  /** A proxy is never left without both its old and its new backends. */
  ghost predicate NoDowntime(history: seq<Table>, from: nat, t0: Table, rs: seq<DeployResult>) {
    forall k :: from <= k < |history| ==> Covers(t0, history[k]) || Serves(history[k], rs)
  }

  lemma NoDowntimeJoin(h: seq<Table>, h': seq<Table>, from: nat, t0: Table, rs: seq<DeployResult>)
    requires h <= h' && CoveredSince(h, from, t0) && ServedSince(h', |h|, rs)
    ensures NoDowntime(h', from, t0, rs)
  {
    forall k | from <= k < |h'| ensures Covers(t0, h'[k]) || Serves(h'[k], rs) {
      if k < |h| { assert h'[k] == h[k]; }
    }
  }

  /** No container of the application runs except the replicas and the listed old ones. */
  ghost predicate OnlyKnownRun(g: Fleet, app: string, known: set<Id>) {
    forall id :: id in g && g[id].app == app && g[id].running ==> id in known
  }

  lemma OnlyKnown(f: Fleet, g: Fleet, h: Fleet, app: string, existing: seq<Id>, rs: seq<DeployResult>)
    requires forall id :: id in existing <==> id in f && f[id].running && f[id].app == app
    requires Joined(f, g, rs) && Faded(g, h)
    ensures OnlyKnownRun(h, app, Ids(rs) + Among(existing))
    ensures h.Keys == g.Keys - Among(existing) ==> OnlyKnownRun(h, app, Ids(rs))
  {
  }

  lemma StillLaunched(g: Fleet, h: Fleet, log: seq<Command>, log': seq<Command>, rs: seq<DeployResult>, app: string,
                      ms: seq<PortMapping>, checked: bool, existing: seq<Id>)
    requires Launched(g, log, rs, app, ms, checked) && log <= log' && Faded(g, h)
    requires g.Keys - Among(existing) <= h.Keys && Ids(rs) !! Among(existing)
    ensures Launched(h, log', rs, app, ms, checked)
  {
    forall r | r in rs ensures r.id in h {
      assert r.id in Ids(rs) && r.id in g.Keys;
    }
    LaunchedKept(g, h, log, log', rs, app, ms, checked);
  }

  /** What the proxies hold once the old containers' backends, and only those, are gone. */
  ghost predicate HoldExactly(t0: Table, t: Table, rs: seq<DeployResult>) {
    forall p :: p in t0 ==> p in t && multiset(t[p]) == NewAt(rs, p)
  }

  ghost predicate HeldExactly(t0: Table, olds: seq<DeployResult>) {
    forall p :: p in t0 ==> multiset(t0[p]) == NewAt(olds, p)
  }

  /** Every proxy holds what it held, and the replicas, without the backends taken out. */
  ghost predicate LeftWith(t0: Table, t: Table, rs: seq<DeployResult>, out: seq<DeployResult>) {
    forall p :: p in t0 ==> p in t && multiset(t[p]) == multiset(t0[p]) + NewAt(rs, p) - NewAt(out, p)
  }

  lemma DrainLeaves(t0: Table, t1: Table, t: Table, rs: seq<DeployResult>, out: seq<DeployResult>)
    requires Draining(t0, t1, t, rs, out)
    ensures LeftWith(t0, t, rs, out) && Serves(t, rs) && (HeldExactly(t0, out) ==> HoldExactly(t0, t, rs))
  {
    DrainServes(t0, t1, t, rs, out);
    if HeldExactly(t0, out) { DrainExact(t0, t1, t, rs, out); }
  }

  /** The second half of the deploy: the listed containers go, the replicas stay. */
  method RetireAll(rt: Runtime, table: ProxyTable, app: string, existing: seq<Id>, ms: seq<PortMapping>, checked: bool,
                   ghost t0: Table, ghost f: Fleet, rs: seq<DeployResult>)
    returns (removedCount: nat, ghost answers: seq<seq<Option<Port>>>)
    requires rt.Valid() && table.Valid() && Grown(t0, table.Current(), rs)
    requires forall i, j :: 0 <= i < j < |existing| ==> existing[i] != existing[j]
    requires forall id :: id in existing <==> id in f && f[id].running && f[id].app == app
    requires Joined(f, rt.containers, rs) && OldNewDisjoint(rt.containers, existing, rs)
    requires Launched(rt.containers, rt.log, rs, app, ms, checked)
    modifies rt, table`history, table.tcpProxies.Values`backends
    ensures rt.Continued() && removedCount == |existing| && Tidy(rt.log, |old(rt.log)|, Among(existing), Among(existing), false)
    ensures old(table.history) <= table.history && ServedSince(table.history, |old(table.history)|, rs)
    ensures Serves(table.Current(), rs) && Launched(rt.containers, rt.log, rs, app, ms, checked)
    ensures AllDrained(rt.log, |old(rt.log)|, f, existing, ms, answers)
    ensures LeftWith(t0, table.Current(), rs, WithdrawnAll(existing, ms, answers))
    ensures Answered(rt.log, |old(rt.log)|, existing) && HeldExactly(t0, OldAll(existing, f, ms)) ==>
      HoldExactly(t0, table.Current(), rs)
    ensures OnlyKnownRun(rt.containers, app, Ids(rs) + Among(existing))
    ensures GoneUnlessBlamed(rt.faults, rt.log, |old(rt.log)|, Among(existing), rt.containers)
    ensures rt.failures == old(rt.failures) ==>
      rt.containers.Keys == old(rt.containers).Keys - Among(existing) && OnlyKnownRun(rt.containers, app, Ids(rs))
  {
    ghost var t1, g, log := table.Current(), rt.containers, rt.log;
    removedCount, answers := DrainOld(rt, table, existing, ms, t0, rs);
    AllDrainedKept(rt.log, |log|, g, existing, ms, answers, rt.log, |log|, f);
    DrainLeaves(t0, t1, table.Current(), rs, WithdrawnAll(existing, ms, answers));
    if Answered(rt.log, |log|, existing) { WithdrawnIsOldAll(rt.log, |log|, f, existing, ms, answers); }
    OnlyKnown(f, g, rt.containers, app, existing, rs);
    StillLaunched(g, rt.containers, log, rt.log, rs, app, ms, checked, existing);
  }

  /** None of these containers was stopped or removed. */
  ghost predicate Spared(log: seq<Command>, from: nat, ids: set<Id>) {
    forall n :: from <= n < |log| && Disposal(log[n]) ==> log[n].id !in ids
  }

  /** What a successful deploy promises of the replicas and the proxies: f is the fleet at the listing,
      g the fleet afterwards; t0 and t are the proxies then and now. Every mapping of every listed
      container was looked up, and exactly the backends of the answered lookups are taken out. */
  ghost predicate Replaced(f: Fleet, g: Fleet, log: seq<Command>, from: nat, history: seq<Table>, since: nat, t0: Table, t: Table,
                           app: string, ms: seq<PortMapping>, checked: bool, existing: seq<Id>, rs: seq<DeployResult>,
                           answers: seq<seq<Option<Port>>>) {
    && InOrder(rs, ms) && Launched(g, log, rs, app, ms, checked)
    && NoDowntime(history, since, t0, rs) && Serves(t, rs)
    && OnlyKnownRun(g, app, Ids(rs) + Among(existing))
    && AllDrained(log, from, f, existing, ms, answers) && LeftWith(t0, t, rs, WithdrawnAll(existing, ms, answers))
    && (Answered(log, from, existing) && HeldExactly(t0, OldAll(existing, f, ms)) ==> HoldExactly(t0, t, rs))
  }

  /** The same from an earlier point of the log, with a fleet of which only containers have exited. */
  lemma ReplacedSince(f: Fleet, f': Fleet, g: Fleet, log: seq<Command>, from: nat, from': nat, history: seq<Table>, since: nat,
                      t0: Table, t: Table, app: string, ms: seq<PortMapping>, checked: bool, existing: seq<Id>,
                      rs: seq<DeployResult>, answers: seq<seq<Option<Port>>>)
    requires Replaced(f, g, log, from, history, since, t0, t, app, ms, checked, existing, rs, answers) && from' <= from && Aged(f', f)
    ensures Replaced(f', g, log, from', history, since, t0, t, app, ms, checked, existing, rs, answers)
  {
    forall id | id in existing ensures id in f && id in f' && f'[id].ports == f[id].ports {
      var i :| 0 <= i < |existing| && existing[i] == id;
    }
    AllDrainedKept(log, from, f, existing, ms, answers, log, from', f');
    OldAllAged(existing, f, f', ms);
    AnsweredWithin(log, from', existing, log, from, existing);
  }

  /** The deploy once the old containers are listed. */
  method Replace(rt: Runtime, table: ProxyTable, app: string, ms: seq<PortMapping>, count: nat, checked: bool, existing: seq<Id>)
    returns (outcome: Outcome, ghost drained: set<Id>, ghost disposed: set<Id>, ghost answers: seq<seq<Option<Port>>>)
    requires rt.Valid() && table.Valid() && UniqueProxyPorts(ms)
    requires forall i, j :: 0 <= i < j < |existing| ==> existing[i] != existing[j]
    requires forall id :: id in existing <==> id in rt.containers && rt.containers[id].running && rt.containers[id].app == app
    modifies rt, table`history, table.tcpProxies.Values`backends
    ensures rt.Continued() && old(table.history) <= table.history && Tidy(rt.log, |old(rt.log)|, drained, disposed, true)
    ensures outcome.Deployed? ==>
      && |outcome.results| == count && outcome.removedCount == |existing| && disposed == Among(existing)
      && Replaced(old(rt.containers), rt.containers, rt.log, |old(rt.log)|, table.history, |old(table.history)|,
                  old(table.Current()), table.Current(), app, ms, checked, existing, outcome.results, answers)
      && GoneUnlessBlamed(rt.faults, rt.log, |old(rt.log)|, Among(existing), rt.containers)
    ensures outcome.Deployed? && rt.failures == old(rt.failures) ==>
      && rt.containers.Keys == old(rt.containers).Keys + Ids(outcome.results) - Among(existing)
      && OnlyKnownRun(rt.containers, app, Ids(outcome.results))
    ensures outcome.Failed? ==>
      && disposed !! old(rt.containers).Keys && old(rt.containers).Keys <= rt.containers.Keys
      && Caused(rt.log, |old(rt.log)|, outcome.error) && !outcome.error.FindFailed?
      && RolledBack(old(table.Current()), table, |old(table.history)|, ms, outcome.error)
    ensures outcome.Failed? && rt.failures == old(rt.failures) ==> CleanedUp(old(rt.containers), rt.containers, outcome.error)
  {
    var rs, err;
    ghost var t0, f := table.Current(), rt.containers;
    rs, err, drained := StartReplicas(rt, table, app, ms, count, checked, existing);
    if err.Some? {
      return Failed(err.value), drained, drained, [];
    }
    ghost var h, log := table.history, rt.log;
    var removed;
    removed, answers := RetireAll(rt, table, app, existing, ms, checked, t0, f, rs);
    AllDrainedKept(rt.log, |log|, f, existing, ms, answers, rt.log, |old(rt.log)|, f);
    GoneKept(rt.faults, rt.log, |log|, Among(existing), rt.containers, rt.log, |old(rt.log)|, rt.containers);
    TidyJoin(log, |old(rt.log)|, drained, {}, true, rt.log, Among(existing), Among(existing), false);
    NoDowntimeJoin(h, table.history, |old(table.history)|, t0, rs);
    AnsweredWithin(rt.log, |old(rt.log)|, existing, rt.log, |log|, existing);
    return Deployed(rs, removed), drained + Among(existing), Among(existing), answers;
  }

  /** What a successful deploy promises of the containers: f is the fleet before, g the fleet after; `well`
      says that no stop or rm failed. */
  ghost predicate Succeeded(f: Fleet, g: Fleet, faults: nat -> bool, log: seq<Command>, from: nat, well: bool, app: string,
                            existing: seq<Id>, count: int, outcome: Outcome)
    requires outcome.Deployed?
  {
    && from < |log| && log[from] == DidList(app, Some(existing))
    && |outcome.results| == count && outcome.removedCount == |existing|
    && DisposedWithin(log, from, Among(existing)) && GoneUnlessBlamed(faults, log, from, Among(existing), g)
    && (well ==> g.Keys == f.Keys + Ids(outcome.results) - Among(existing) && OnlyKnownRun(g, app, Ids(outcome.results)))
  }

  /** What a failed deploy promises of the containers. */
  ghost predicate Undone(f: Fleet, g: Fleet, log: seq<Command>, from: nat, well: bool, error: DeployError) {
    && Spared(log, from, f.Keys) && f.Keys <= g.Keys && Caused(log, from, error) && (well ==> CleanedUp(f, g, error))
  }

  lemma ListingFailed(f: Fleet, g: Fleet, log: seq<Command>, app: string, well: bool)
    requires Aged(f, g)
    ensures Undone(f, g, log + [DidList(app, None)], |log|, well, FindFailed)
    ensures LaunchedFirst(log + [DidList(app, None)], |log|) && DrainedFirst(log + [DidList(app, None)], |log|)
  {
    assert Explains((log + [DidList(app, None)])[|log|], FindFailed);
  }

  /**
    Performs a rolling deployment.

    Success: one result per replica, each a container of the application that passed its
    check; at every point each proxy held all it started with or all the new replicas. The
    containers listed first are drained: no other container of the application runs besides
    the replicas, and one of the listed ones is left only if its own stop or rm failed. Every
    mapping of them was looked up, with `answers`, and the proxies end with what they started
    with and the replicas, without exactly the backends of the answered lookups; if they
    started with exactly the listed containers' backends and each lookup was answered, with
    exactly the new ones. Only listed containers are stopped or removed.

    Failure: a command failed, or a mapped proxy does not exist. Every proxy again holds
    what it started with, and did at every point on the way. Only when a replica could not
    be registered everywhere does this depend on whether one of its unregistered backends
    had been there before. No container that was there before is stopped or removed.

    Either way no container is stopped before the last one is started, checked and
    registered, nor before its own backends are taken out.
   */
  method Deploy(rt: Runtime, table: ProxyTable, app: string, ms: seq<PortMapping>, replicas: int, checked: bool)
    returns (outcome: Outcome, ghost existing: seq<Id>, ghost answers: seq<seq<Option<Port>>>)
    requires rt.Valid() && table.Valid() && UniqueProxyPorts(ms)
    modifies rt, table`history, table.tcpProxies.Values`backends
    ensures rt.Continued() && old(table.history) <= table.history
    ensures LaunchedFirst(rt.log, |old(rt.log)|) && DrainedFirst(rt.log, |old(rt.log)|)
    ensures forall id :: id in existing ==>
      id in old(rt.containers) && old(rt.containers)[id].running && old(rt.containers)[id].app == app
    ensures outcome.Deployed? ==>
      Succeeded(old(rt.containers), rt.containers, rt.faults, rt.log, |old(rt.log)|, rt.failures == old(rt.failures), app, existing,
                if replicas <= 0 then 1 else replicas, outcome)
    ensures outcome.Deployed? ==>
      Replaced(old(rt.containers), rt.containers, rt.log, |old(rt.log)|, table.history, |old(table.history)|,
               old(table.Current()), table.Current(), app, ms, checked, existing, outcome.results, answers)
    ensures outcome.Failed? ==>
      && Undone(old(rt.containers), rt.containers, rt.log, |old(rt.log)|, rt.failures == old(rt.failures), outcome.error)
      && RolledBack(old(table.Current()), table, |old(table.history)|, ms, outcome.error)
  {
    existing, answers := [], [];
    label Start:
    var ids := rt.FindContainersByLabel(app);
    table.Untouched@Start();
    ghost var log, f := rt.log, rt.containers;
    if ids.None? {
      ListingFailed(old(rt.containers), rt.containers, old(rt.log), app, rt.failures == old(rt.failures));
      return Failed(FindFailed), existing, answers;
    }
    existing := ids.value;
    ghost var drained, disposed := {}, {};
    outcome, drained, disposed, answers := Replace(rt, table, app, ms, if replicas <= 0 then 1 else replicas, checked, ids.value);
    InGoodOrder(old(rt.log), DidList(app, ids), rt.log, drained, disposed, old(rt.containers).Keys);
    if outcome.Failed? {
      CausedKept(rt.log, |log|, rt.log, |old(rt.log)|, outcome.error);
      assert Undone(old(rt.containers), rt.containers, rt.log, |old(rt.log)|, rt.failures == old(rt.failures), outcome.error);
    } else {
      ReplacedSince(f, old(rt.containers), rt.containers, rt.log, |log|, |old(rt.log)|, table.history, |old(table.history)|,
                    old(table.Current()), table.Current(), app, ms, checked, existing, outcome.results, answers);
      GoneKept(rt.faults, rt.log, |log|, Among(existing), rt.containers, rt.log, |old(rt.log)|, rt.containers);
    }
  }

  lemma InGoodOrder(log: seq<Command>, cmd: Command, log': seq<Command>, drained: set<Id>, disposed: set<Id>, ids: set<Id>)
    requires log + [cmd] <= log' && cmd.DidList? && Tidy(log', |log| + 1, drained, disposed, true)
    ensures LaunchedFirst(log', |log|) && DrainedFirst(log', |log|) && DisposedWithin(log', |log|, disposed)
    ensures disposed !! ids ==> Spared(log', |log|, ids)
  {
    TidyOne(log, cmd);
    TidyJoin(log + [cmd], |log|, {}, {}, false, log', drained, disposed, true);
  }
}
