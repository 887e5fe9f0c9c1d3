/**
  The container runtime as the rolling deploy sees it (container/runtime.go,
  container/inspect.go): a fleet of containers behind commands that may fail, and the log of
  the commands given so far. Changes of a container's backends are logged in between.

  Which commands fail of themselves is fixed but unknown: `faults(n)` says it of command
  number n. Containers may exit on their own before any command. The host ports of a new
  container are chosen by the operating system among those no running container uses.
 */
module ContainerRuntime {
  import opened Basics
  import opened DeployBags
  import opened TcpProxies

  /** A container: its application label, its host port per container port, and whether it runs. */
  datatype Container = Container(app: string, ports: map<Port, Port>, running: bool)

  type Fleet = map<Id, Container>

  /** A command and how it ended. */
  datatype Command =
    | DidList(app: string, ids: Option<seq<Id>>)
    | DidRun(app: string, launched: Option<Id>)
    | DidLookUp(id: Id, containerPort: Port, port: Option<Port>)
    | DidCheck(id: Id, ok: bool)
    | DidRegister(id: Id, proxyPort: Port, ok: bool)
    | DidUnregister(id: Id, proxyPort: Port, mappedPort: Port, ok: bool)
    | DidStop(id: Id, ok: bool)
    | DidRemove(id: Id, ok: bool)

  /** Nothing changed between f and g except that some containers stopped running. */
  ghost predicate Aged(f: Fleet, g: Fleet) {
    && g.Keys == f.Keys
    && (forall id :: id in f ==> g[id].app == f[id].app && g[id].ports == f[id].ports && (g[id].running ==> f[id].running))
  }

  /** No running container of the fleet uses one of these host ports. */
  ghost predicate Unused(f: Fleet, ports: map<Port, Port>) {
    forall id :: id in f && f[id].running ==> f[id].ports.Values !! ports.Values
  }

  predicate Disposal(cmd: Command) { cmd.DidStop? || cmd.DidRemove? }

  /** Looking up a container's ports or taking its backends out. */
  predicate Withdrawal(cmd: Command) { cmd.DidLookUp? || cmd.DidUnregister? }

  /** Starting, checking or registering a container. */
  predicate Launching(cmd: Command) { cmd.DidRun? || cmd.DidCheck? || cmd.DidRegister? }

  /** Since position `from` of the log no container was drained once it had been stopped or removed. */
  ghost predicate DrainedFirst(log: seq<Command>, from: nat) {
    forall n, m :: from <= n < m < |log| && Disposal(log[n]) && Withdrawal(log[m]) ==> log[n].id != log[m].id
  }

  /** Since then nothing was launched once a container had been stopped or removed. */
  ghost predicate LaunchedFirst(log: seq<Command>, from: nat) {
    forall n, m :: from <= n < m < |log| && Disposal(log[n]) ==> !Launching(log[m])
  }

  ghost predicate DisposedWithin(log: seq<Command>, from: nat, ids: set<Id>) {
    forall n :: from <= n < |log| && Disposal(log[n]) ==> log[n].id in ids
  }

  /** What a stretch of the log did to which containers, in good order. */
  ghost predicate Tidy(log: seq<Command>, from: nat, drained: set<Id>, disposed: set<Id>, launches: bool) {
    && (forall n :: from <= n < |log| && Withdrawal(log[n]) ==> log[n].id in drained)
    && DisposedWithin(log, from, disposed)
    && (forall n :: from <= n < |log| && Launching(log[n]) ==> launches)
    && DrainedFirst(log, from) && LaunchedFirst(log, from)
  }

  /** Two stretches in sequence are in good order if the second drains nothing that the first disposed
      of, and launches nothing after a disposal. */
  lemma TidyJoin(log: seq<Command>, from: nat, d1: set<Id>, x1: set<Id>, l1: bool, log': seq<Command>, d2: set<Id>, x2: set<Id>, l2: bool)
    requires log <= log' && from <= |log| && Tidy(log, from, d1, x1, l1) && Tidy(log', |log|, d2, x2, l2)
    requires x1 !! d2 && (x1 == {} || !l2)
    ensures Tidy(log', from, d1 + d2, x1 + x2, l1 || l2)
  {
    assert forall n :: 0 <= n < |log| ==> log'[n] == log[n];
  }

  lemma TidyEmpty(log: seq<Command>)
    ensures Tidy(log, |log|, {}, {}, false)
  {
  }

  lemma TidyWider(log: seq<Command>, from: nat, d: set<Id>, x: set<Id>, l: bool, d': set<Id>, x': set<Id>, l': bool)
    requires Tidy(log, from, d, x, l) && d <= d' && x <= x' && (l ==> l')
    ensures Tidy(log, from, d', x', l')
  {
  }

  /** A single command. */
  lemma TidyOne(log: seq<Command>, cmd: Command)
    ensures Tidy(log + [cmd], |log|,
                 if Withdrawal(cmd) then {cmd.id} else {}, if Disposal(cmd) then {cmd.id} else {}, Launching(cmd))
  {
  }

  /** Since position `from` of the log the container's own stop or rm failed of itself. */
  ghost predicate Blamed(faults: nat -> bool, log: seq<Command>, from: nat, id: Id) {
    exists n :: from <= n < |log| && Disposal(log[n]) && log[n].id == id && faults(n)
  }

  lemma BlamedKept(faults: nat -> bool, log: seq<Command>, from: nat, log': seq<Command>, from': nat, id: Id)
    requires log <= log' && from' <= from && Blamed(faults, log, from, id)
    ensures Blamed(faults, log', from', id)
  {
    var n :| from <= n < |log| && Disposal(log[n]) && log[n].id == id && faults(n);
    assert Disposal(log'[n]) && log'[n].id == id;
  }

  /** Of these containers only those are left whose own stop or rm failed. */
  ghost predicate GoneUnlessBlamed(faults: nat -> bool, log: seq<Command>, from: nat, ids: set<Id>, f: Fleet) {
    forall id :: id in ids && id in f ==> Blamed(faults, log, from, id)
  }

  lemma GoneKept(faults: nat -> bool, log: seq<Command>, from: nat, ids: set<Id>, f: Fleet, log': seq<Command>, from': nat, f': Fleet)
    requires GoneUnlessBlamed(faults, log, from, ids, f) && log <= log' && from' <= from && f'.Keys <= f.Keys
    ensures GoneUnlessBlamed(faults, log', from', ids, f')
  {
    forall id | id in ids && id in f' ensures Blamed(faults, log', from', id) {
      BlamedKept(faults, log, from, log', from', id);
    }
  }

  /** How many stop and rm commands of the log failed of themselves. */
  function DisposalFaults(faults: nat -> bool, log: seq<Command>): nat {
    if log == [] then 0
    else
      var n := |log| - 1;
      DisposalFaults(faults, log[..n]) + if Disposal(log[n]) && faults(n) then 1 else 0
  }

  lemma FaultsSnoc(faults: nat -> bool, log: seq<Command>, cmd: Command)
    ensures DisposalFaults(faults, log + [cmd]) ==
            DisposalFaults(faults, log) + if Disposal(cmd) && faults(|log|) then 1 else 0
  {
    assert (log + [cmd])[..|log|] == log;
  }

  /** A number outside the set. */
  method Outside(s: set<nat>) returns (n: nat)
    ensures n !in s
  {
    n := 0;
    var rest := s;
    while rest != {}
      invariant rest <= s
      invariant forall x :: x in s && x !in rest ==> x < n
      decreases rest
    {
      var x :| x in rest;
      rest := rest - {x};
      if x >= n {
        n := x + 1;
      }
    }
  }

  class Runtime {
    const faults: nat -> bool
    var containers: Fleet
    var log: seq<Command>
    /** The stop and rm commands so far that failed of themselves. */
    ghost var failures: nat

    ghost predicate Valid()
      reads this
    {
      failures == DisposalFaults(faults, log)
    }

    /** Commands were only added. */
    twostate predicate Continued()
      reads this
    {
      old(Valid()) ==> Valid() && old(log) <= log && old(failures) <= failures
    }

    constructor (faults: nat -> bool, containers: Fleet)
      ensures Valid() && this.faults == faults && this.containers == containers && log == []
    {
      this.faults, this.containers := faults, containers;
      log, failures := [], 0;
    }

    /** Some containers may exit on their own. */
    method Age()
      modifies this`containers
      ensures Aged(old(containers), containers)
    {
      var exited: set<Id> := *;
      containers := map id | id in containers :: containers[id].(running := containers[id].running && id !in exited);
    }

    /** The next command, with its outcome. */
    method Record(cmd: Command)
      requires Valid()
      modifies this`log, this`failures
      ensures Valid() && log == old(log) + [cmd]
      ensures failures == old(failures) + if Disposal(cmd) && faults(|old(log)|) then 1 else 0
    {
      FaultsSnoc(faults, log, cmd);
      failures := failures + if Disposal(cmd) && faults(|log|) then 1 else 0;
      log := log + [cmd];
    }

    /** A new container's identifier and host ports, as the system picks them. */
    method Allocate(wanted: set<Port>) returns (id: Id, ports: map<Port, Port>)
      ensures id !in containers && ports.Keys == wanted && Unused(containers, ports)
    {
      id := *;
      ports := *;
      var free := forall other :: other in containers && containers[other].running ==> containers[other].ports.Values !! ports.Values;
      if id in containers || ports.Keys != wanted || !free {
        id := Outside(containers.Keys);
        var used := set other, p | other in containers && p in containers[other].ports :: containers[other].ports[p];
        var host := Outside(used);
        ports := map p | p in wanted :: host;
      }
    }

    /** `run -d -p 127.0.0.1::port ...`: starts a container on unused host ports. */
    method Run(app: string, wanted: set<Port>) returns (id: Option<Id>)
      requires Valid()
      modifies this
      ensures Valid() && log == old(log) + [DidRun(app, id)] && failures == old(failures)
      ensures id.Some? <==> !faults(|old(log)|)
      ensures id.None? ==> Aged(old(containers), containers)
      ensures id.Some? ==>
        && id.value !in old(containers) && id.value in containers
        && Aged(old(containers), containers - {id.value})
        && containers[id.value].ports.Keys == wanted
        && containers[id.value].app == app && containers[id.value].running
        && Unused(containers - {id.value}, containers[id.value].ports)
    {
      Age();
      if faults(|log|) {
        id := None;
      } else {
        ghost var others := containers;
        var candidate, ports := Allocate(wanted);
        containers := containers[candidate := Container(app, ports, true)];
        assert containers - {candidate} == others;
        id := Some(candidate);
      }
      Record(DidRun(app, id));
    }

    /** `port`: the host port of a running container's published port. */
    method GetMappedPort(id: Id, containerPort: Port) returns (port: Option<Port>)
      requires Valid()
      modifies this
      ensures Valid() && log == old(log) + [DidLookUp(id, containerPort, port)] && failures == old(failures)
      ensures Aged(old(containers), containers)
      ensures port.Some? <==>
        !faults(|old(log)|) && id in containers && containers[id].running && containerPort in containers[id].ports
      ensures port.Some? ==> port.value == containers[id].ports[containerPort]
    {
      Age();
      port := None;
      if !faults(|log|) && id in containers && containers[id].running && containerPort in containers[id].ports {
        port := Some(containers[id].ports[containerPort]);
      }
      Record(DidLookUp(id, containerPort, port));
    }

    /** `ps -q` with the application label: the running containers, in some order. */
    method FindContainersByLabel(app: string) returns (ids: Option<seq<Id>>)
      requires Valid()
      modifies this
      ensures Valid() && log == old(log) + [DidList(app, ids)] && failures == old(failures)
      ensures Aged(old(containers), containers)
      ensures ids.Some? <==> !faults(|old(log)|)
      ensures ids.Some? ==>
        && (forall i, j :: 0 <= i < j < |ids.value| ==> ids.value[i] != ids.value[j])
        && (forall id :: id in ids.value <==> id in containers && containers[id].running && containers[id].app == app)
    {
      Age();
      if faults(|log|) {
        ids := None;
      } else {
        var found := Running(app);
        ids := Some(found);
      }
      Record(DidList(app, ids));
    }

    method Running(app: string) returns (found: seq<Id>)
      ensures forall i, j :: 0 <= i < j < |found| ==> found[i] != found[j]
      ensures forall id :: id in found <==> id in containers && containers[id].running && containers[id].app == app
    {
      var rest := set id | id in containers && containers[id].running && containers[id].app == app;
      ghost var all := rest;
      found := [];
      while rest != {}
        invariant rest <= all
        invariant forall id :: id in found <==> id in all && id !in rest
        invariant forall i, j :: 0 <= i < j < |found| ==> found[i] != found[j]
        decreases rest
      {
        var id :| id in rest;
        rest := rest - {id};
        found := found + [id];
      }
    }

    /** The health check of a container. */
    method HealthCheck(id: Id) returns (ok: bool)
      requires Valid()
      modifies this
      ensures Valid() && log == old(log) + [DidCheck(id, ok)] && failures == old(failures)
      ensures Aged(old(containers), containers)
      ensures ok <==> !faults(|old(log)|)
    {
      Age();
      ok := !faults(|log|);
      Record(DidCheck(id, ok));
    }

    /** `stop`. */
    method Stop(id: Id)
      requires Valid()
      modifies this
      ensures Valid() && old(log) <= log && |log| == |old(log)| + 1
      ensures log[|old(log)|] == DidStop(id, !faults(|old(log)|) && id in containers)
      ensures failures == old(failures) + if faults(|old(log)|) then 1 else 0
      ensures Aged(old(containers), containers)
      ensures !faults(|old(log)|) && id in containers ==> !containers[id].running
    {
      Age();
      var ok := !faults(|log|) && id in containers;
      if ok {
        containers := containers[id := containers[id].(running := false)];
      }
      Record(DidStop(id, ok));
    }

    /** `rm` without force: refuses a running container. */
    method Remove(id: Id)
      requires Valid()
      modifies this
      ensures Valid() && old(log) <= log && |log| == |old(log)| + 1
      ensures log[|old(log)|] == DidRemove(id, id in old(containers) && id !in containers)
      ensures failures == old(failures) + if faults(|old(log)|) then 1 else 0
      ensures Aged(old(containers) - {id}, containers - {id})
      ensures id in containers ==> id in old(containers) && Aged(old(containers), containers)
      ensures id in containers && !faults(|old(log)|) ==> containers[id].running && old(containers)[id].running
    {
      Age();
      ghost var aged := containers;
      var ok := !faults(|log|) && id in containers && !containers[id].running;
      if ok {
        containers := containers - {id};
      }
      assert containers - {id} == aged - {id};
      Record(DidRemove(id, ok));
    }

    /** `stop` then `rm`: the container is gone unless one of the commands failed. */
    method StopAndRemove(id: Id)
      requires Valid()
      modifies this
      ensures Valid() && old(log) <= log && |log| == |old(log)| + 2
      ensures log[|old(log)|].DidStop? && log[|old(log)|].id == id
      ensures log[|old(log)| + 1].DidRemove? && log[|old(log)| + 1].id == id
      ensures Tidy(log, |old(log)|, {}, {id}, false)
      ensures old(failures) <= failures
      ensures Aged(old(containers) - {id}, containers - {id})
      ensures id in containers ==> id in old(containers) && Aged(old(containers), containers)
      ensures failures == old(failures) ==> id !in containers
      ensures id in containers ==> Blamed(faults, log, |old(log)|, id)
    {
      Stop(id);
      ghost var stopped := containers;
      Remove(id);
      assert Aged(old(containers) - {id}, stopped - {id});
      if id in containers {
        ghost var n := if faults(|old(log)|) then |old(log)| else |old(log)| + 1;
        assert Disposal(log[n]) && log[n].id == id && faults(n);
      }
    }
  }
}
