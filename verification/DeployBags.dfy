/**
  The arithmetic of a rolling deploy: what registering and removing replicas does to the
  proxies' backends, counted as bags. Removing an absent backend changes nothing, which is
  the saturating difference of multisets.
 */
module DeployBags {
  import opened TcpProxies

  type Id = nat

  /** One replica: its container and, per proxy port, the host port it is reached at. */
  datatype DeployResult = DeployResult(id: Id, mappedPorts: map<Port, Port>, replicaIndex: nat)

  const LOCALHOST := "localhost"

  function BackendAt(r: DeployResult, p: Port): (b: Backend)
    requires p in r.mappedPorts
    ensures b.host == "localhost" && b.port == r.mappedPorts[p]
  {
    Backend(LOCALHOST, r.mappedPorts[p])
  }

  function At(r: DeployResult, p: Port): multiset<Backend> {
    if p in r.mappedPorts then multiset{BackendAt(r, p)} else multiset{}
  }

  /** What the replicas contribute to proxy p. */
  function NewAt(rs: seq<DeployResult>, p: Port): multiset<Backend> {
    if rs == [] then multiset{} else NewAt(rs[..|rs| - 1], p) + At(rs[|rs| - 1], p)
  }

  /** The replica restricted to the proxies already handled. */
  function Part(r: DeployResult, done: set<Port>): DeployResult {
    r.(mappedPorts := map p | p in r.mappedPorts && p in done :: r.mappedPorts[p])
  }

  // ----- relations between tables -----

  ghost predicate SameBags(t0: Table, t: Table) {
    t.Keys == t0.Keys && forall p :: p in t0 ==> multiset(t[p]) == multiset(t0[p])
  }

  /** Every proxy still holds all it held in t0. */
  ghost predicate Covers(t0: Table, t: Table) {
    t.Keys == t0.Keys && forall p :: p in t0 ==> multiset(t0[p]) <= multiset(t[p])
  }

  /** Every proxy holds all the backends of the given replicas. */
  ghost predicate Serves(t: Table, rs: seq<DeployResult>) {
    forall p :: p in t ==> NewAt(rs, p) <= multiset(t[p])
  }

  ghost predicate Grown(t0: Table, t: Table, rs: seq<DeployResult>) {
    t.Keys == t0.Keys && forall p :: p in t0 ==> multiset(t[p]) == multiset(t0[p]) + NewAt(rs, p)
  }

  ghost predicate Shrunk(t0: Table, t: Table, rs: seq<DeployResult>) {
    t.Keys == t0.Keys && forall p :: p in t0 ==> multiset(t[p]) == multiset(t0[p]) - NewAt(rs, p)
  }

  // ----- bag arithmetic -----

  lemma SubTwice(a: multiset<Backend>, b: multiset<Backend>, c: multiset<Backend>)
    ensures (a - b) - c == a - (b + c)
  {
  }

  lemma AddTwice(a: multiset<Backend>, b: multiset<Backend>, c: multiset<Backend>)
    ensures (a + b) + c == a + (b + c)
  {
  }

  lemma Cancel(m: multiset<Backend>, n: multiset<Backend>, d: multiset<Backend>, x: multiset<Backend>)
    ensures (m + (n + d)) - (n + x) == (m + d) - x
  {
  }

  lemma KeepDisjoint(m: multiset<Backend>, n: multiset<Backend>, d: multiset<Backend>)
    requires d !! n
    ensures n <= (m + n) - d
  {
  }

  lemma AddNone(n: multiset<Backend>)
    ensures n + multiset{} == n
  {
  }

  /** Taking one b away changes a bag exactly when it held one. */
  lemma TakeOne(m: multiset<Backend>, b: Backend)
    ensures m - multiset{b} == m <==> b !in m
  {
    assert b in m ==> (m - multiset{b})[b] == m[b] - 1;
  }

  // ----- steps -----

  lemma NewAtSnoc(rs: seq<DeployResult>, r: DeployResult, p: Port)
    ensures NewAt(rs + [r], p) == NewAt(rs, p) + At(r, p)
  {
    assert (rs + [r])[..|rs|] == rs;
  }

  lemma PartStep(r: DeployResult, done: set<Port>, p: Port, q: Port)
    requires p in r.mappedPorts && p !in done
    ensures At(Part(r, done + {p}), q) == At(Part(r, done), q) + (if q == p then multiset{BackendAt(r, p)} else multiset{})
  {
  }

  lemma PartWhole(r: DeployResult, done: set<Port>)
    requires r.mappedPorts.Keys <= done
    ensures Part(r, done) == r
  {
    assert Part(r, done).mappedPorts == r.mappedPorts;
  }

  lemma PartNone(r: DeployResult, p: Port)
    ensures At(Part(r, {}), p) == multiset{}
  {
  }

  lemma GrownStart(t0: Table, t: Table, rs: seq<DeployResult>, r: DeployResult)
    requires Grown(t0, t, rs)
    ensures Grown(t0, t, rs + [Part(r, {})])
  {
    forall p | p in t0 ensures multiset(t[p]) == multiset(t0[p]) + NewAt(rs + [Part(r, {})], p) {
      NewAtSnoc(rs, Part(r, {}), p);
      PartNone(r, p);
      AddNone(NewAt(rs, p));
    }
  }

  lemma GrownStepAt(t0: Table, t: Table, rs: seq<DeployResult>, r: DeployResult, done: set<Port>, p: Port, q: Port)
    requires p in r.mappedPorts && p !in done && p in t && q in t0 && q in t
    requires multiset(t[q]) == multiset(t0[q]) + NewAt(rs + [Part(r, done)], q)
    ensures multiset(Added(t, p, BackendAt(r, p))[q]) == multiset(t0[q]) + NewAt(rs + [Part(r, done + {p})], q)
  {
    var b := if q == p then multiset{BackendAt(r, p)} else multiset{};
    var d := At(Part(r, done), q);
    calc {
      NewAt(rs + [Part(r, done + {p})], q);
      { NewAtSnoc(rs, Part(r, done + {p}), q); PartStep(r, done, p, q); }
      NewAt(rs, q) + (d + b);
      { AddTwice(NewAt(rs, q), d, b); NewAtSnoc(rs, Part(r, done), q); }
      NewAt(rs + [Part(r, done)], q) + b;
    }
    AddTwice(multiset(t0[q]), NewAt(rs + [Part(r, done)], q), b);
    AppendBag(t[q], BackendAt(r, p));
    assert multiset(Added(t, p, BackendAt(r, p))[q]) == multiset(t[q]) + b;
  }

  lemma GrownStep(t0: Table, t: Table, rs: seq<DeployResult>, r: DeployResult, done: set<Port>, p: Port)
    requires Grown(t0, t, rs + [Part(r, done)]) && p in r.mappedPorts && p !in done && p in t
    ensures Grown(t0, Added(t, p, BackendAt(r, p)), rs + [Part(r, done + {p})])
  {
    forall q | q in t0
      ensures multiset(Added(t, p, BackendAt(r, p))[q]) == multiset(t0[q]) + NewAt(rs + [Part(r, done + {p})], q)
    {
      GrownStepAt(t0, t, rs, r, done, p, q);
    }
  }

  lemma GrownCovers(t0: Table, t: Table, rs: seq<DeployResult>)
    requires Grown(t0, t, rs)
    ensures Covers(t0, t)
  {
  }

  lemma ShrunkStart(t0: Table, t: Table, rs: seq<DeployResult>, r: DeployResult)
    requires Shrunk(t0, t, rs)
    ensures Shrunk(t0, t, rs + [Part(r, {})])
  {
    forall p | p in t0 ensures multiset(t[p]) == multiset(t0[p]) - NewAt(rs + [Part(r, {})], p) {
      NewAtSnoc(rs, Part(r, {}), p);
      PartNone(r, p);
      AddNone(NewAt(rs, p));
    }
  }

  lemma RemovedBag(t: Table, p: Port, b: Backend, q: Port)
    requires q in t
    ensures q in Removed(t, p, b)
    ensures multiset(Removed(t, p, b)[q]) == multiset(t[q]) - (if q == p then multiset{b} else multiset{})
  {
    RemoveFirstBag(t[q], b);
  }

  lemma ShrunkStepAt(t0: Table, t: Table, rs: seq<DeployResult>, r: DeployResult, done: set<Port>, p: Port, q: Port)
    requires p in r.mappedPorts && p !in done && q in t0 && q in t
    requires multiset(t[q]) == multiset(t0[q]) - NewAt(rs + [Part(r, done)], q)
    ensures q in Removed(t, p, BackendAt(r, p))
    ensures multiset(Removed(t, p, BackendAt(r, p))[q]) == multiset(t0[q]) - NewAt(rs + [Part(r, done + {p})], q)
  {
    var b := if q == p then multiset{BackendAt(r, p)} else multiset{};
    var d := At(Part(r, done), q);
    calc {
      NewAt(rs + [Part(r, done + {p})], q);
      { NewAtSnoc(rs, Part(r, done + {p}), q); PartStep(r, done, p, q); }
      NewAt(rs, q) + (d + b);
      { AddTwice(NewAt(rs, q), d, b); NewAtSnoc(rs, Part(r, done), q); }
      NewAt(rs + [Part(r, done)], q) + b;
    }
    SubTwice(multiset(t0[q]), NewAt(rs + [Part(r, done)], q), b);
    RemovedBag(t, p, BackendAt(r, p), q);
  }

  lemma ShrunkStep(t0: Table, t: Table, rs: seq<DeployResult>, r: DeployResult, done: set<Port>, p: Port)
    requires Shrunk(t0, t, rs + [Part(r, done)]) && p in r.mappedPorts && p !in done
    ensures Shrunk(t0, Removed(t, p, BackendAt(r, p)), rs + [Part(r, done + {p})])
  {
    forall q | q in t0
      ensures multiset(Removed(t, p, BackendAt(r, p))[q]) == multiset(t0[q]) - NewAt(rs + [Part(r, done + {p})], q)
    {
      ShrunkStepAt(t0, t, rs, r, done, p, q);
    }
  }

  /** Later removals only lower the bags further. */
  lemma RemovedCovered(t: Table, p: Port, b: Backend)
    ensures Covers(Removed(t, p, b), t)
  {
    forall q | q in t ensures multiset(Removed(t, p, b)[q]) <= multiset(t[q]) {
      RemovedBag(t, p, b, q);
    }
  }

  lemma CoversTrans(t0: Table, t1: Table, t2: Table)
    requires Covers(t0, t1) && Covers(t1, t2)
    ensures Covers(t0, t2)
  {
    forall p | p in t0 ensures multiset(t0[p]) <= multiset(t2[p]) {
      assert multiset(t0[p]) <= multiset(t1[p]) && multiset(t1[p]) <= multiset(t2[p]);
    }
  }

  // ----- results -----

  /** Removing exactly what was registered restores every proxy. */
  lemma RollbackRestores(t0: Table, t1: Table, t: Table, rs: seq<DeployResult>)
    requires Grown(t0, t1, rs) && Shrunk(t1, t, rs)
    ensures SameBags(t0, t)
  {
    forall p | p in t0 ensures multiset(t[p]) == multiset(t0[p]) {
      assert multiset(t[p]) == (multiset(t0[p]) + NewAt(rs, p)) - NewAt(rs, p);
    }
  }

  /** No backend the failed replica had not registered yet was behind its proxy at the start. */
  ghost predicate UnregisteredAbsent(t0: Table, r: DeployResult, done: set<Port>) {
    forall p :: p in r.mappedPorts && p !in done && p in t0 ==> BackendAt(r, p) !in t0[p]
  }

  lemma HalfTaken(m: multiset<Backend>, d: multiset<Backend>, b: Backend)
    requires d == multiset{}
    ensures (m + d) - multiset{b} == m <==> b !in m
  {
    assert m + d == m;
    TakeOne(m, b);
  }

  lemma AddThenTake(m: multiset<Backend>, d: multiset<Backend>)
    ensures (m + d) - d == m
  {
  }

  lemma PartialRollbackAt(t0: Table, t1: Table, t: Table, rs: seq<DeployResult>, r: DeployResult, done: set<Port>, p: Port)
    requires p in t0 && p in t1 && p in t
    requires multiset(t1[p]) == multiset(t0[p]) + NewAt(rs + [Part(r, done)], p)
    requires multiset(t[p]) == multiset(t1[p]) - NewAt(rs + [r], p)
    ensures multiset(t[p]) == multiset(t0[p]) <==> (p in r.mappedPorts && p !in done ==> BackendAt(r, p) !in t0[p])
  {
    var m, d := multiset(t0[p]), At(Part(r, done), p);
    NewAtSnoc(rs, Part(r, done), p);
    NewAtSnoc(rs, r, p);
    Cancel(m, NewAt(rs, p), d, At(r, p));
    if p in r.mappedPorts && p !in done {
      HalfTaken(m, d, BackendAt(r, p));
    } else {
      assert d == At(r, p);
      AddThenTake(m, d);
    }
  }

  /** Rolling back a replica of which only the ports in `done` were registered restores the
      proxies exactly when none of its other backends was there before. */
  lemma PartialRollback(t0: Table, t1: Table, t: Table, rs: seq<DeployResult>, r: DeployResult, done: set<Port>)
    requires Grown(t0, t1, rs + [Part(r, done)]) && Shrunk(t1, t, rs + [r])
    ensures SameBags(t0, t) <==> UnregisteredAbsent(t0, r, done)
  {
    forall p | p in t0
      ensures multiset(t[p]) == multiset(t0[p]) <==> (p in r.mappedPorts && p !in done ==> BackendAt(r, p) !in t0[p])
    {
      PartialRollbackAt(t0, t1, t, rs, r, done, p);
    }
  }

  lemma {:induction false} NewAtMember(rs: seq<DeployResult>, p: Port, b: Backend)
    requires b in NewAt(rs, p)
    ensures exists r :: r in rs && p in r.mappedPorts && b == BackendAt(r, p)
  {
    var last := rs[|rs| - 1];
    if b in At(last, p) {
      assert last in rs;
    } else {
      NewAtMember(rs[..|rs| - 1], p, b);
    }
  }

  ghost predicate PortsDisjoint(a: seq<DeployResult>, b: seq<DeployResult>) {
    forall x, y :: x in a && y in b ==> x.mappedPorts.Values !! y.mappedPorts.Values
  }

  lemma CommonBackend(a: seq<DeployResult>, b: seq<DeployResult>, p: Port, x: Backend)
    requires x in NewAt(a, p) && x in NewAt(b, p)
    ensures !PortsDisjoint(a, b)
  {
    NewAtMember(a, p, x);
    NewAtMember(b, p, x);
    var r :| r in a && p in r.mappedPorts && x == BackendAt(r, p);
    var q :| q in b && p in q.mappedPorts && x == BackendAt(q, p);
    assert x.port in r.mappedPorts.Values && x.port in q.mappedPorts.Values;
  }

  lemma DisjointBags(a: seq<DeployResult>, b: seq<DeployResult>, p: Port)
    requires PortsDisjoint(a, b)
    ensures NewAt(a, p) !! NewAt(b, p)
  {
    forall x | x in NewAt(a, p) ensures x !in NewAt(b, p) {
      if x in NewAt(b, p) { CommonBackend(a, b, p, x); }
    }
  }

  /** While old backends are drained, every proxy keeps all backends of the new replicas. */
  lemma DrainServes(t0: Table, t1: Table, t: Table, rs: seq<DeployResult>, drained: seq<DeployResult>)
    requires Grown(t0, t1, rs) && Shrunk(t1, t, drained) && PortsDisjoint(drained, rs)
    ensures Serves(t, rs)
  {
    forall p | p in t ensures NewAt(rs, p) <= multiset(t[p]) {
      DisjointBags(drained, rs, p);
      KeepDisjoint(multiset(t0[p]), NewAt(rs, p), NewAt(drained, p));
    }
  }

  /** Draining exactly the backends the proxies started with leaves exactly the new ones. */
  lemma DrainExact(t0: Table, t1: Table, t: Table, rs: seq<DeployResult>, drained: seq<DeployResult>)
    requires Grown(t0, t1, rs) && Shrunk(t1, t, drained)
    requires forall p :: p in t0 ==> multiset(t0[p]) == NewAt(drained, p)
    ensures forall p :: p in t0 ==> p in t && multiset(t[p]) == NewAt(rs, p)
  {
    forall p | p in t0 ensures p in t && multiset(t[p]) == NewAt(rs, p) {
      assert multiset(t[p]) == (multiset(t0[p]) + NewAt(rs, p)) - NewAt(drained, p);
      assert (NewAt(drained, p) + NewAt(rs, p)) - NewAt(drained, p) == NewAt(rs, p);
    }
  }

  /** A backend that was there before is lost: a replica on the same host port is first offered to
      proxy 81, which does not exist, so that nothing is registered, and is then rolled back at
      both proxies. Dewy's own startProxy leaves no mapped proxy missing; it takes an updater over
      other proxies. */
  lemma PartialRollbackLosesBackend() returns (t0: Table, t: Table, r: DeployResult)
    ensures r.mappedPorts.Keys == {80, 81}
    ensures Added(t0, 81, BackendAt(r, 81)) == t0
    ensures t == Removed(Removed(t0, 81, BackendAt(r, 81)), 80, BackendAt(r, 80))
    ensures !SameBags(t0, t) && !UnregisteredAbsent(t0, r, {})
  {
    r := DeployResult(0, map[80 := 32768, 81 := 32768], 0);
    t0 := map[80 := [BackendAt(r, 80)]];
    t := Removed(Removed(t0, 81, BackendAt(r, 81)), 80, BackendAt(r, 80));
    RemovedBag(t0, 80, BackendAt(r, 80), 80);
    assert BackendAt(r, 80) in t0[80] && |multiset(t0[80])| == 1;
    assert multiset(t[80]) == multiset{};
  }
}
