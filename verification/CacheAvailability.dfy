/**
  Stale-but-usable: once the shared entry holds a response, a call whose cache reads
  succeed always returns one.
 */
module CacheAvailability {
  import opened Basics
  import opened CacheEntry
  import opened CacheProtocol
  import opened CacheSafety
  import opened CacheTheorems

  predicate HasResponse(e: Option<Entry>) {
    e.Some? && e.value.response.Some?
  }

  /** The response was stored in the shared entry, or upstream answered it to n's own claimed call. */
  ghost predicate Sourced(s: State, n: Node, r: CurrentResponse) {
    || (exists i :: 0 <= i < |s.writes| && s.writes[i].entry.response == Some(r))
    || (exists k :: 0 <= k < |s.answers| && s.answers[k].node == n && s.answers[k].response == r)
  }

  /** The call can only end with a response that was stored or freshly answered. */
  ghost predicate Usable(s: State, n: Node, p: Phase) {
    match p
    case Reading(_) => true
    case TestingFresh(_, seen) => HasResponse(seen.entry)
    case TestingLock(_, seen) => HasResponse(seen.entry)
    case TestingDeadline(_, seen) => HasResponse(seen.entry)
    case Sleeping(_, seen, _) => HasResponse(seen.entry)
    case Deciding(_, seen) => HasResponse(seen.entry)
    case Claiming(_, seen, _) => HasResponse(seen.entry)
    case Claimed(seen, _) => HasResponse(seen.entry)
    case Calling(seen, _) => HasResponse(seen.entry)
    case Stamping(_, _) => true
    case Publishing(_, _, _) => true
    case Releasing(seen, _) => HasResponse(seen.entry)
    case Done(result) => result.Ok? && Sourced(s, n, result.value)
    case _ => false
  }

  /** Not a failed read, a crash or a new call of node n. */
  predicate Undisturbed(a: Action, n: Node) {
    a != Read(n, false) && a != Crash(n) && a != StartCall(n)
  }

  lemma SeenIsSourced(s: State, n: Node, seen: Seen)
    requires SeenOk(s, seen) && HasResponse(seen.entry)
    ensures Stale(seen).Ok? && Sourced(s, n, Stale(seen).value)
  {
    assert s.writes[seen.version - 1].entry.response == Some(Stale(seen).value);
  }

  lemma SourcedStable(s: State, s': State, n: Node, r: CurrentResponse)
    requires Sourced(s, n, r) && s.writes <= s'.writes && s.answers <= s'.answers
    ensures Sourced(s', n, r)
  {
    if i :| 0 <= i < |s.writes| && s.writes[i].entry.response == Some(r) {
      assert s'.writes[i] == s.writes[i];
    } else {
      var k :| 0 <= k < |s.answers| && s.answers[k].node == n && s.answers[k].response == r;
      assert s'.answers[k] == s.answers[k];
    }
  }

  lemma OnlyGrows(c: Config, s: State, a: Action)
    requires Enabled(s, a)
    ensures s.writes <= Next(c, s, a).writes && s.answers <= Next(c, s, a).answers
    ensures a.Tick? || (forall n :: n != a.n ==> PhaseOf(Next(c, s, a), n) == PhaseOf(s, n))
    ensures a.Tick? ==> Next(c, s, a).nodes == s.nodes
  {
  }

  /** A step of n itself while it still tests, waits or calls upstream. */
  lemma UsableLoopStep(c: Config, s: State, a: Action, n: Node)
    requires Enabled(s, a) && !a.Tick? && a.n == n && Undisturbed(a, n)
    requires HasResponse(Latest(s)) && Usable(s, n, PhaseOf(s, n))
    ensures var p' := PhaseOf(Next(c, s, a), n);
            Usable(Next(c, s, a), n, p') ||
            (p'.Done? && (PhaseOf(s, n).Publishing? || p'.result == Stale(PhaseOf(s, n).seen)))
  {
  }

  lemma UsableStep(c: Config, s: State, a: Action, n: Node)
    requires Inv(c, s) && Enabled(s, a) && Undisturbed(a, n)
    requires HasResponse(Latest(s)) && Usable(s, n, PhaseOf(s, n))
    ensures Usable(Next(c, s, a), n, PhaseOf(Next(c, s, a), n))
  {
    var s', p := Next(c, s, a), PhaseOf(s, n);
    OnlyGrows(c, s, a);
    if a.Tick? || a.n != n {
      if p.Done? { SourcedStable(s, s', n, p.result.value); }
    } else {
      assert PhaseOk(c, s, n, p);
      UsableLoopStep(c, s, a, n);
      if p.Publishing? {
        PublishedIsSourced(c, s, n, a.io);
      } else if PhaseOf(s', n).Done? {
        SeenIsSourced(s, n, p.seen);
        SourcedStable(s, s', n, Stale(p.seen).value);
      }
    }
  }

  lemma PublishedIsSourced(c: Config, s: State, n: Node, io: IO)
    requires PhaseOf(s, n).Publishing? && PhaseOk(c, s, n, PhaseOf(s, n))
    ensures Usable(Next(c, s, WriteResult(n, io)), n, PhaseOf(Next(c, s, WriteResult(n, io)), n))
  {
    var p, s' := PhaseOf(s, n), Next(c, s, WriteResult(n, io));
    var k :| 0 <= k < |s.answers| && s.answers[k] == Answer(n, p.claim, p.response);
    assert s'.answers[k] == s.answers[k];
  }

  lemma {:induction false} UsableRun(c: Config, s: State, run: seq<Action>, n: Node)
    requires Reachable(c, s) && Inv(c, s) && IsRun(c, s, run)
    requires HasResponse(Latest(s)) && Usable(s, n, PhaseOf(s, n))
    requires forall i :: 0 <= i < |run| ==> Undisturbed(run[i], n)
    ensures Usable(After(c, s, run), n, PhaseOf(After(c, s, run), n))
    decreases |run|
  {
    if run != [] {
      var s' := Next(c, s, run[0]);
      InvStep(c, s, run[0]);
      UsableStep(c, s, run[0], n);
      ReachableStep(c, s, run[0]);
      StoredMonotone(c, s, [run[0]]);
      assert After(c, s, [run[0]]) == s';
      UsableRun(c, s', run[1..], n);
    }
  }

  lemma ReachableStep(c: Config, s: State, a: Action)
    requires Reachable(c, s) && Enabled(s, a)
    ensures Reachable(c, Next(c, s, a))
  {
    var s0, run :| Init(s0) && IsRun(c, s0, run) && After(c, s0, run) == s;
    RunConcat(c, s0, run, [a]);
    assert After(c, s, [a]) == Next(c, s, a);
  }

  /** A call begun while a response is stored, whatever upstream, claim writes, cancellation and
      all other nodes do, ends without an error unless one of its own reads fails, and with a
      response that was stored or that upstream answered to this node under a claim. */
  lemma StaleButUsable(c: Config, s: State, n: Node, run: seq<Action>)
    requires Reachable(c, s) && HasResponse(Latest(s)) && Enabled(s, StartCall(n))
    requires IsRun(c, Next(c, s, StartCall(n)), run)
    requires forall i :: 0 <= i < |run| ==> Undisturbed(run[i], n)
    ensures var s' := After(c, Next(c, s, StartCall(n)), run);
            PhaseOf(s', n).Done? ==> PhaseOf(s', n).result.Ok? && Sourced(s', n, PhaseOf(s', n).result.value)
  {
    ReachableInv(c, s);
    InvStep(c, s, StartCall(n));
    ReachableStep(c, s, StartCall(n));
    UsableRun(c, Next(c, s, StartCall(n)), run, n);
  }
}
