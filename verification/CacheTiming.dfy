/**
  The instants behind the refresh protocol: what the tests of the loop decide, said of the
  fields of the entry and the clock alone, which clock readings the deadlines, locks and stamps
  of a run come from, and what a claim, publish or release leaves in the store.
 */
module CacheTiming {
  import opened Basics
  import opened CacheEntry
  import opened CacheProtocol
  import opened CacheSafety
  import opened CacheTheorems

  // ----- the tests of the loop -----

  /** The response read is served exactly when it is younger than the ttl. */
  lemma FreshTestExactly(c: Config, s: State, n: Node)
    requires Enabled(s, TestFresh(n))
    ensures var p, p' := PhaseOf(s, n), PhaseOf(Next(c, s, TestFresh(n)), n);
            && (p'.Done? <==> p.seen.entry.Some? && p.seen.entry.value.response.Some? && s.clock < p.seen.entry.value.fetchedAt + c.ttl)
            && (p'.Done? ==> p'.result == Ok(p.seen.entry.value.response.value))
            && (!p'.Done? ==> p' == TestingLock(p.deadline, p.seen))
  {
  }

  /** The call looks at its deadline exactly when the entry read is locked and the lock is younger than
      lockTTL; otherwise it goes on to claim. */
  lemma LockTestExactly(c: Config, s: State, n: Node)
    requires Enabled(s, TestLock(n))
    ensures var p, p' := PhaseOf(s, n), PhaseOf(Next(c, s, TestLock(n)), n);
            && (p' == TestingDeadline(p.deadline, p.seen) <==> LiveAt(c, p.seen, s.clock))
            && (p' == Deciding(p.deadline, p.seen) <==> !LiveAt(c, p.seen, s.clock))
  {
  }

  /** It then waits for the given time exactly before its deadline. */
  lemma DeadlineTestExactly(c: Config, s: State, n: Node)
    requires Enabled(s, TestDeadline(n))
    ensures var p, p' := PhaseOf(s, n), PhaseOf(Next(c, s, TestDeadline(n)), n);
            && (p' == Sleeping(p.deadline, p.seen, s.clock + c.wait) <==> s.clock < p.deadline)
            && (p' == Deciding(p.deadline, p.seen) <==> s.clock >= p.deadline)
  {
  }

  /** The entry read carries a lock that is live at the instant t. */
  predicate LiveAt(c: Config, seen: Seen, t: Time) {
    seen.entry.Some? && seen.entry.value.lockedAt != 0 && t < seen.entry.value.lockedAt + c.lockTTL
  }

  // ----- what the writes leave -----

  /** A publish that reaches the store leaves the answered response with its stamp, a release what was
      there before the claim, and both no lock. */
  lemma LandedResult(c: Config, s: State, n: Node, io: IO)
    requires Reachable(c, s) && Enabled(s, WriteResult(n, io))
    requires ClaimOf(PhaseOf(s, n)) == |s.writes| && io != Failed(false)
    ensures var p, e := PhaseOf(s, n), Latest(Next(c, s, WriteResult(n, io)));
            && e.Some? && e.value.lockedAt == 0 && e.value.lockedBy == None
            && (p.Publishing? ==> e.value.response == Some(p.response) && e.value.fetchedAt == p.at)
            && (p.Releasing? ==>
                  && (p.seen.entry.Some? ==>
                        e.value.response == p.seen.entry.value.response && e.value.fetchedAt == p.seen.entry.value.fetchedAt)
                  && (p.seen.entry.None? ==> e.value.response == None && e.value.fetchedAt == 0))
            && (p.Releasing? ==> 0 < |s.writes| && p.seen.entry == EntryAt(s.writes, |s.writes| - 1))
  {
    ReachableInv(c, s);
    assert PhaseOk(c, s, n, s.nodes[n]);
  }

  /** A claim that reaches the store adds the claimer's lock to what was there. */
  lemma LandedClaim(c: Config, s: State, n: Node, io: IO)
    requires Reachable(c, s) && Enabled(s, WriteClaim(n, io))
    requires PhaseOf(s, n).seen.version == |s.writes| && io != Failed(false)
    ensures var p, e := PhaseOf(s, n), Latest(Next(c, s, WriteClaim(n, io)));
            && e.Some? && e.value.lockedBy == Some(n) && e.value.lockedAt == p.entry.lockedAt
            && (Latest(s).Some? ==>
                  e.value.response == Latest(s).value.response && e.value.fetchedAt == Latest(s).value.fetchedAt)
            && (Latest(s).None? ==> e.value.response == None)
  {
    ReachableInv(c, s);
    assert PhaseOk(c, s, n, s.nodes[n]);
  }

  // ----- where instants come from -----

  /** Action a was taken at instant t; states[j] is the state in which run[j] was taken. */
  ghost predicate Happened(states: seq<State>, run: seq<Action>, a: Action, t: Time) {
    |states| == |run| && exists j :: 0 <= j < |run| && run[j] == a && states[j].clock == t
  }

  /** The deadline is that of a call of n begun lockTTL + wait before it. */
  ghost predicate Begun(c: Config, states: seq<State>, run: seq<Action>, n: Node, deadline: Time) {
    exists t: Time :: Happened(states, run, StartCall(n), t) && deadline == t + c.lockTTL + c.wait
  }

  ghost predicate FoundLive(c: Config, states: seq<State>, run: seq<Action>, n: Node, seen: Seen) {
    exists t: Time :: Happened(states, run, TestLock(n), t) && LiveAt(c, seen, t)
  }

  ghost predicate PhaseTimed(c: Config, states: seq<State>, run: seq<Action>, n: Node, p: Phase) {
    match p
    case Reading(d) => Begun(c, states, run, n, d)
    case TestingFresh(d, _) => Begun(c, states, run, n, d)
    case TestingLock(d, _) => Begun(c, states, run, n, d)
    case TestingDeadline(d, seen) => Begun(c, states, run, n, d) && FoundLive(c, states, run, n, seen)
    case Sleeping(d, _, _) => Begun(c, states, run, n, d)
    case Deciding(d, _) => Begun(c, states, run, n, d)
    case Claiming(d, _, e) => Begun(c, states, run, n, d) && Happened(states, run, StampClaim(n), e.lockedAt)
    case Publishing(_, at, _) => Happened(states, run, StampResult(n), at)
    case _ => true
  }

  ghost predicate WriteTimed(c: Config, states: seq<State>, run: seq<Action>, w: Write) {
    match w.kind
    case Claim(_, d) => Begun(c, states, run, w.node, d) && Happened(states, run, StampClaim(w.node), w.entry.lockedAt)
    case Publish(_) => Happened(states, run, StampResult(w.node), w.entry.fetchedAt)
    case Release(_) => true
  }

  ghost predicate Timed(c: Config, states: seq<State>, run: seq<Action>, s: State) {
    && |states| == |run|
    && (forall n :: n in s.nodes ==> PhaseTimed(c, states, run, n, s.nodes[n]))
    && (forall i :: 0 <= i < |s.writes| ==> WriteTimed(c, states, run, s.writes[i]))
  }

  lemma HappenedKept(states: seq<State>, run: seq<Action>, a: Action, t: Time, s: State, b: Action)
    requires Happened(states, run, a, t)
    ensures Happened(states + [s], run + [b], a, t)
  {
    var j :| 0 <= j < |run| && run[j] == a && states[j].clock == t;
    assert (run + [b])[j] == a && (states + [s])[j].clock == t;
  }

  lemma HappensNow(states: seq<State>, run: seq<Action>, s: State, a: Action)
    requires |states| == |run|
    ensures Happened(states + [s], run + [a], a, s.clock)
  {
    assert (run + [a])[|run|] == a && (states + [s])[|run|].clock == s.clock;
  }

  lemma BegunKept(c: Config, states: seq<State>, run: seq<Action>, n: Node, d: Time, s: State, b: Action)
    requires Begun(c, states, run, n, d)
    ensures Begun(c, states + [s], run + [b], n, d)
  {
    var t: Time :| Happened(states, run, StartCall(n), t) && d == t + c.lockTTL + c.wait;
    HappenedKept(states, run, StartCall(n), t, s, b);
  }

  lemma PhaseTimedKept(c: Config, states: seq<State>, run: seq<Action>, n: Node, p: Phase, s: State, b: Action)
    requires PhaseTimed(c, states, run, n, p)
    ensures PhaseTimed(c, states + [s], run + [b], n, p)
  {
    if p.Reading? || p.TestingFresh? || p.TestingLock? || p.TestingDeadline? || p.Sleeping? || p.Deciding? || p.Claiming? {
      BegunKept(c, states, run, n, p.deadline, s, b);
    }
    if p.TestingDeadline? {
      var t: Time :| Happened(states, run, TestLock(n), t) && LiveAt(c, p.seen, t);
      HappenedKept(states, run, TestLock(n), t, s, b);
    }
    if p.Claiming? { HappenedKept(states, run, StampClaim(n), p.entry.lockedAt, s, b); }
    if p.Publishing? { HappenedKept(states, run, StampResult(n), p.at, s, b); }
  }

  lemma WriteTimedKept(c: Config, states: seq<State>, run: seq<Action>, w: Write, s: State, b: Action)
    requires WriteTimed(c, states, run, w)
    ensures WriteTimed(c, states + [s], run + [b], w)
  {
    if w.kind.Claim? {
      BegunKept(c, states, run, w.node, w.kind.deadline, s, b);
      HappenedKept(states, run, StampClaim(w.node), w.entry.lockedAt, s, b);
    }
    if w.kind.Publish? { HappenedKept(states, run, StampResult(w.node), w.entry.fetchedAt, s, b); }
  }

  /** What the acting node's new phase is, as far as instants go. */
  lemma OwnPhase(c: Config, s: State, a: Action)
    requires Enabled(s, a) && !a.Tick?
    ensures var p, p' := PhaseOf(s, a.n), PhaseOf(Next(c, s, a), a.n);
            match p'
            case Reading(d) => (a.StartCall? && d == s.clock + c.lockTTL + c.wait) || (p.Sleeping? && d == p.deadline)
            case TestingFresh(d, _) => p.Reading? && d == p.deadline
            case TestingLock(d, _) => p.TestingFresh? && d == p.deadline
            case TestingDeadline(d, seen) => a.TestLock? && d == p.deadline && p.TestingLock? && LiveAt(c, seen, s.clock)
            case Sleeping(d, _, _) => (p.TestingDeadline? || p.Claiming?) && d == p.deadline
            case Deciding(d, _) => (p.TestingLock? || p.TestingDeadline?) && d == p.deadline
            case Claiming(d, _, e) => a.StampClaim? && p.Deciding? && d == p.deadline && e.lockedAt == s.clock
            case Publishing(_, at, _) => a.StampResult? && at == s.clock
            case _ => true
  {
  }

  lemma OwnPhaseTimed(c: Config, states: seq<State>, run: seq<Action>, s: State, a: Action)
    requires Enabled(s, a) && !a.Tick? && |states| == |run| && PhaseTimed(c, states, run, a.n, PhaseOf(s, a.n))
    ensures PhaseTimed(c, states + [s], run + [a], a.n, PhaseOf(Next(c, s, a), a.n))
  {
    OwnPhase(c, s, a);
    HappensNow(states, run, s, a);
    PhaseTimedKept(c, states, run, a.n, PhaseOf(s, a.n), s, a);
  }

  lemma NewWriteTimed(c: Config, states: seq<State>, run: seq<Action>, s: State, a: Action)
    requires Enabled(s, a) && |states| == |run|
    requires !a.Tick? ==> PhaseTimed(c, states, run, a.n, PhaseOf(s, a.n))
    ensures var ws := Next(c, s, a).writes;
            ws == s.writes || (|ws| == |s.writes| + 1 && s.writes <= ws && WriteTimed(c, states, run, ws[|s.writes|]))
  {
  }

  lemma TimedStep(c: Config, states: seq<State>, run: seq<Action>, s: State, a: Action)
    requires Timed(c, states, run, s) && Enabled(s, a)
    ensures Timed(c, states + [s], run + [a], Next(c, s, a))
  {
    var s' := Next(c, s, a);
    if !a.Tick? {
      assert PhaseTimed(c, states, run, a.n, PhaseOf(s, a.n));
      OwnPhaseTimed(c, states, run, s, a);
    }
    forall n | n in s'.nodes ensures PhaseTimed(c, states + [s], run + [a], n, s'.nodes[n]) {
      if a.Tick? || n != a.n { PhaseTimedKept(c, states, run, n, s.nodes[n], s, a); }
    }
    NewWriteTimed(c, states, run, s, a);
    forall i | 0 <= i < |s'.writes| ensures WriteTimed(c, states + [s], run + [a], s'.writes[i]) {
      if i < |s.writes| { assert s'.writes[i] == s.writes[i]; }
      WriteTimedKept(c, states, run, s'.writes[i], s, a);
    }
  }

  lemma {:induction false} TimedRun(c: Config, states: seq<State>, run: seq<Action>, s: State, rest: seq<Action>)
    requires Timed(c, states, run, s) && IsRun(c, s, rest)
    ensures Timed(c, states + Trail(c, s, rest), run + rest, After(c, s, rest))
    decreases |rest|
  {
    if rest == [] {
      assert states + Trail(c, s, rest) == states && run + rest == run;
    } else {
      TimedStep(c, states, run, s, rest[0]);
      TimedRun(c, states + [s], run + [rest[0]], Next(c, s, rest[0]), rest[1..]);
      assert (states + [s]) + Trail(c, Next(c, s, rest[0]), rest[1..]) == states + Trail(c, s, rest);
      assert (run + [rest[0]]) + rest[1..] == run + rest;
    }
  }

  /** In every run from the beginning. */
  lemma TimedFromStart(c: Config, s0: State, run: seq<Action>)
    requires Init(s0) && IsRun(c, s0, run)
    ensures Timed(c, Trail(c, s0, run), run, After(c, s0, run))
  {
    TimedRun(c, [], [], s0, run);
    assert [] + Trail(c, s0, run) == Trail(c, s0, run) && [] + run == run;
  }

  /** A call comes to wait only on a live lock: it tested the lock of the entry it read at an instant at
      which that entry was locked and the lock younger than lockTTL. */
  lemma WaitsOnLiveLock(c: Config, s0: State, run: seq<Action>, n: Node)
    requires Init(s0) && IsRun(c, s0, run) && PhaseOf(After(c, s0, run), n).TestingDeadline?
    ensures exists t: Time :: Happened(Trail(c, s0, run), run, TestLock(n), t) && LiveAt(c, PhaseOf(After(c, s0, run), n).seen, t)
  {
    TimedFromStart(c, s0, run);
    assert PhaseTimed(c, Trail(c, s0, run), run, n, PhaseOf(After(c, s0, run), n));
  }

  /** A claim taken over a lock that was still live belongs to a call begun at least lockTTL + wait before. */
  lemma TakeoverIsLate(c: Config, s0: State, run: seq<Action>, i: nat)
    requires Init(s0) && IsRun(c, s0, run)
    requires var ws := After(c, s0, run).writes;
             && 0 < i < |ws| && ws[i].kind.Claim? && ws[i - 1].kind.Claim?
             && ws[i].entry.lockedAt < ws[i - 1].entry.lockedAt + c.lockTTL
    ensures var ws := After(c, s0, run).writes;
            exists t: Time :: Happened(Trail(c, s0, run), run, StartCall(ws[i].node), t) && t + c.lockTTL + c.wait <= ws[i].entry.lockedAt
  {
    var s := After(c, s0, run);
    TimedFromStart(c, s0, run);
    TakeoverCondition(c, s, i);
    assert WriteTimed(c, Trail(c, s0, run), run, s.writes[i]);
  }

  /** Locks and stamps are clock readings of the node that wrote them. */
  lemma StampsAreReadings(c: Config, s0: State, run: seq<Action>, i: nat)
    requires Init(s0) && IsRun(c, s0, run) && i < |After(c, s0, run).writes|
    ensures var w := After(c, s0, run).writes[i];
            && (w.kind.Claim? ==> Happened(Trail(c, s0, run), run, StampClaim(w.node), w.entry.lockedAt))
            && (w.kind.Publish? ==> Happened(Trail(c, s0, run), run, StampResult(w.node), w.entry.fetchedAt))
  {
    TimedFromStart(c, s0, run);
    assert WriteTimed(c, Trail(c, s0, run), run, After(c, s0, run).writes[i]);
  }
}
