/**
  When the shared cache really is single-flight.

  A call that reaches its own deadline may claim over a lock that is still live, so mutual
  exclusion of refreshes does not hold in every run (LiveLockTakeover). It holds exactly in
  the runs in which no claim lands on the version a refreshing node still holds.
 */
module CacheSingleFlight {
  import opened Basics
  import opened CacheEntry
  import opened CacheProtocol
  import opened CacheSafety
  import opened CacheTheorems

  ghost predicate SingleFlight(s: State) {
    forall n, m :: n in s.nodes && m in s.nodes && Refreshing(s.nodes[n]) && Refreshing(s.nodes[m]) ==> n == m
  }

  /** Node m is refreshing and nothing was written since its claim. */
  predicate HoldsCurrent(s: State, m: Node) {
    m in s.nodes && Refreshing(s.nodes[m]) && ClaimOf(s.nodes[m]) == |s.writes|
  }

  /** The action is a claim that reaches the store. */
  predicate LandsClaim(s: State, a: Action) {
    a.WriteClaim? && Enabled(s, a) && PhaseOf(s, a.n).seen.version == |s.writes| && a.io != Failed(false)
  }

  /** The action claims the very version another node is still refreshing under. */
  ghost predicate Overtakes(s: State, a: Action) {
    LandsClaim(s, a) && exists m :: HoldsCurrent(s, m)
  }

  ghost predicate AlwaysSingleFlight(c: Config, s: State, run: seq<Action>)
    requires IsRun(c, s, run)
    decreases |run|
  {
    SingleFlight(s) && (run == [] || AlwaysSingleFlight(c, Next(c, s, run[0]), run[1..]))
  }

  ghost predicate NeverOvertakes(c: Config, s: State, run: seq<Action>)
    requires IsRun(c, s, run)
    decreases |run|
  {
    run == [] || (!Overtakes(s, run[0]) && NeverOvertakes(c, Next(c, s, run[0]), run[1..]))
  }

  /** No claim write is applied behind an error answer. */
  predicate ClaimAcksKept(run: seq<Action>) {
    forall i :: 0 <= i < |run| && run[i].WriteClaim? ==> run[i].io != Failed(true)
  }

  // ----- the strengthened invariant -----

  /** Every refreshing node still holds the current version. */
  ghost predicate AllCurrent(s: State) {
    forall n :: n in s.nodes && Refreshing(s.nodes[n]) ==> ClaimOf(s.nodes[n]) == |s.writes|
  }

  lemma CurrentIsSingle(c: Config, s: State)
    requires Inv(c, s) && AllCurrent(s)
    ensures SingleFlight(s)
  {
    forall n, m | n in s.nodes && m in s.nodes && Refreshing(s.nodes[n]) && Refreshing(s.nodes[m])
      ensures n == m
    {
      assert PhaseOk(c, s, n, s.nodes[n]) && PhaseOk(c, s, m, s.nodes[m]);
    }
  }

  lemma CurrentStep(c: Config, s: State, a: Action)
    requires Inv(c, s) && AllCurrent(s) && Enabled(s, a) && !Overtakes(s, a)
    ensures AllCurrent(Next(c, s, a))
  {
    CurrentIsSingle(c, s);
    if !a.Tick? { assert a.n in s.nodes ==> PhaseOk(c, s, a.n, s.nodes[a.n]); }
    if LandsClaim(s, a) {
      forall m | m in s.nodes && Refreshing(s.nodes[m]) ensures false {
        assert HoldsCurrent(s, m);
      }
    }
  }

  lemma {:induction false} CurrentRun(c: Config, s: State, run: seq<Action>)
    requires Inv(c, s) && AllCurrent(s) && IsRun(c, s, run) && NeverOvertakes(c, s, run)
    ensures AlwaysSingleFlight(c, s, run) && AllCurrent(After(c, s, run))
    decreases |run|
  {
    CurrentIsSingle(c, s);
    if run != [] {
      InvStep(c, s, run[0]);
      CurrentStep(c, s, run[0]);
      CurrentRun(c, Next(c, s, run[0]), run[1..]);
    }
  }

  /** An acknowledged overtake leaves two nodes refreshing at once. */
  lemma OvertakeBreaks(c: Config, s: State, a: Action)
    requires Overtakes(s, a) && a.io.Acked?
    ensures !SingleFlight(Next(c, s, a))
  {
    var m :| HoldsCurrent(s, m);
    var s' := Next(c, s, a);
    assert Refreshing(s'.nodes[m]) && Refreshing(s'.nodes[a.n]) && m != a.n;
  }

  lemma {:induction false} SingleRun(c: Config, s: State, run: seq<Action>)
    requires Inv(c, s) && AllCurrent(s) && IsRun(c, s, run)
    requires ClaimAcksKept(run) && AlwaysSingleFlight(c, s, run)
    ensures NeverOvertakes(c, s, run)
    decreases |run|
  {
    if run != [] {
      var s' := Next(c, s, run[0]);
      assert SingleFlight(s') by { assert AlwaysSingleFlight(c, s', run[1..]); }
      if Overtakes(s, run[0]) { OvertakeBreaks(c, s, run[0]); }
      InvStep(c, s, run[0]);
      CurrentStep(c, s, run[0]);
      SingleRun(c, s', run[1..]);
    }
  }

  // ----- the exact condition -----

  /** At most one node refreshes at every point of a run if no claim of the run overtakes a
      refreshing node; and only if, when claim acknowledgements are not lost. */
  lemma SingleFlightExactly(c: Config, s: State, run: seq<Action>)
    requires Init(s) && IsRun(c, s, run)
    ensures NeverOvertakes(c, s, run) ==> AlwaysSingleFlight(c, s, run)
    ensures ClaimAcksKept(run) ==> (AlwaysSingleFlight(c, s, run) <==> NeverOvertakes(c, s, run))
  {
    if NeverOvertakes(c, s, run) { CurrentRun(c, s, run); }
    if ClaimAcksKept(run) && AlwaysSingleFlight(c, s, run) { SingleRun(c, s, run); }
  }

  // ----- prompt refreshes and patient callers -----

  /** Every refresh under way is younger than lockTTL. */
  ghost predicate Prompt(c: Config, s: State) {
    forall n :: n in s.nodes && Refreshing(s.nodes[n]) && 1 <= ClaimOf(s.nodes[n]) <= |s.writes| ==>
      s.clock < s.writes[ClaimOf(s.nodes[n]) - 1].entry.lockedAt + c.lockTTL
  }

  /** A call that meets a live lock meets it before its deadline. */
  predicate Patient(s: State, a: Action) {
    a.TestDeadline? && Enabled(s, a) ==> s.clock < PhaseOf(s, a.n).deadline
  }

  ghost predicate PromptRun(c: Config, s: State, run: seq<Action>)
    requires IsRun(c, s, run)
    decreases |run|
  {
    Prompt(c, s) && (run == [] || (Patient(s, run[0]) && PromptRun(c, Next(c, s, run[0]), run[1..])))
  }

  /** Whoever is about to claim saw no live lock. */
  ghost predicate ClaimersSawNoLock(c: Config, s: State) {
    forall n :: n in s.nodes ==>
      && (s.nodes[n].Deciding? ==> UnlockedBy(c, s.nodes[n].seen.entry, s.clock))
      && (s.nodes[n].Claiming? ==> UnlockedBy(c, s.nodes[n].seen.entry, s.nodes[n].entry.lockedAt))
  }

  lemma NoLockStep(c: Config, s: State, a: Action)
    requires Enabled(s, a) && Patient(s, a) && ClaimersSawNoLock(c, s)
    ensures ClaimersSawNoLock(c, Next(c, s, a))
  {
  }

  /** Overtaking a claim takes a lock that has reached lockTTL. */
  lemma OvertakenIsSlow(c: Config, s: State, a: Action, m: Node)
    requires Inv(c, s) && ClaimersSawNoLock(c, s) && LandsClaim(s, a) && HoldsCurrent(s, m)
    ensures s.writes != [] && s.writes[|s.writes| - 1].entry.lockedAt + c.lockTTL <= s.clock
  {
    assert PhaseOk(c, s, m, s.nodes[m]) && PhaseOk(c, s, a.n, s.nodes[a.n]);
    assert WriteOk(c, s.writes, |s.writes| - 1);
  }

  lemma PromptNotOvertaken(c: Config, s: State, a: Action)
    requires Inv(c, s) && Prompt(c, s) && ClaimersSawNoLock(c, s)
    ensures !Overtakes(s, a)
  {
    forall m | HoldsCurrent(s, m) && LandsClaim(s, a)
      ensures s.writes != [] && s.writes[|s.writes| - 1].entry.lockedAt + c.lockTTL <= s.clock
    {
      OvertakenIsSlow(c, s, a, m);
    }
  }

  lemma {:induction false} PromptRunNeverOvertakes(c: Config, s: State, run: seq<Action>)
    requires Inv(c, s) && ClaimersSawNoLock(c, s) && IsRun(c, s, run) && PromptRun(c, s, run)
    ensures NeverOvertakes(c, s, run)
    decreases |run|
  {
    if run != [] {
      PromptNotOvertaken(c, s, run[0]);
      InvStep(c, s, run[0]);
      NoLockStep(c, s, run[0]);
      PromptRunNeverOvertakes(c, Next(c, s, run[0]), run[1..]);
    }
  }

  /** If every refresh finishes (or crashes) within lockTTL of its claim and no call meets a live
      lock past its own deadline, at most one node is ever refreshing. Crashes, cache errors,
      lost acknowledgements and upstream failures are all allowed. */
  lemma PromptSingleFlight(c: Config, s: State, run: seq<Action>)
    requires Init(s) && IsRun(c, s, run) && PromptRun(c, s, run)
    ensures AlwaysSingleFlight(c, s, run)
  {
    PromptRunNeverOvertakes(c, s, run);
    CurrentRun(c, s, run);
  }

  // ----- spacing of upstream calls -----

  /** No crash, cache error or upstream failure. */
  predicate Faultless(a: Action) {
    match a
    case Read(_, ok) => ok
    case WriteClaim(_, io) => io.Acked?
    case WriteResult(_, io) => io.Acked?
    case Reply(_, reply) => reply.Ok?
    case ReplyDirect(_, reply) => reply.Ok?
    case Crash(_) => false
    case _ => true
  }

  /** The upstream call belongs to the refresh node n is still carrying out. */
  predicate UnderWay(s: State, call: Start) {
    && call.node in s.nodes
    && var p := s.nodes[call.node];
       && (p.Calling? || p.Stamping? || p.Publishing?)
       && p.claim == call.claim
       && (p.Publishing? ==> call.at <= p.at)
  }

  /** A started call is under way, or its result was published right after its claim. */
  predicate Accounted(s: State, call: Start) {
    && 1 <= call.claim <= |s.writes|
    && call.at <= s.clock
    && s.writes[call.claim - 1].node == call.node
    && if call.claim == |s.writes| then UnderWay(s, call)
       else s.writes[call.claim].kind.Publish? && call.at <= s.writes[call.claim].entry.fetchedAt
  }

  ghost predicate CallsAccounted(s: State) {
    && (forall k :: 0 <= k < |s.starts| ==> Accounted(s, s.starts[k]))
    && (forall n :: n in s.nodes ==> !s.nodes[n].Direct? && !s.nodes[n].DirectCalling? && !s.nodes[n].Releasing?)
  }

  ghost predicate CallsSpaced(c: Config, s: State) {
    forall j, k :: 0 <= j < k < |s.starts| ==> s.starts[j].at + c.ttl <= s.starts[k].at
  }

  lemma AccountedStep(c: Config, s: State, a: Action, call: Start)
    requires Inv(c, s) && AllCurrent(s) && Accounted(s, call)
    requires Enabled(s, a) && Faultless(a) && !Overtakes(s, a)
    requires a.WriteResult? ==> !PhaseOf(s, a.n).Releasing?
    ensures Accounted(Next(c, s, a), call)
  {
    if !a.Tick? { assert a.n in s.nodes ==> PhaseOk(c, s, a.n, s.nodes[a.n]); }
    if LandsClaim(s, a) && call.claim == |s.writes| {
      assert HoldsCurrent(s, call.node);
    }
  }

  /** A call started now comes at least ttl after every call started before. */
  lemma NewCallSpaced(c: Config, s: State, n: Node, call: Start)
    requires Inv(c, s) && AllCurrent(s) && Enabled(s, CallUpstream(n)) && Accounted(s, call)
    ensures call.at + c.ttl <= s.clock
  {
    assert PhaseOk(c, s, n, s.nodes[n]);
    var v := |s.writes|;
    assert s.nodes[n].claim == v && call.claim < v;
    assert WriteOk(c, s.writes, v - 1) && WriteOk(c, s.writes, call.claim);
    HistoryMonotone(c, s.writes, call.claim + 1, v - 1);
  }

  lemma SpacedStep(c: Config, s: State, a: Action)
    requires Inv(c, s) && AllCurrent(s) && CallsAccounted(s) && CallsSpaced(c, s)
    requires Enabled(s, a) && Faultless(a) && !Overtakes(s, a)
    ensures CallsAccounted(Next(c, s, a)) && CallsSpaced(c, Next(c, s, a))
  {
    var s' := Next(c, s, a);
    forall k | 0 <= k < |s.starts| ensures Accounted(s', s.starts[k]) {
      AccountedStep(c, s, a, s.starts[k]);
    }
    if a.CallUpstream? {
      assert PhaseOk(c, s, a.n, s.nodes[a.n]);
      forall k | 0 <= k < |s.starts| ensures s.starts[k].at + c.ttl <= s.clock {
        NewCallSpaced(c, s, a.n, s.starts[k]);
      }
      assert Accounted(s', Start(a.n, s.nodes[a.n].claim, s.clock));
    } else {
      assert s'.starts == s.starts;
    }
  }

  lemma {:induction false} SpacedRun(c: Config, s: State, run: seq<Action>)
    requires Inv(c, s) && AllCurrent(s) && CallsAccounted(s) && CallsSpaced(c, s)
    requires IsRun(c, s, run) && NeverOvertakes(c, s, run)
    requires forall i :: 0 <= i < |run| ==> Faultless(run[i])
    ensures CallsSpaced(c, After(c, s, run))
    decreases |run|
  {
    if run != [] {
      InvStep(c, s, run[0]);
      CurrentStep(c, s, run[0]);
      SpacedStep(c, s, run[0]);
      SpacedRun(c, Next(c, s, run[0]), run[1..]);
    }
  }

  /** Without crashes, cache errors and upstream failures, prompt refreshes and patient callers
      start any two upstream calls, of whichever nodes, at least ttl apart. */
  lemma UpstreamCallsSpaced(c: Config, s: State, run: seq<Action>)
    requires Init(s) && IsRun(c, s, run) && PromptRun(c, s, run)
    requires forall i :: 0 <= i < |run| ==> Faultless(run[i])
    ensures CallsSpaced(c, After(c, s, run))
  {
    PromptRunNeverOvertakes(c, s, run);
    SpacedRun(c, s, run);
  }

  // ----- a run that is not single-flight -----

  /** The configuration for a ttl of ten seconds, under which a lock lives 30 seconds. */
  const TAKEOVER := Defaults(10 * SECOND)
  const BEGIN: Time := 1
  const CLAIM_TIME: Time := 20 * SECOND
  const DEADLINE_1: Time := BEGIN + TAKEOVER.lockTTL + TAKEOVER.wait
  const DEADLINE_2: Time := CLAIM_TIME + TAKEOVER.lockTTL + TAKEOVER.wait
  const NODE_2_CLAIM := Write(2, Entry(None, 0, CLAIM_TIME, Some(2)), Claim(0, DEADLINE_2))
  const NODE_1_CLAIM := Write(1, Entry(None, 0, DEADLINE_1, Some(1)), Claim(1, DEADLINE_1))

  lemma TakeoverTimes()
    ensures TAKEOVER.lockTTL == 30 * SECOND && DEADLINE_1 == 30 * SECOND + 250_000_001
    ensures BEGIN < CLAIM_TIME < DEADLINE_1 < CLAIM_TIME + TAKEOVER.lockTTL < DEADLINE_2
  {
  }

  /** A state in which exactly nodes 1 and 2 have made calls. */
  function Duo(clock: Time, writes: seq<Write>, starts: seq<Start>, p1: Phase, p2: Phase): State {
    State(clock, writes, starts, [], map[1 := p1, 2 := p2])
  }

  lemma DuoPut(clock: Time, writes: seq<Write>, starts: seq<Start>, p1: Phase, p2: Phase, q: Phase)
    ensures Put(Duo(clock, writes, starts, p1, p2), 1, q) == Duo(clock, writes, starts, q, p2)
    ensures Put(Duo(clock, writes, starts, p1, p2), 2, q) == Duo(clock, writes, starts, p1, q)
  {
    assert map[1 := p1, 2 := p2][1 := q] == map[1 := q, 2 := p2];
    assert map[1 := p1, 2 := p2][2 := q] == map[1 := p1, 2 := q];
  }

  /** One more action in front of a run. */
  lemma RunCons(c: Config, s: State, a: Action, s': State, run: seq<Action>)
    requires Enabled(s, a) && Next(c, s, a) == s' && IsRun(c, s', run)
    ensures IsRun(c, s, [a] + run) && After(c, s, [a] + run) == After(c, s', run)
  {
    assert ([a] + run)[1..] == run;
  }

  /** Node 2 starts at CLAIM_TIME and claims the absent entry. */
  lemma NodeTwoClaims(suffix: seq<Action>) returns (run: seq<Action>)
    requires IsRun(TAKEOVER, Duo(CLAIM_TIME, [NODE_2_CLAIM], [], Reading(DEADLINE_1), Claimed(Seen(None, 0), 1)), suffix)
    ensures IsRun(TAKEOVER, Duo(CLAIM_TIME, [], [], Reading(DEADLINE_1), Reading(DEADLINE_2)), run)
    ensures After(TAKEOVER, Duo(CLAIM_TIME, [], [], Reading(DEADLINE_1), Reading(DEADLINE_2)), run) ==
            After(TAKEOVER, Duo(CLAIM_TIME, [NODE_2_CLAIM], [], Reading(DEADLINE_1), Claimed(Seen(None, 0), 1)), suffix)
    ensures run == [Read(2, true), TestFresh(2), TestLock(2), StampClaim(2), WriteClaim(2, Acked)] + suffix
  {
    TakeoverTimes();
    var c, none, r1 := TAKEOVER, Seen(None, 0), Reading(DEADLINE_1);
    var s1 := Duo(CLAIM_TIME, [], [], r1, Reading(DEADLINE_2));
    var s2 := Duo(CLAIM_TIME, [], [], r1, TestingFresh(DEADLINE_2, none));
    var s3 := Duo(CLAIM_TIME, [], [], r1, TestingLock(DEADLINE_2, none));
    var s4 := Duo(CLAIM_TIME, [], [], r1, Deciding(DEADLINE_2, none));
    var s5 := Duo(CLAIM_TIME, [], [], r1, Claiming(DEADLINE_2, none, NODE_2_CLAIM.entry));
    var s6 := Duo(CLAIM_TIME, [NODE_2_CLAIM], [], r1, Claimed(none, 1));
    DuoPut(CLAIM_TIME, [], [], r1, s1.nodes[2], s2.nodes[2]);
    DuoPut(CLAIM_TIME, [], [], r1, s2.nodes[2], s3.nodes[2]);
    DuoPut(CLAIM_TIME, [], [], r1, s3.nodes[2], s4.nodes[2]);
    DuoPut(CLAIM_TIME, [], [], r1, s4.nodes[2], s5.nodes[2]);
    DuoPut(CLAIM_TIME, [NODE_2_CLAIM], [], r1, s5.nodes[2], s6.nodes[2]);
    run := [WriteClaim(2, Acked)] + suffix;
    RunCons(c, s5, WriteClaim(2, Acked), s6, suffix);
    RunCons(c, s4, StampClaim(2), s5, run);
    run := [StampClaim(2)] + run;
    RunCons(c, s3, TestLock(2), s4, run);
    run := [TestLock(2)] + run;
    RunCons(c, s2, TestFresh(2), s3, run);
    run := [TestFresh(2)] + run;
    RunCons(c, s1, Read(2, true), s2, run);
    run := [Read(2, true)] + run;
  }

  /** At its deadline node 1 finds node 2's live lock, may not wait any longer, and claims. */
  lemma NodeOneOvertakes() returns (run: seq<Action>)
    ensures var s := Duo(DEADLINE_1, [NODE_2_CLAIM], [Start(2, 1, CLAIM_TIME)], Reading(DEADLINE_1), Calling(Seen(None, 0), 1));
            && IsRun(TAKEOVER, s, run)
            && After(TAKEOVER, s, run) ==
               Duo(DEADLINE_1, [NODE_2_CLAIM, NODE_1_CLAIM], [Start(2, 1, CLAIM_TIME)],
                   Claimed(Seen(Some(NODE_2_CLAIM.entry), 1), 2), Calling(Seen(None, 0), 1))
    ensures forall i :: 0 <= i < |run| ==> Faultless(run[i])
  {
    TakeoverTimes();
    var c, seen, p2 := TAKEOVER, Seen(Some(NODE_2_CLAIM.entry), 1), Calling(Seen(None, 0), 1);
    var w, starts := [NODE_2_CLAIM], [Start(2, 1, CLAIM_TIME)];
    var s1 := Duo(DEADLINE_1, w, starts, Reading(DEADLINE_1), p2);
    var s2 := Duo(DEADLINE_1, w, starts, TestingFresh(DEADLINE_1, seen), p2);
    var s3 := Duo(DEADLINE_1, w, starts, TestingLock(DEADLINE_1, seen), p2);
    var s4 := Duo(DEADLINE_1, w, starts, TestingDeadline(DEADLINE_1, seen), p2);
    var s5 := Duo(DEADLINE_1, w, starts, Deciding(DEADLINE_1, seen), p2);
    var s6 := Duo(DEADLINE_1, w, starts, Claiming(DEADLINE_1, seen, NODE_1_CLAIM.entry), p2);
    var s7 := Duo(DEADLINE_1, [NODE_2_CLAIM, NODE_1_CLAIM], starts, Claimed(seen, 2), p2);
    DuoPut(DEADLINE_1, w, starts, s1.nodes[1], p2, s2.nodes[1]);
    DuoPut(DEADLINE_1, w, starts, s2.nodes[1], p2, s3.nodes[1]);
    DuoPut(DEADLINE_1, w, starts, s3.nodes[1], p2, s4.nodes[1]);
    DuoPut(DEADLINE_1, w, starts, s4.nodes[1], p2, s5.nodes[1]);
    DuoPut(DEADLINE_1, w, starts, s5.nodes[1], p2, s6.nodes[1]);
    DuoPut(DEADLINE_1, [NODE_2_CLAIM, NODE_1_CLAIM], starts, s6.nodes[1], p2, s7.nodes[1]);
    RunCons(c, s6, WriteClaim(1, Acked), s7, []);
    run := [WriteClaim(1, Acked)];
    RunCons(c, s5, StampClaim(1), s6, run);
    run := [StampClaim(1)] + run;
    RunCons(c, s4, TestDeadline(1), s5, run);
    run := [TestDeadline(1)] + run;
    RunCons(c, s3, TestLock(1), s4, run);
    run := [TestLock(1)] + run;
    RunCons(c, s2, TestFresh(1), s3, run);
    run := [TestFresh(1)] + run;
    RunCons(c, s1, Read(1, true), s2, run);
    run := [Read(1, true)] + run;
  }

  /** Node 1 starts a call and stalls; node 2 claims after 20 seconds; at its deadline, after 30.25
      seconds, node 1 claims over node 2's lock, live until second 50. No fault occurs in the run. */
  lemma LiveLockTakeover() returns (c: Config, s: State, run: seq<Action>)
    ensures c == Defaults(c.ttl) && Init(s) && IsRun(c, s, run)
    ensures forall i :: 0 <= i < |run| ==> Faultless(run[i])
    ensures var s' := After(c, s, run);
            && !SingleFlight(s')
            && |s'.writes| == 2 && IsLocked(c, s'.writes[0].entry, s'.clock)
  {
    TakeoverTimes();
    c := TAKEOVER;
    run := NodeOneOvertakes();
    var calling := Calling(Seen(None, 0), 1);
    var s7 := Duo(DEADLINE_1, [NODE_2_CLAIM], [Start(2, 1, CLAIM_TIME)], Reading(DEADLINE_1), calling);
    var s6 := Duo(CLAIM_TIME, [NODE_2_CLAIM], [Start(2, 1, CLAIM_TIME)], Reading(DEADLINE_1), calling);
    var s5 := Duo(CLAIM_TIME, [NODE_2_CLAIM], [], Reading(DEADLINE_1), Claimed(Seen(None, 0), 1));
    RunCons(c, s6, Tick(DEADLINE_1 - CLAIM_TIME), s7, run);
    run := [Tick(DEADLINE_1 - CLAIM_TIME)] + run;
    DuoPut(CLAIM_TIME, [NODE_2_CLAIM], [Start(2, 1, CLAIM_TIME)], Reading(DEADLINE_1), s5.nodes[2], calling);
    RunCons(c, s5, CallUpstream(2), s6, run);
    run := [CallUpstream(2)] + run;
    run := NodeTwoClaims(run);
    var s4 := Duo(CLAIM_TIME, [], [], Reading(DEADLINE_1), Reading(DEADLINE_2));
    var s3 := State(CLAIM_TIME, [], [], [], map[1 := Reading(DEADLINE_1)]);
    var s2 := State(BEGIN, [], [], [], map[1 := Reading(DEADLINE_1)]);
    s := State(BEGIN, [], [], [], map[]);
    assert s3.nodes[2 := Reading(DEADLINE_2)] == s4.nodes;
    RunCons(c, s3, StartCall(2), s4, run);
    run := [StartCall(2)] + run;
    RunCons(c, s2, Tick(CLAIM_TIME - BEGIN), s3, run);
    run := [Tick(CLAIM_TIME - BEGIN)] + run;
    RunCons(c, s, StartCall(1), s2, run);
    run := [StartCall(1)] + run;
    var s' := After(c, s, run);
    assert Refreshing(s'.nodes[1]) && Refreshing(s'.nodes[2]);
  }
}
