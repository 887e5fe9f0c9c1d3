/**
  `Cached.Current` in its own form: the loop that reads, waits, claims and refreshes,
  written against the versioned store, and proved to be one node's part of the protocol.

  Everything the loop does not control is a script: before each of its operations the
  rest of the system takes some actions, and the script also decides how the loop's own
  cache, upstream and timer operations end. Past the end of the script the call is alone.
 */
module CachedRegistry {
  import opened Basics
  import opened CacheEntry
  import opened CacheProtocol
  import opened CacheSafety
  import opened CacheTheorems
  import opened CacheAvailability
  import opened CacheFreshness

  /** What happens around one operation of the call. */
  datatype Turn = Turn(
    peers: seq<Action>, readOk: bool, io: IO, reply: Result<CurrentResponse>, cancelled: bool)

  /** A turn in which nobody else moves and nothing fails, upstream answering as given. */
  function Alone(reply: Result<CurrentResponse>): Turn {
    Turn([], true, Acked, reply, false)
  }

  /** An action that is not the given node's own. */
  predicate Foreign(a: Action, self: Node) {
    a.Tick? || a.n != self
  }

  /** a / b rounded up. */
  function CeilDiv(a: nat, b: nat): nat
    requires b > 0
    decreases a
  {
    if a == 0 then 0 else if a <= b then 1 else 1 + CeilDiv(a - b, b)
  }

  lemma {:induction false} CeilDivBounds(a: nat, b: nat)
    requires b > 0
    ensures a <= CeilDiv(a, b) * b < a + b
    decreases a
  {
    if a > b {
      CeilDivBounds(a - b, b);
      assert CeilDiv(a, b) * b == CeilDiv(a - b, b) * b + b;
    }
  }

  /** The least time w waits take. */
  function Waited(w: nat, wait: nat): nat {
    if w == 0 then 0 else Waited(w - 1, wait) + wait
  }

  /** One more wait fits while the waits so far have not used up the budget. */
  lemma {:induction false} WaitFits(w: nat, wait: nat, budget: nat)
    requires wait > 0 && Waited(w, wait) < budget
    ensures w + 1 <= CeilDiv(budget, wait)
    decreases w
  {
    if w > 0 { WaitFits(w - 1, wait, budget - wait); }
  }

  // ----- what a run has made of one node's calls -----

  /** Node n decides to wait for another node's lock. */
  predicate BeginsWait(s: State, a: Action, n: Node) {
    a == TestDeadline(n) && PhaseOf(s, n).TestingDeadline? && s.clock < PhaseOf(s, n).deadline
  }

  /** Node n's claim is answered with a conflict. */
  predicate LosesClaim(s: State, a: Action, n: Node) {
    a == WriteClaim(n, Acked) && PhaseOf(s, n).Claiming? && PhaseOf(s, n).seen.version != |s.writes|
  }

  /** Waits begun on another node's lock, claims lost to another write, reads that failed, and calls
      begun or crashed. */
  datatype Tally = Tally(waits: nat, lost: nat, misreads: nat, restarts: nat)

  const NONE := Tally(0, 0, 0, 0)
  const WAIT := Tally(1, 0, 0, 0)
  const LOST := Tally(0, 1, 0, 0)
  const MISREAD := Tally(0, 0, 1, 0)
  const RESTART := Tally(0, 0, 0, 1)

  function Plus(x: Tally, y: Tally): Tally {
    Tally(x.waits + y.waits, x.lost + y.lost, x.misreads + y.misreads, x.restarts + y.restarts)
  }

  function StepTally(s: State, a: Action, n: Node): Tally {
    if BeginsWait(s, a, n) then WAIT
    else if LosesClaim(s, a, n) then LOST
    else if a == Read(n, false) then MISREAD
    else if !WithinCall(a, n) then RESTART
    else NONE
  }

  function TallyOf(states: seq<State>, run: seq<Action>, n: Node): Tally
    requires |states| == |run|
  {
    if run == [] then NONE
    else
      var k := |run| - 1;
      Plus(TallyOf(states[..k], run[..k], n), StepTally(states[k], run[k], n))
  }

  lemma PlusAssociates(x: Tally, y: Tally, z: Tally)
    ensures Plus(x, Plus(y, z)) == Plus(Plus(x, y), z) && Plus(x, NONE) == x
  {
  }

  lemma TallyLast(states: seq<State>, run: seq<Action>, n: Node, k: nat, before: Tally)
    requires |states| == |run| == k + 1 && before == TallyOf(states[..k], run[..k], n)
    ensures TallyOf(states, run, n) == Plus(before, StepTally(states[k], run[k], n))
  {
  }

  function Sum(ts: seq<Tally>): Tally {
    if ts == [] then NONE else Plus(Sum(ts[..|ts| - 1]), ts[|ts| - 1])
  }

  lemma {:induction false} SumConcat(x: seq<Tally>, y: seq<Tally>)
    ensures Sum(x + y) == Plus(Sum(x), Sum(y))
    decreases |y|
  {
    if y == [] {
      assert x + y == x;
      PlusAssociates(Sum(x), NONE, NONE);
    } else {
      var k := |y| - 1;
      assert (x + y)[..|x| + k] == x + y[..k];
      SumConcat(x, y[..k]);
      PlusAssociates(Sum(x), Sum(y[..k]), y[k]);
    }
  }

  function StepTallies(states: seq<State>, run: seq<Action>, n: Node): (ts: seq<Tally>)
    requires |states| == |run|
    ensures |ts| == |run|
  {
    seq(|run|, i requires 0 <= i < |run| => StepTally(states[i], run[i], n))
  }

  lemma {:induction false} TallyIsSum(states: seq<State>, run: seq<Action>, n: Node)
    requires |states| == |run|
    ensures TallyOf(states, run, n) == Sum(StepTallies(states, run, n))
  {
    if run != [] {
      var k := |run| - 1;
      TallyIsSum(states[..k], run[..k], n);
      assert StepTallies(states, run, n)[..k] == StepTallies(states[..k], run[..k], n);
    }
  }

  lemma StepTalliesConcat(s1: seq<State>, r1: seq<Action>, s2: seq<State>, r2: seq<Action>, n: Node)
    requires |s1| == |r1| && |s2| == |r2|
    ensures StepTallies(s1 + s2, r1 + r2, n) == StepTallies(s1, r1, n) + StepTallies(s2, r2, n)
  {
  }

  lemma TallyConcat(s1: seq<State>, r1: seq<Action>, s2: seq<State>, r2: seq<Action>, n: Node)
    requires |s1| == |r1| && |s2| == |r2|
    ensures TallyOf(s1 + s2, r1 + r2, n) == Plus(TallyOf(s1, r1, n), TallyOf(s2, r2, n))
  {
    TallyIsSum(s1, r1, n);
    TallyIsSum(s2, r2, n);
    TallyIsSum(s1 + s2, r1 + r2, n);
    StepTalliesConcat(s1, r1, s2, r2, n);
    SumConcat(StepTallies(s1, r1, n), StepTallies(s2, r2, n));
  }

  lemma {:induction false} MisreadsExactly(states: seq<State>, run: seq<Action>, n: Node)
    requires |states| == |run|
    ensures TallyOf(states, run, n).misreads > 0 <==> Read(n, false) in run
  {
    if run != [] {
      var k := |run| - 1;
      MisreadsExactly(states[..k], run[..k], n);
      assert run == run[..k] + [run[k]];
    }
  }

  lemma StepRestart(s: State, a: Action, n: Node, x: Tally)
    ensures Plus(x, StepTally(s, a, n)).restarts == 0 <==> x.restarts == 0 && WithinCall(a, n)
  {
  }

  ghost predicate AllWithinCall(run: seq<Action>, n: Node) {
    forall i :: 0 <= i < |run| ==> WithinCall(run[i], n)
  }

  lemma WithinSnoc(run: seq<Action>, n: Node)
    requires run != []
    ensures AllWithinCall(run, n) <==> AllWithinCall(run[..|run| - 1], n) && WithinCall(run[|run| - 1], n)
  {
    var k := |run| - 1;
    assert forall i :: 0 <= i < k ==> run[..k][i] == run[i];
  }

  lemma {:induction false} RestartsExactly(states: seq<State>, run: seq<Action>, n: Node)
    requires |states| == |run|
    ensures TallyOf(states, run, n).restarts == 0 <==> AllWithinCall(run, n)
  {
    if run != [] {
      var k := |run| - 1;
      RestartsExactly(states[..k], run[..k], n);
      TallyLast(states, run, n, k, TallyOf(states[..k], run[..k], n));
      StepRestart(states[k], run[k], n, TallyOf(states[..k], run[..k], n));
      WithinSnoc(run, n);
    }
  }

  /** What node n goes through in a run. */
  function RunTally(c: Config, s: State, run: seq<Action>, n: Node): Tally
    requires IsRun(c, s, run)
  {
    TallyOf(Trail(c, s, run), run, n)
  }

  lemma RunTallyConcat(c: Config, s: State, r1: seq<Action>, s': State, r2: seq<Action>, n: Node)
    requires IsRun(c, s, r1) && s' == After(c, s, r1) && IsRun(c, s', r2)
    ensures IsRun(c, s, r1 + r2) && RunTally(c, s, r1 + r2, n) == Plus(RunTally(c, s, r1, n), RunTally(c, s', r2, n))
  {
    TrailConcat(c, s, r1, r2);
    TallyConcat(Trail(c, s, r1), r1, Trail(c, s', r2), r2, n);
  }

  lemma OneTrail(c: Config, s: State, a: Action)
    requires Enabled(s, a)
    ensures IsRun(c, s, [a]) && Trail(c, s, [a]) == [s]
  {
    assert [a][1..] == [];
  }

  lemma SingleTally(states: seq<State>, run: seq<Action>, n: Node)
    requires |states| == |run| == 1
    ensures TallyOf(states, run, n) == StepTally(states[0], run[0], n)
  {
    assert TallyOf(states[..0], run[..0], n) == NONE;
  }

  lemma OneTally(c: Config, s: State, a: Action, n: Node)
    requires Enabled(s, a)
    ensures IsRun(c, s, [a]) && RunTally(c, s, [a], n) == StepTally(s, a, n)
  {
    OneTrail(c, s, a);
    SingleTally([s], [a], n);
  }

  lemma Uncounted(s: State, a: Action, n: Node, x: Tally)
    requires Foreign(a, n) || !(a.TestDeadline? || a.WriteClaim? || a.Read? || a.StartCall? || a.Crash?)
    ensures Plus(x, StepTally(s, a, n)) == x
  {
  }

  // ----- runs as paths -----

  /** A point of a run: the state, the tally so far, and how many actions so far were not solo. */
  datatype Mark = Mark(state: State, tally: Tally, bumps: nat)

  predicate Follows(c: Config, n: Node, x: Mark, a: Action, y: Mark) {
    && Enabled(x.state, a)
    && y == Mark(Next(c, x.state, a), Plus(x.tally, StepTally(x.state, a, n)), x.bumps + if Solo(a, n) then 0 else 1)
  }

  predicate StepAt(c: Config, n: Node, marks: seq<Mark>, run: seq<Action>, i: nat)
    requires |marks| == |run| + 1 && i < |run|
  {
    Follows(c, n, marks[i], run[i], marks[i + 1])
  }

  /** The points of a run, one before each action and one at the end. */
  ghost predicate Path(c: Config, n: Node, marks: seq<Mark>, run: seq<Action>) {
    |marks| == |run| + 1 && forall i :: 0 <= i < |run| ==> StepAt(c, n, marks, run, i)
  }

  lemma PathSnoc(c: Config, n: Node, marks: seq<Mark>, run: seq<Action>, a: Action, y: Mark)
    requires Path(c, n, marks, run) && Follows(c, n, marks[|run|], a, y)
    ensures Path(c, n, marks + [y], run + [a])
  {
    forall i | 0 <= i < |run + [a]| ensures StepAt(c, n, marks + [y], run + [a], i) {
      if i < |run| { assert StepAt(c, n, marks, run, i); }
    }
  }

  lemma PathStep(c: Config, n: Node, marks: seq<Mark>, run: seq<Action>, k: nat)
    requires Path(c, n, marks, run) && k < |run|
    ensures Follows(c, n, marks[k], run[k], marks[k + 1])
  {
    assert StepAt(c, n, marks, run, k);
  }

  lemma ConsTally(c: Config, s: State, a: Action, s': State, run: seq<Action>, n: Node)
    requires Enabled(s, a) && s' == Next(c, s, a) && IsRun(c, s', run)
    ensures IsRun(c, s, [a] + run) && After(c, s, [a] + run) == After(c, s', run)
    ensures RunTally(c, s, [a] + run, n) == Plus(StepTally(s, a, n), RunTally(c, s', run, n))
  {
    OneTally(c, s, a, n);
    assert [a][1..] == [] && After(c, s, [a]) == s';
    RunTallyConcat(c, s, [a], s', run, n);
    RunConcat(c, s, [a], run);
  }

  /** A path is a run, and its points carry the tally of it. */
  lemma {:induction false} PathIsRun(c: Config, n: Node, marks: seq<Mark>, run: seq<Action>, k: nat)
    requires Path(c, n, marks, run) && k <= |run|
    ensures IsRun(c, marks[k].state, run[k..]) && After(c, marks[k].state, run[k..]) == marks[|run|].state
    ensures marks[|run|].tally == Plus(marks[k].tally, RunTally(c, marks[k].state, run[k..], n))
    decreases |run| - k
  {
    if k == |run| {
      assert run[k..] == [];
      PlusAssociates(marks[k].tally, NONE, NONE);
    } else {
      PathIsRun(c, n, marks, run, k + 1);
      PathStep(c, n, marks, run, k);
      assert run[k..] == [run[k]] + run[k + 1..];
      ConsTally(c, marks[k].state, run[k], marks[k + 1].state, run[k + 1..], n);
      PlusAssociates(marks[k].tally, StepTally(marks[k].state, run[k], n), RunTally(c, marks[k + 1].state, run[k + 1..], n));
    }
  }

  lemma {:induction false} UnbumpedIsSolo(c: Config, n: Node, marks: seq<Mark>, run: seq<Action>, k: nat)
    requires Path(c, n, marks, run) && k <= |run|
    ensures marks[k].bumps <= marks[|run|].bumps
    ensures marks[k].bumps == marks[|run|].bumps ==> forall i :: k <= i < |run| ==> Solo(run[i], n)
    decreases |run| - k
  {
    if k < |run| {
      UnbumpedIsSolo(c, n, marks, run, k + 1);
      PathStep(c, n, marks, run, k);
    }
  }

  /** How many of the writes are other nodes'. */
  function ForeignWrites(writes: seq<Write>, n: Node): nat {
    if writes == [] then 0
    else ForeignWrites(writes[..|writes| - 1], n) + if writes[|writes| - 1].node != n then 1 else 0
  }

  lemma {:induction false} AllForeign(writes: seq<Write>, n: Node)
    requires forall i :: 0 <= i < |writes| ==> writes[i].node != n
    ensures ForeignWrites(writes, n) == |writes|
  {
    if writes != [] { AllForeign(writes[..|writes| - 1], n); }
  }

  lemma {:induction false} ForeignGrows(writes: seq<Write>, writes': seq<Write>, n: Node)
    requires writes <= writes'
    ensures ForeignWrites(writes, n) <= ForeignWrites(writes', n)
    decreases |writes'|
  {
    if writes != writes' { ForeignGrows(writes, writes'[..|writes'| - 1], n); }
  }

  lemma ForeignSince(w0: nat, before: seq<Write>, after: seq<Write>, n: Node)
    requires w0 <= |before| && before <= after && forall i :: w0 <= i < |before| ==> before[i].node != n
    ensures ForeignWrites(after[w0..], n) >= |before| - w0
  {
    AllForeign(before[w0..], n);
    ForeignGrows(before[w0..], after[w0..], n);
  }

  /** A later part of the history holds no more foreign writes than a larger one. */
  lemma {:induction false} ForeignLater(writes: seq<Write>, i: nat, j: nat, n: Node)
    requires i <= j <= |writes|
    ensures ForeignWrites(writes[j..], n) <= ForeignWrites(writes[i..], n)
    decreases |writes|
  {
    if j < |writes| {
      var k := |writes| - 1;
      ForeignLater(writes[..k], i, j, n);
      assert writes[i..][..k - i] == writes[..k][i..] && writes[j..][..k - j] == writes[..k][j..];
    }
  }

  /** The script lets every read succeed. */
  predicate ReadsSucceed(script: seq<Turn>) {
    forall i :: 0 <= i < |script| ==> script[i].readOk
  }

  ghost predicate AllWritesKept(run: seq<Action>, n: Node) {
    forall i :: 0 <= i < |run| ==> WritesKept(run[i], n)
  }

  ghost predicate AllSmooth(run: seq<Action>, n: Node) {
    forall i :: 0 <= i < |run| ==> Smooth(run[i], n)
  }

  ghost predicate AllSolo(run: seq<Action>, n: Node) {
    forall i :: 0 <= i < |run| ==> Solo(run[i], n)
  }

  /** What a call of n that began in state s and took place in `run` promises of its result:
      - it was stored, answered to n under a claim, or answered directly in the run;
      - there is none only if upstream failed or the call was cancelled in the run;
      - the call leaves no lock of its node in the entry unless a write of its own went wrong;
      - if a response was stored when the call began and no read of it failed, there is one, stored or
        answered under a claim;
      - if nothing of the call went wrong, it had not expired when the call began, or upstream answered
        it to this call;
      - if moreover nobody else moved, the entry is up to date with it, by the call's own publish
        unless it was so before. */
  ghost predicate CallOutcome(c: Config, n: Node, s: State, run: seq<Action>, s': State, res: Result<CurrentResponse>) {
    && AllWithinCall(run, n)
    && (res.Ok? ==> Sourced(s', n, res.value) || ReplyDirect(n, res) in run)
    && (res.Err? ==> Cancel(n) in run || Reply(n, Err) in run || ReplyDirect(n, Err) in run)
    && (!HoldsLock(s, n) && AllWritesKept(run, n) ==> !HoldsLock(s', n))
    && (HasResponse(Latest(s)) && Read(n, false) !in run ==> res.Ok? && Sourced(s', n, res.value))
    && (AllSmooth(run, n) ==>
          res.Ok? && (Recent(c, s', res.value, s.clock) || AnsweredSince(s', n, res.value, |s.answers|)))
    && (AllSolo(run, n) ==>
          && res.Ok? && (PublishedLast(s', n, res.value) || s'.writes == s.writes)
          && (c.ttl > 0 ==> UpToDate(c, s', res.value, s.clock)))
  }

  lemma CallEnds(c: Config, s: State, n: Node, s1: State, run: seq<Action>, s': State, res: Result<CurrentResponse>)
    requires Inv(c, s) && Enabled(s, StartCall(n)) && s1 == Next(c, s, StartCall(n)) && IsRun(c, s1, run)
    requires After(c, s1, run) == s' && PhaseOf(s', n) == Done(res)
    ensures res.Ok? ==> Sourced(s', n, res.value) || ReplyDirect(n, res) in run
    ensures res.Err? ==> Cancel(n) in run || Reply(n, Err) in run || ReplyDirect(n, Err) in run
  {
    InvStep(c, s, StartCall(n));
    assert [] + run == run;
    ResultOrigin(c, s1, [], run, n);
    ErrorOrigin(c, s1, [], run, n);
  }

  lemma CallUnlocks(c: Config, s: State, n: Node, s1: State, run: seq<Action>, s': State)
    requires Enabled(s, StartCall(n)) && s1 == Next(c, s, StartCall(n)) && IsRun(c, s1, run)
    requires After(c, s1, run) == s' && PhaseOf(s', n).Done? && !HoldsLock(s, n) && AllWritesKept(run, n)
    ensures !HoldsLock(s', n)
  {
    LeavesNoLock(c, s1, run, n);
  }

  lemma CallFacts(c: Config, s: State, n: Node, s1: State, run: seq<Action>, s': State, res: Result<CurrentResponse>)
    requires Reachable(c, s) && Enabled(s, StartCall(n)) && s1 == Next(c, s, StartCall(n)) && IsRun(c, s1, run)
    requires RunTally(c, s1, run, n).restarts == 0 && After(c, s1, run) == s' && PhaseOf(s', n) == Done(res)
    ensures CallOutcome(c, n, s, run, s', res)
    ensures RunTally(c, s1, run, n).misreads > 0 <==> Read(n, false) in run
  {
    var states := Trail(c, s1, run);
    MisreadsExactly(states, run, n);
    RestartsExactly(states, run, n);
    ReachableInv(c, s);
    CallEnds(c, s, n, s1, run, s', res);
    if !HoldsLock(s, n) && AllWritesKept(run, n) { CallUnlocks(c, s, n, s1, run, s'); }
    if HasResponse(Latest(s)) && Read(n, false) !in run { StaleButUsable(c, s, n, run); }
    if AllSmooth(run, n) { SmoothCallIsFresh(c, s, n, run); }
    if AllSolo(run, n) { AloneBringsUpToDate(c, s, n, run); }
  }

  lemma CallWaits(c: Config, s: State, n: Node, s1: State, run: seq<Action>)
    requires Reachable(c, s) && Enabled(s, StartCall(n)) && s1 == Next(c, s, StartCall(n)) && IsRun(c, s1, run)
    requires AllSolo(run, n) && UnlockedBy(c, Latest(s), s.clock)
    ensures RunTally(c, s1, run, n).waits == 0
  {
    ReachableInv(c, s);
    InvStep(c, s, StartCall(n));
    NoWaits(c, s1, run, n, s.clock, s.writes);
  }

  /** What is counted in a call's part of the run, from state s to s': at most so many waits on a lock,
      none if it was left alone without a live lock, and at most one lost claim for each write of another
      node. */
  ghost predicate CallCounts(c: Config, n: Node, s: State, run: seq<Action>, s': State, alone: bool) {
    && c.wait > 0 && IsRun(c, s, run) && After(c, s, run) == s' && |s.writes| <= |s'.writes|
    && RunTally(c, s, run, n).waits <= CeilDiv(c.lockTTL + c.wait, c.wait)
    && (alone ==> RunTally(c, s, run, n).waits == 0)
    && RunTally(c, s, run, n).lost <= ForeignWrites(s'.writes[|s.writes|..], n)
  }

  /** Left alone over an entry whose lock, if any, has run out, a call begins no wait. */
  lemma {:induction false} NoWaits(c: Config, s: State, run: seq<Action>, n: Node, t: Time, w: seq<Write>)
    requires Inv(c, s) && IsRun(c, s, run) && AllSolo(run, n) && t <= s.clock && SoloPhase(c, s, n, PhaseOf(s, n), t, w)
    requires UnlockedBy(c, EntryAt(w, |w|), t) && !PhaseOf(s, n).TestingDeadline? && !PhaseOf(s, n).Sleeping?
    ensures RunTally(c, s, run, n).waits == 0
    decreases |run|
  {
    if run == [] {
      assert RunTally(c, s, [], n) == NONE;
    } else {
      var a, s' := run[0], Next(c, s, run[0]);
      SoloStep(c, s, a, n, t, w);
      NoWaitStep(c, s, a, n, t, w);
      InvStep(c, s, a);
      NoWaits(c, s', run[1..], n, t, w);
      assert run == [a] + run[1..];
      ConsTally(c, s, a, s', run[1..], n);
      NoWaitTally(s, a, n);
    }
  }

  lemma NoWaitTally(s: State, a: Action, n: Node)
    requires !PhaseOf(s, n).TestingDeadline?
    ensures StepTally(s, a, n).waits == 0
  {
  }

  /** The waits so far fit into the time that has passed, and are few enough. */
  ghost predicate WaitsInTime(waits: nat, begun: Time, clock: Time, c: Config) {
    c.wait > 0 && begun + Waited(waits, c.wait) <= clock && waits <= CeilDiv(c.lockTTL + c.wait, c.wait)
  }

  lemma LastWait(waits: nat, more: int, begun: Time, clock: Time, c: Config)
    requires WaitsInTime(waits, begun, clock, c) && (more == 0 || (more == 1 && clock < begun + c.lockTTL + c.wait))
    ensures waits + more <= CeilDiv(c.lockTTL + c.wait, c.wait)
  {
    if more == 1 { WaitFits(waits, c.wait, c.lockTTL + c.wait); }
  }

  lemma NextWait(waits: nat, more: int, begun: Time, clock: Time, later: Time, c: Config)
    requires WaitsInTime(waits, begun, clock, c) && (more == 0 || (more == 1 && clock < begun + c.lockTTL + c.wait))
    requires clock + c.wait <= later
    ensures WaitsInTime(waits + more, begun, later, c)
  {
    LastWait(waits, more, begun, clock, c);
  }

  /** How one pass of the loop ends: with a result, or with another pass after a sleep. */
  datatype Pass = Return(res: Result<CurrentResponse>) | WaitedForPeer | LostRace

  class SharedCache {
    const c: Config
    const self: Node
    /** What upstream answers once the script has run out. */
    const afterwards: Result<CurrentResponse>
    var st: State
    var script: seq<Turn>
    ghost var trace: seq<Action>
    ghost var tally: Tally
    ghost var bumps: nat
    ghost var marks: seq<Mark>

    /** The state is where the protocol's run `trace` leads; tally and bumps count that run. */
    ghost predicate Valid()
      reads this
    {
      && c.wait > 0
      && Path(c, self, marks, trace)
      && Init(marks[0].state) && marks[0].tally == NONE
      && marks[|trace|] == Mark(st, tally, bumps)
    }

    constructor (c: Config, self: Node, script: seq<Turn>, afterwards: Result<CurrentResponse>)
      requires c.wait > 0
      ensures Valid() && this.c == c && this.self == self && this.script == script && this.afterwards == afterwards
    {
      this.c, this.self, this.script, this.afterwards := c, self, script, afterwards;
      var s := State(1, [], [], [], map[]);
      st, trace, tally, bumps, marks := s, [], NONE, 0, [Mark(s, NONE, 0)];
    }

    lemma ValidFacts()
      requires Valid()
      ensures Reachable(c, st) && Inv(c, st)
    {
      PathIsRun(c, self, marks, trace, 0);
      ReachableInv(c, st);
    }

    /** Take one protocol action. */
    method Act(a: Action)
      requires Valid() && Enabled(st, a)
      modifies this`st, this`trace, this`tally, this`bumps, this`marks
      ensures Valid() && st == Next(c, old(st), a) && trace == old(trace) + [a]
      ensures old(marks) <= marks && tally == Plus(old(tally), StepTally(old(st), a, self))
      ensures bumps == old(bumps) + if Solo(a, self) then 0 else 1
    {
      ghost var y := Mark(Next(c, st, a), Plus(tally, StepTally(st, a, self)), bumps + if Solo(a, self) then 0 else 1);
      PathSnoc(c, self, marks, trace, a, y);
      st, trace, tally, bumps, marks := Next(c, st, a), trace + [a], y.tally, y.bumps, marks + [y];
    }

    /** An action that the tally does not count. */
    method Do(a: Action)
      requires Valid() && Enabled(st, a)
      requires Foreign(a, self) || !(a.TestDeadline? || a.WriteClaim? || a.Read? || a.StartCall? || a.Crash?)
      modifies this`st, this`trace, this`tally, this`bumps, this`marks
      ensures Valid() && st == Next(c, old(st), a) && trace == old(trace) + [a] && old(marks) <= marks && tally == old(tally)
      ensures bumps == old(bumps) + if Solo(a, self) then 0 else 1
    {
      Uncounted(st, a, self, tally);
      Act(a);
    }

    /** The run goes on; what was written stays. */
    twostate predicate Extends()
      reads this
    {
      && old(trace) <= trace && old(marks) <= marks
      && old(st.writes) <= st.writes && old(st.clock) <= st.clock && |old(st.answers)| <= |st.answers|
    }

    /** The call goes on; without a script it goes well. */
    twostate predicate GoesOn()
      reads this
    {
      Extends() && (old(script) == [] && afterwards.Ok? ==> script == [] && bumps == old(bumps))
    }

    /** What the rest of the system cannot take from this node: its place in the program, what
        was written before, a stored response. Its new writes are not this node's. */
    twostate predicate OthersMoved()
      reads this
    {
      && GoesOn()
      && (ReadsSucceed(old(script)) ==> ReadsSucceed(script))
      && (forall i :: old(|st.writes|) <= i < |st.writes| ==> st.writes[i].node != self)
      && (old(HasResponse(Latest(st))) ==> HasResponse(Latest(st)))
    }

    lemma ResponseKept(a: Action)
      requires Valid() && Enabled(st, a) && HasResponse(Latest(st))
      ensures HasResponse(Latest(Next(c, st, a)))
    {
      ValidFacts();
      StoredMonotone(c, st, [a]);
      assert After(c, st, [a]) == Next(c, st, a);
    }

    lemma ForeignFrame(a: Action)
      requires Foreign(a, self) && Enabled(st, a)
      ensures var s' := Next(c, st, a);
              && PhaseOf(s', self) == PhaseOf(st, self)
              && st.clock <= s'.clock && st.writes <= s'.writes && |st.answers| <= |s'.answers|
              && (forall i :: |st.writes| <= i < |s'.writes| ==> s'.writes[i].node != self)
    {
    }

    /** The rest of the system moves before the next operation of the call. */
    method Interleave() returns (turn: Turn)
      requires Valid()
      modifies this
      ensures Valid() && OthersMoved() && PhaseOf(st, self) == old(PhaseOf(st, self)) && tally == old(tally)
      ensures forall i :: |old(trace)| <= i < |trace| ==> Foreign(trace[i], self)
      ensures old(script) == [] ==> st == old(st) && script == [] && turn == Alone(afterwards)
      ensures old(script) != [] ==> script == old(script)[1..] && turn == old(script)[0]
    {
      if script == [] {
        turn := Alone(afterwards);
        return;
      }
      turn := script[0];
      script := script[1..];
      for i := 0 to |turn.peers|
        invariant Valid() && OthersMoved() && PhaseOf(st, self) == old(PhaseOf(st, self)) && tally == old(tally)
        invariant forall i :: |old(trace)| <= i < |trace| ==> Foreign(trace[i], self)
        invariant script == old(script)[1..] && turn == old(script)[0]
      {
        var a := turn.peers[i];
        if Foreign(a, self) && Enabled(st, a) {
          if HasResponse(Latest(st)) { ResponseKept(a); }
          ForeignFrame(a);
          Do(a);
        }
      }
    }

    /** An own action of the loop that writes nothing, after the others have moved. */
    method Turned(ghost p: Phase) returns (turn: Turn)
      requires Valid() && PhaseOf(st, self) == p
      modifies this
      ensures Valid() && OthersMoved() && PhaseOf(st, self) == p && tally == old(tally)
      ensures ReadsSucceed(old(script)) ==> turn.readOk
      ensures |script| <= old(|script|) && (old(script) != [] ==> |script| < old(|script|))
      ensures old(script) == [] ==> st == old(st) && turn == Alone(afterwards)
    {
      turn := Interleave();
    }

    /** readEntry. */
    method ReadEntry(deadline: Time) returns (ok: bool, seen: Seen)
      requires Valid() && PhaseOf(st, self) == Reading(deadline)
      modifies this
      ensures Valid() && OthersMoved()
      ensures |script| <= old(|script|) && (old(script) != [] ==> |script| < old(|script|))
      ensures old(script) == [] ==> ok && st.clock == old(st.clock)
      ensures seen == Seen(Latest(st), |st.writes|)
      ensures tally == Plus(old(tally), if ok then NONE else MISREAD) && (ReadsSucceed(old(script)) ==> ok)
      ensures PhaseOf(st, self) == if ok then TestingFresh(deadline, seen) else Direct
    {
      var turn := Turned(Reading(deadline));
      ok, seen := turn.readOk, Seen(Latest(st), |st.writes|);
      Act(Read(self, ok));
    }

    /** The fresh-hit test of the loop. */
    method CheckFresh(deadline: Time, seen: Seen) returns (hit: bool)
      requires Valid() && PhaseOf(st, self) == TestingFresh(deadline, seen)
      modifies this
      ensures Valid() && OthersMoved() && |script| <= old(|script|)
      ensures old(script) == [] ==> st.clock == old(st.clock) && st.writes == old(st.writes)
      ensures tally == old(tally)
      ensures hit <==> seen.entry.Some? && IsFresh(c, seen.entry.value, st.clock)
      ensures PhaseOf(st, self) == if hit then Done(Stale(seen)) else TestingLock(deadline, seen)
    {
      var _ := Turned(TestingFresh(deadline, seen));
      hit := seen.entry.Some? && IsFresh(c, seen.entry.value, st.clock);
      Do(TestFresh(self));
    }

    /** The lock half of the peer-is-refreshing test. */
    method SeesLock(deadline: Time, seen: Seen) returns (locked: bool)
      requires Valid() && PhaseOf(st, self) == TestingLock(deadline, seen)
      modifies this
      ensures Valid() && OthersMoved() && |script| <= old(|script|) && tally == old(tally)
      ensures old(script) == [] ==> script == [] && st.clock == old(st.clock) && st.writes == old(st.writes)
      ensures PhaseOf(st, self) == if locked then TestingDeadline(deadline, seen) else Deciding(deadline, seen)
    {
      var _ := Turned(TestingLock(deadline, seen));
      locked := seen.entry.Some? && IsLocked(c, seen.entry.value, st.clock);
      Do(TestLock(self));
    }

    /** The deadline half, with a clock reading of its own. */
    method MayWait(deadline: Time, seen: Seen) returns (waiting: bool)
      requires Valid() && PhaseOf(st, self) == TestingDeadline(deadline, seen)
      modifies this
      ensures Valid() && OthersMoved() && |script| <= old(|script|)
      ensures old(script) == [] ==> st.clock == old(st.clock) && st.writes == old(st.writes)
      ensures waiting ==> st.clock < deadline
      ensures tally == Plus(old(tally), if waiting then WAIT else NONE)
      ensures PhaseOf(st, self) == if waiting then Sleeping(deadline, seen, st.clock + c.wait) else Deciding(deadline, seen)
    {
      var _ := Turned(TestingDeadline(deadline, seen));
      waiting := st.clock < deadline;
      Act(TestDeadline(self));
    }

    /** The peer-is-refreshing test of the loop: both clock readings of its condition. */
    method CheckLocked(deadline: Time, seen: Seen) returns (waiting: bool)
      requires Valid() && PhaseOf(st, self) == TestingLock(deadline, seen)
      modifies this
      ensures Valid() && OthersMoved() && |script| <= old(|script|)
      ensures old(script) == [] ==> st.clock == old(st.clock) && st.writes == old(st.writes)
      ensures waiting ==> st.clock < deadline
      ensures tally == Plus(old(tally), if waiting then WAIT else NONE)
      ensures PhaseOf(st, self) == if waiting then Sleeping(deadline, seen, st.clock + c.wait) else Deciding(deadline, seen)
    {
      waiting := SeesLock(deadline, seen);
      if waiting {
        waiting := MayWait(deadline, seen);
      }
    }

    /** buildClaim. */
    method MakeClaim(deadline: Time, seen: Seen) returns (ghost claim: Entry)
      requires Valid() && PhaseOf(st, self) == Deciding(deadline, seen)
      modifies this
      ensures Valid() && OthersMoved() && |script| <= old(|script|) && tally == old(tally)
      ensures old(script) == [] ==> script == [] && st.writes == old(st.writes)
      ensures claim == BuildClaim(seen.entry, self, st.clock) && PhaseOf(st, self) == Claiming(deadline, seen, claim)
    {
      var _ := Turned(Deciding(deadline, seen));
      claim := BuildClaim(seen.entry, self, st.clock);
      Do(StampClaim(self));
    }

    /** The conditional write of the claim, which conflicts exactly when the version read is no longer
        the stored one. */
    method WriteClaimEntry(deadline: Time, seen: Seen, ghost claim: Entry) returns (io: IO, conflict: bool)
      requires Valid() && PhaseOf(st, self) == Claiming(deadline, seen, claim) && seen.version <= |st.writes|
      modifies this
      ensures Valid() && GoesOn() && |script| <= old(|script|)
      ensures tally == Plus(old(tally), if conflict then LOST else NONE)
      ensures conflict ==> io.Acked? && OthersMoved() && seen.version < |st.writes|
      ensures conflict ==> PhaseOf(st, self) == Sleeping(deadline, seen, st.clock + c.wait)
      ensures old(script) == [] && seen.version == old(|st.writes|) ==> !conflict
      ensures !conflict && io.Acked? ==> PhaseOf(st, self) == Claimed(seen, seen.version + 1)
      ensures !conflict && io.Acked? ==>
                |st.writes| == seen.version + 1 && st.writes[seen.version].node == self && st.writes[seen.version].entry == claim
      ensures !conflict && io.Failed? ==> PhaseOf(st, self) == if Stale(seen).Ok? then Done(Stale(seen)) else Direct
    {
      var turn := Turned(Claiming(deadline, seen, claim));
      io := turn.io;
      conflict := io.Acked? && seen.version != |st.writes|;
      Act(WriteClaim(self, io));
    }

    /** The pass-through to the wrapped registry when the cache is unusable. */
    method CallInner() returns (res: Result<CurrentResponse>)
      requires Valid() && PhaseOf(st, self).Direct?
      modifies this
      ensures Valid() && PhaseOf(st, self) == Done(res)
      ensures GoesOn() && tally == old(tally)
    {
      var turn := Turned(Direct);
      Do(CallDirect(self));
      turn := Turned(DirectCalling);
      res := turn.reply;
      Do(ReplyDirect(self, res));
    }

    /** The upstream call under a held claim. */
    method CallUnderClaim(seen: Seen, claim: nat) returns (reply: Result<CurrentResponse>)
      requires Valid() && PhaseOf(st, self) == Claimed(seen, claim)
      modifies this
      ensures Valid() && GoesOn() && tally == old(tally)
      ensures PhaseOf(st, self) == if reply.Ok? then Stamping(reply.value, claim) else Releasing(seen, claim)
    {
      var turn := Turned(Claimed(seen, claim));
      Do(CallUpstream(self));
      turn := Turned(Calling(seen, claim));
      reply := turn.reply;
      Do(Reply(self, reply));
    }

    /** Stamps and publishes what upstream answered. */
    method PublishResult(res: CurrentResponse, claim: nat)
      requires Valid() && PhaseOf(st, self) == Stamping(res, claim)
      modifies this
      ensures Valid() && GoesOn() && tally == old(tally) && PhaseOf(st, self) == Done(Ok(res))
    {
      var _ := Turned(Stamping(res, claim));
      ghost var at := st.clock;
      Do(StampResult(self));
      var turn := Turned(Publishing(res, at, claim));
      Do(WriteResult(self, turn.io));
    }

    /** releaseLock: writes back what the claim was taken on. */
    method ReleaseLock(seen: Seen, claim: nat)
      requires Valid() && PhaseOf(st, self) == Releasing(seen, claim)
      modifies this
      ensures Valid() && GoesOn() && tally == old(tally) && PhaseOf(st, self) == Done(Stale(seen))
    {
      var turn := Turned(Releasing(seen, claim));
      Do(WriteResult(self, turn.io));
    }

    /** refreshAndPublish: the upstream call, then the publishing or releasing write. */
    method RefreshAndPublish(seen: Seen, claim: nat) returns (res: Result<CurrentResponse>)
      requires Valid() && PhaseOf(st, self) == Claimed(seen, claim)
      modifies this
      ensures Valid() && PhaseOf(st, self) == Done(res)
      ensures GoesOn() && tally == old(tally)
      ensures HasResponse(seen.entry) ==> res.Ok?
    {
      res := CallUnderClaim(seen, claim);
      if res.Ok? {
        PublishResult(res.value, claim);
      } else {
        res := Stale(seen);
        ReleaseLock(seen, claim);
      }
    }

    /** sleepCtx: sleep for `wait`, or return early when the context is cancelled. */
    method Sleep(deadline: Time, seen: Seen) returns (woken: bool)
      requires Valid() && PhaseOf(st, self) == Sleeping(deadline, seen, st.clock + c.wait)
      modifies this
      ensures Valid() && OthersMoved() && |script| <= old(|script|) && tally == old(tally)
      ensures woken ==> old(st.clock) + c.wait <= st.clock
      ensures PhaseOf(st, self) == if woken then Reading(deadline) else Done(Stale(seen))
    {
      var turn := Turned(Sleeping(deadline, seen, st.clock + c.wait));
      woken := !turn.cancelled;
      if woken {
        Do(Tick(c.wait));
        Do(Wake(self));
      } else {
        Do(Cancel(self));
      }
    }

    /** buildClaim and the conditional write. */
    method Claim(deadline: Time, seen: Seen) returns (io: IO, conflict: bool)
      requires Valid() && PhaseOf(st, self) == Deciding(deadline, seen) && seen.version <= |st.writes|
      modifies this
      ensures Valid() && GoesOn() && |script| <= old(|script|)
      ensures tally == Plus(old(tally), if conflict then LOST else NONE)
      ensures conflict ==> OthersMoved() && seen.version < |st.writes|
      ensures conflict ==> PhaseOf(st, self) == Sleeping(deadline, seen, st.clock + c.wait)
      ensures old(script) == [] && seen.version == old(|st.writes|) ==> !conflict
      ensures !conflict && io.Acked? ==> PhaseOf(st, self) == Claimed(seen, seen.version + 1)
      ensures !conflict && io.Failed? ==> PhaseOf(st, self) == if Stale(seen).Ok? then Done(Stale(seen)) else Direct
    {
      ghost var claim := MakeClaim(deadline, seen);
      io, conflict := WriteClaimEntry(deadline, seen, claim);
    }

    /** The claiming half of a pass, from buildClaim on. */
    method ClaimAndRefresh(deadline: Time, seen: Seen) returns (pass: Pass)
      requires Valid() && PhaseOf(st, self) == Deciding(deadline, seen) && seen.version <= |st.writes|
      modifies this
      ensures Valid() && GoesOn() && !pass.WaitedForPeer?
      ensures tally == old(tally) || tally == Plus(old(tally), LOST)
      ensures pass.LostRace? ==> tally != old(tally)
      ensures tally != old(tally) ==> OthersMoved() && seen.version < |st.writes|
      ensures pass.LostRace? ==> OthersMoved() && PhaseOf(st, self) == Reading(deadline) && |script| <= old(|script|)
      ensures pass.LostRace? ==> old(st.clock) + c.wait <= st.clock && seen.version < |st.writes|
      ensures pass.LostRace? && seen.version == old(|st.writes|) ==> old(script) != []
      ensures pass.Return? ==> PhaseOf(st, self) == Done(pass.res)
      ensures pass.Return? && HasResponse(seen.entry) ==> pass.res.Ok?
    {
      var io, conflict := Claim(deadline, seen);
      if conflict {
        var woken := Sleep(deadline, seen);
        return if woken then LostRace else Return(Stale(seen));
      }
      var res := Stale(seen);
      if io.Acked? {
        res := RefreshAndPublish(seen, seen.version + 1);
      } else if res.Err? {
        res := CallInner();
      }
      return Return(res);
    }

    /** The rest of a pass once the entry was found stale. */
    method WaitOrClaim(deadline: Time, seen: Seen) returns (pass: Pass)
      requires Valid() && PhaseOf(st, self) == TestingLock(deadline, seen) && seen.version <= |st.writes|
      modifies this
      ensures Valid() && GoesOn()
      ensures tally == Plus(old(tally), WAIT) || tally == Plus(old(tally), LOST) || tally == old(tally)
      ensures pass.WaitedForPeer? ==> tally.waits > old(tally).waits
      ensures tally.waits > old(tally).waits ==> old(st.clock) < deadline
      ensures pass.LostRace? ==> tally.lost > old(tally).lost
      ensures tally.lost > old(tally).lost ==> OthersMoved() && seen.version < |st.writes|
      ensures !pass.Return? ==> OthersMoved() && PhaseOf(st, self) == Reading(deadline) && |script| <= old(|script|)
      ensures !pass.Return? ==> old(st.clock) + c.wait <= st.clock
      ensures pass.WaitedForPeer? ==> old(st.clock) < deadline
      ensures pass.LostRace? ==> seen.version < |st.writes|
      ensures pass.LostRace? && seen.version == old(|st.writes|) ==> old(script) != []
      ensures pass.Return? ==> PhaseOf(st, self) == Done(pass.res)
      ensures pass.Return? && HasResponse(seen.entry) ==> pass.res.Ok?
    {
      var waiting := CheckLocked(deadline, seen);
      if waiting {
        var woken := Sleep(deadline, seen);
        return if woken then WaitedForPeer else Return(Stale(seen));
      }
      pass := ClaimAndRefresh(deadline, seen);
    }

    /** A pass once the entry was read: serve it, wait, or claim it. */
    method Resume(deadline: Time, seen: Seen) returns (pass: Pass)
      requires Valid() && PhaseOf(st, self) == TestingFresh(deadline, seen) && seen.version <= |st.writes|
      modifies this
      ensures Valid() && GoesOn()
      ensures tally == Plus(old(tally), WAIT) || tally == Plus(old(tally), LOST) || tally == old(tally)
      ensures pass.WaitedForPeer? ==> tally.waits > old(tally).waits
      ensures tally.waits > old(tally).waits ==> old(st.clock) < deadline
      ensures pass.LostRace? ==> tally.lost > old(tally).lost
      ensures tally.lost > old(tally).lost ==> OthersMoved() && seen.version < |st.writes|
      ensures !pass.Return? ==> OthersMoved() && PhaseOf(st, self) == Reading(deadline) && |script| <= old(|script|)
      ensures !pass.Return? ==> old(st.clock) + c.wait <= st.clock
      ensures pass.LostRace? && seen.version == old(|st.writes|) ==> old(script) != []
      ensures pass.Return? ==> PhaseOf(st, self) == Done(pass.res)
      ensures pass.Return? && HasResponse(seen.entry) ==> pass.res.Ok?
    {
      var hit := CheckFresh(deadline, seen);
      if hit {
        return Return(Stale(seen));
      }
      pass := WaitOrClaim(deadline, seen);
    }

    /** One pass of the loop. */
    method LoopBody(deadline: Time) returns (pass: Pass)
      requires Valid() && PhaseOf(st, self) == Reading(deadline)
      modifies this
      ensures Valid() && GoesOn()
      ensures old(tally).misreads <= tally.misreads && tally.restarts == old(tally).restarts
      ensures !pass.Return? ==> tally.misreads == old(tally).misreads
      ensures tally.waits == old(tally).waits + (if tally.waits > old(tally).waits then 1 else 0)
      ensures tally.lost == old(tally).lost + (if tally.lost > old(tally).lost then 1 else 0)
      ensures pass.WaitedForPeer? ==> tally == Plus(old(tally), WAIT)
      ensures tally.waits > old(tally).waits ==> old(st.clock) < deadline
      ensures pass.LostRace? ==> tally == Plus(old(tally), LOST) && old(script) != []
      ensures tally.lost > old(tally).lost ==> OthersMoved() && old(|st.writes|) < |st.writes|
      ensures !pass.Return? ==> |script| <= old(|script|) && (old(script) != [] ==> |script| < old(|script|))
      ensures !pass.Return? ==> OthersMoved() && PhaseOf(st, self) == Reading(deadline)
      ensures !pass.Return? ==> old(st.clock) + c.wait <= st.clock
      ensures pass.Return? ==> PhaseOf(st, self) == Done(pass.res)
      ensures ReadsSucceed(old(script)) ==> tally.misreads == old(tally).misreads
      ensures pass.Return? && old(HasResponse(Latest(st))) && tally.misreads == old(tally).misreads ==> pass.res.Ok?
    {
      var ok, seen := ReadEntry(deadline);
      if !ok {
        var res := CallInner();
        return Return(res);
      }
      pass := Resume(deadline, seen);
    }

    /** The loop of Current: how often it waits, loses a claim or fails to read. */
    method Loop(deadline: Time) returns (res: Result<CurrentResponse>)
      requires Valid() && PhaseOf(st, self) == Reading(deadline) && deadline == st.clock + c.lockTTL + c.wait
      modifies this
      ensures Valid() && GoesOn() && PhaseOf(st, self) == Done(res) && tally.restarts == old(tally).restarts
      ensures tally.waits - old(tally).waits <= CeilDiv(c.lockTTL + c.wait, c.wait)
      ensures tally.lost - old(tally).lost <= ForeignWrites(st.writes[|old(st.writes)|..], self)
      ensures old(tally).misreads <= tally.misreads && (ReadsSucceed(old(script)) ==> tally.misreads == old(tally).misreads)
    {
      ghost var t0, w0, begun := tally, |st.writes|, st.clock;
      ghost var waits: nat, lost: nat := 0, 0;
      while true
        invariant Valid() && OthersMoved() && PhaseOf(st, self) == Reading(deadline)
        invariant tally == Tally(t0.waits + waits, t0.lost + lost, t0.misreads, t0.restarts)
        invariant WaitsInTime(waits, begun, st.clock, c) && w0 + lost <= |st.writes|
        decreases |script|, if st.clock < deadline then deadline - st.clock else 0
      {
        ghost var before, clock, tally' := st.writes, st.clock, tally;
        var pass := LoopBody(deadline);
        ghost var waited, raced := tally.waits - tally'.waits, tally.lost - tally'.lost;
        if pass.Return? {
          LastWait(waits, waited, begun, clock, c);
          ForeignSince(w0, if raced > 0 then st.writes else before, st.writes, self);
          return pass.res;
        }
        NextWait(waits, waited, begun, clock, st.clock, c);
        waits, lost := waits + waited, lost + raced;
      }
    }

    /**
      Returns the latest registry response, possibly from the shared cache.

      The new part of the trace is one call: actions of others, the beginning of the call at
      position `at` in state `begun`, and the actions in which it takes place, with the outcome
      CallOutcome says. For every script the call returns. In that run it begins at most
      ceil((lockTTL + wait) / wait) waits on a lock and loses at most one claim for each write
      other nodes made; left alone over an entry without a live lock it waits not at all. Reads
      fail only where the script says so; without a script, and with upstream answering, nobody
      else moves and nothing goes wrong.
     */
    method Current() returns (res: Result<CurrentResponse>, ghost at: nat, ghost begun: State)
      requires Valid() && (PhaseOf(st, self).Idle? || PhaseOf(st, self).Done?)
      modifies this
      ensures Valid() && Extends() && PhaseOf(st, self) == Done(res)
      ensures |old(trace)| <= at < |trace| && trace[at] == StartCall(self)
      ensures forall i :: |old(trace)| <= i < at ==> Foreign(trace[i], self)
      ensures old(st.clock) <= begun.clock && old(st.writes) <= begun.writes && |old(st.answers)| <= |begun.answers|
      ensures old(HasResponse(Latest(st))) ==> HasResponse(Latest(begun))
      ensures CallOutcome(c, self, begun, trace[at + 1..], st, res)
      ensures CallCounts(c, self, old(st), trace[|old(trace)|..], st,
                         AllSolo(trace[at + 1..], self) && UnlockedBy(c, Latest(begun), begun.clock))
      ensures ReadsSucceed(old(script)) ==> Read(self, false) !in trace[at + 1..]
      ensures old(script) == [] && afterwards.Ok? ==> begun.writes == old(st.writes) && AllSolo(trace[at + 1..], self)
    {
      ghost var k0, w0 := |trace|, |st.writes|;
      at := BeginCall();
      begun := marks[at].state;
      ghost var w1 := |st.writes|;
      res := Loop(st.clock + c.lockTTL + c.wait);
      ForeignLater(st.writes, w0, w1, self);
      OneCall(begun, at, res);
      Accounts(k0, AllSolo(trace[at + 1..], self) && UnlockedBy(c, Latest(begun), begun.clock));
    }

    /** The first clock reading of a call. */
    method BeginCall() returns (ghost at: nat)
      requires Valid() && (PhaseOf(st, self).Idle? || PhaseOf(st, self).Done?)
      modifies this
      ensures Valid() && Extends()
      ensures PhaseOf(st, self) == Reading(st.clock + c.lockTTL + c.wait)
      ensures |old(trace)| <= at && |trace| == at + 1 && trace[at] == StartCall(self) && tally == Plus(old(tally), RESTART)
      ensures forall i :: |old(trace)| <= i < at ==> Foreign(trace[i], self)
      ensures ReadsSucceed(old(script)) ==> ReadsSucceed(script)
      ensures var s := marks[at].state;
              && Reachable(c, s) && old(st.clock) <= s.clock == st.clock && s.writes == st.writes && |old(st.answers)| <= |s.answers|
              && (old(HasResponse(Latest(st))) ==> HasResponse(Latest(s)))
      ensures old(script) == [] ==> script == [] && st.writes == old(st.writes)
    {
      var _ := Interleave();
      at := |trace|;
      ValidFacts();
      Act(StartCall(self));
    }

    /** What the tally gained since position k is counted in the run from there on. */
    lemma Accounts(k: nat, alone: bool)
      requires Valid() && k <= |trace| && |marks[k].state.writes| <= |st.writes|
      requires tally.waits - marks[k].tally.waits <= CeilDiv(c.lockTTL + c.wait, c.wait)
      requires alone ==> tally.waits == marks[k].tally.waits
      requires tally.lost - marks[k].tally.lost <= ForeignWrites(st.writes[|marks[k].state.writes|..], self)
      ensures CallCounts(c, self, marks[k].state, trace[k..], st, alone)
    {
      PathIsRun(c, self, marks, trace, k);
    }

    /** What holds of a call that began in state s at position `at` and has ended. */
    lemma OneCall(s: State, at: nat, res: Result<CurrentResponse>)
      requires Valid() && at < |trace| && trace[at] == StartCall(self) && marks[at].state == s && Reachable(c, s)
      requires marks[at + 1].tally.restarts == tally.restarts && PhaseOf(st, self) == Done(res)
      ensures CallOutcome(c, self, s, trace[at + 1..], st, res)
      ensures marks[at + 1].tally.misreads == tally.misreads ==> Read(self, false) !in trace[at + 1..]
      ensures marks[at + 1].bumps == bumps ==> AllSolo(trace[at + 1..], self)
      ensures AllSolo(trace[at + 1..], self) && UnlockedBy(c, Latest(s), s.clock) ==> tally.waits == marks[at + 1].tally.waits
    {
      PathStep(c, self, marks, trace, at);
      PathIsRun(c, self, marks, trace, at + 1);
      UnbumpedIsSolo(c, self, marks, trace, at + 1);
      CallFacts(c, s, self, marks[at + 1].state, trace[at + 1..], st, res);
      if AllSolo(trace[at + 1..], self) && UnlockedBy(c, Latest(s), s.clock) {
        CallWaits(c, s, self, marks[at + 1].state, trace[at + 1..]);
      }
    }
  }
}
