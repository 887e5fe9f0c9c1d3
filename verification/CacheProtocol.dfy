/**
  The refresh protocol of registry/cached.go as a step system.

  Any number of nodes run `Current` against one versioned entry. Every clock reading,
  every cache operation and every upstream call is a step of its own, so arbitrary delays
  may pass between any two of them. Cache errors (with or without the write taking
  effect), upstream failures, cancellation and crashes are steps too.

  The whole history of successful writes is kept: version v is the v-th write and
  version 0 stands for "no entry", the empty version string of cache.AtomicCache.
  Nodes only ever compare versions for equality.
 */
module CacheProtocol {
  import opened Basics
  import opened CacheEntry

  datatype Kind =
    | Claim(base: nat, deadline: Time)   // taken on version base by a call with this deadline
    | Publish(claim: nat)                // the refresh that began with write number claim
    | Release(claim: nat)

  datatype Write = Write(node: Node, entry: Entry, kind: Kind)

  /** What a node read: the entry (None when absent) and its version. */
  datatype Seen = Seen(entry: Option<Entry>, version: nat)

  /** One upstream call: claim is the version of the caller's claim, 0 when it has none. */
  datatype Start = Start(node: Node, claim: nat, at: Time)
  datatype Answer = Answer(node: Node, claim: nat, response: CurrentResponse)

  /** The program counter and locals of one node. */
  datatype Phase =
    | Idle
    | Reading(deadline: Time)
    | TestingFresh(deadline: Time, seen: Seen)
    | TestingLock(deadline: Time, seen: Seen)
    | TestingDeadline(deadline: Time, seen: Seen)
    | Sleeping(deadline: Time, seen: Seen, until: Time)
    | Deciding(deadline: Time, seen: Seen)
    | Claiming(deadline: Time, seen: Seen, entry: Entry)
    | Claimed(seen: Seen, claim: nat)
    | Calling(seen: Seen, claim: nat)
    | Stamping(response: CurrentResponse, claim: nat)
    | Publishing(response: CurrentResponse, at: Time, claim: nat)
    | Releasing(seen: Seen, claim: nat)
    | Direct
    | DirectCalling
    | Done(result: Result<CurrentResponse>)

  datatype State = State(
    clock: Time, writes: seq<Write>, starts: seq<Start>, answers: seq<Answer>, nodes: map<Node, Phase>)

  /** How a conditional write ends for its caller: a verdict (success or conflict), or an
      error after which the write may or may not have been applied. */
  datatype IO = Acked | Failed(applied: bool)

  datatype Action =
    | Tick(d: nat)
    | StartCall(n: Node)
    | Read(n: Node, ok: bool)
    | TestFresh(n: Node)
    | TestLock(n: Node)
    | TestDeadline(n: Node)
    | Wake(n: Node)
    | Cancel(n: Node)
    | StampClaim(n: Node)
    | WriteClaim(n: Node, io: IO)
    | CallUpstream(n: Node)
    | Reply(n: Node, reply: Result<CurrentResponse>)
    | StampResult(n: Node)
    | WriteResult(n: Node, io: IO)
    | CallDirect(n: Node)
    | ReplyDirect(n: Node, reply: Result<CurrentResponse>)
    | Crash(n: Node)

  function PhaseOf(s: State, n: Node): Phase {
    if n in s.nodes then s.nodes[n] else Idle
  }

  function Put(s: State, n: Node, p: Phase): State {
    s.(nodes := s.nodes[n := p])
  }

  function EntryAt(writes: seq<Write>, version: nat): Option<Entry>
    requires version <= |writes|
  {
    if version == 0 then None else Some(writes[version - 1].entry)
  }

  function Latest(s: State): Option<Entry> {
    EntryAt(s.writes, |s.writes|)
  }

  /** The fallback of a call that gives up: the response it saw, or an error. */
  function Stale(seen: Seen): Result<CurrentResponse> {
    if seen.entry.Some? && seen.entry.value.response.Some? then Ok(seen.entry.value.response.value) else Err
  }

  /** WriteIfMatch: append iff the expected version is the current one. */
  function Cas(s: State, expected: nat, io: IO, w: Write): State {
    if expected == |s.writes| && (io.Acked? || io.applied) then s.(writes := s.writes + [w]) else s
  }

  predicate Refreshing(p: Phase) {
    p.Claimed? || p.Calling? || p.Stamping? || p.Publishing? || p.Releasing?
  }

  predicate Enabled(s: State, a: Action) {
    match a
    case Tick(_) => true
    case StartCall(n) => PhaseOf(s, n).Idle? || PhaseOf(s, n).Done?
    case Read(n, _) => PhaseOf(s, n).Reading?
    case TestFresh(n) => PhaseOf(s, n).TestingFresh?
    case TestLock(n) => PhaseOf(s, n).TestingLock?
    case TestDeadline(n) => PhaseOf(s, n).TestingDeadline?
    case Wake(n) => PhaseOf(s, n).Sleeping? && PhaseOf(s, n).until <= s.clock
    case Cancel(n) => PhaseOf(s, n).Sleeping?
    case StampClaim(n) => PhaseOf(s, n).Deciding?
    case WriteClaim(n, _) => PhaseOf(s, n).Claiming?
    case CallUpstream(n) => PhaseOf(s, n).Claimed?
    case Reply(n, _) => PhaseOf(s, n).Calling?
    case StampResult(n) => PhaseOf(s, n).Stamping?
    case WriteResult(n, _) => PhaseOf(s, n).Publishing? || PhaseOf(s, n).Releasing?
    case CallDirect(n) => PhaseOf(s, n).Direct?
    case ReplyDirect(n, _) => PhaseOf(s, n).DirectCalling?
    case Crash(n) => true
  }

  function Next(c: Config, s: State, a: Action): State
    requires Enabled(s, a)
  {
    match a
    case Tick(d) => s.(clock := s.clock + d)
    case StartCall(n) => Put(s, n, Reading(s.clock + c.lockTTL + c.wait))
    case Read(n, ok) =>
      Put(s, n, if ok then TestingFresh(PhaseOf(s, n).deadline, Seen(Latest(s), |s.writes|)) else Direct)
    case TestFresh(n) =>
      var p := PhaseOf(s, n);
      Put(s, n,
          if p.seen.entry.Some? && IsFresh(c, p.seen.entry.value, s.clock) then Done(Stale(p.seen))
          else TestingLock(p.deadline, p.seen))
    case TestLock(n) =>
      var p := PhaseOf(s, n);
      Put(s, n,
          if p.seen.entry.Some? && IsLocked(c, p.seen.entry.value, s.clock) then TestingDeadline(p.deadline, p.seen)
          else Deciding(p.deadline, p.seen))
    case TestDeadline(n) =>
      var p := PhaseOf(s, n);
      Put(s, n,
          if s.clock < p.deadline then Sleeping(p.deadline, p.seen, s.clock + c.wait)
          else Deciding(p.deadline, p.seen))
    case Wake(n) => Put(s, n, Reading(PhaseOf(s, n).deadline))
    case Cancel(n) => Put(s, n, Done(Stale(PhaseOf(s, n).seen)))
    case StampClaim(n) =>
      var p := PhaseOf(s, n);
      Put(s, n, Claiming(p.deadline, p.seen, BuildClaim(p.seen.entry, n, s.clock)))
    case WriteClaim(n, io) =>
      var p := PhaseOf(s, n);
      Put(Cas(s, p.seen.version, io, Write(n, p.entry, Claim(p.seen.version, p.deadline))), n,
          if io.Failed? then (if Stale(p.seen).Ok? then Done(Stale(p.seen)) else Direct)
          else if p.seen.version == |s.writes| then Claimed(p.seen, |s.writes| + 1)
          else Sleeping(p.deadline, p.seen, s.clock + c.wait))
    case CallUpstream(n) =>
      var p := PhaseOf(s, n);
      Put(s.(starts := s.starts + [Start(n, p.claim, s.clock)]), n, Calling(p.seen, p.claim))
    case Reply(n, reply) =>
      var p := PhaseOf(s, n);
      if reply.Ok? then
        Put(s.(answers := s.answers + [Answer(n, p.claim, reply.value)]), n, Stamping(reply.value, p.claim))
      else Put(s, n, Releasing(p.seen, p.claim))
    case StampResult(n) =>
      var p := PhaseOf(s, n);
      Put(s, n, Publishing(p.response, s.clock, p.claim))
    case WriteResult(n, io) =>
      var p := PhaseOf(s, n);
      if p.Publishing? then
        Put(Cas(s, p.claim, io, Write(n, Published(p.response, p.at), Publish(p.claim))), n, Done(Ok(p.response)))
      else
        Put(Cas(s, p.claim, io, Write(n, Released(p.seen.entry), Release(p.claim))), n, Done(Stale(p.seen)))
    case CallDirect(n) => Put(s.(starts := s.starts + [Start(n, 0, s.clock)]), n, DirectCalling)
    case ReplyDirect(n, reply) => Put(s, n, Done(reply))
    case Crash(n) => Put(s, n, Idle)
  }

  // ----- runs -----

  predicate Init(s: State) {
    s.clock > 0 && s.writes == [] && s.starts == [] && s.answers == [] && s.nodes == map[]
  }

  /** Every action of the run is enabled when it is taken. */
  predicate IsRun(c: Config, s: State, run: seq<Action>)
    decreases |run|
  {
    run == [] || (Enabled(s, run[0]) && IsRun(c, Next(c, s, run[0]), run[1..]))
  }

  /** The state a run ends in. */
  function After(c: Config, s: State, run: seq<Action>): State
    requires IsRun(c, s, run)
    decreases |run|
  {
    if run == [] then s else After(c, Next(c, s, run[0]), run[1..])
  }

  lemma {:induction false} RunConcat(c: Config, s: State, r1: seq<Action>, r2: seq<Action>)
    requires IsRun(c, s, r1) && IsRun(c, After(c, s, r1), r2)
    ensures IsRun(c, s, r1 + r2) && After(c, s, r1 + r2) == After(c, After(c, s, r1), r2)
    decreases |r1|
  {
    if r1 == [] {
      assert r1 + r2 == r2;
    } else {
      RunConcat(c, Next(c, s, r1[0]), r1[1..], r2);
      assert (r1 + r2)[1..] == r1[1..] + r2;
    }
  }

  /** The states in which the actions of a run are taken. */
  function Trail(c: Config, s: State, run: seq<Action>): (states: seq<State>)
    requires IsRun(c, s, run)
    ensures |states| == |run|
    decreases |run|
  {
    if run == [] then [] else [s] + Trail(c, Next(c, s, run[0]), run[1..])
  }

  lemma {:induction false} TrailConcat(c: Config, s: State, r1: seq<Action>, r2: seq<Action>)
    requires IsRun(c, s, r1) && IsRun(c, After(c, s, r1), r2)
    ensures IsRun(c, s, r1 + r2) && Trail(c, s, r1 + r2) == Trail(c, s, r1) + Trail(c, After(c, s, r1), r2)
    decreases |r1|
  {
    RunConcat(c, s, r1, r2);
    if r1 == [] {
      assert r1 + r2 == r2;
    } else {
      TrailConcat(c, Next(c, s, r1[0]), r1[1..], r2);
      assert (r1 + r2)[1..] == r1[1..] + r2;
    }
  }
}
