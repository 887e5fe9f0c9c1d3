/**
  What one call gets: where its result comes from, that it is recent when nothing of the call
  goes wrong, and that a call left alone brings the entry up to date even over an abandoned lock.
 */
module CacheFreshness {
  import opened Basics
  import opened CacheEntry
  import opened CacheProtocol
  import opened CacheSafety
  import opened CacheTheorems
  import opened CacheAvailability

  /** Not the beginning or the end by crash of a call of node n. */
  predicate WithinCall(a: Action, n: Node) {
    a != StartCall(n) && a != Crash(n)
  }

  // ----- origin -----

  /** A result of n was stored or answered under a claim, or it is a direct reply among these actions. */
  ghost predicate OriginOk(s: State, n: Node, done: seq<Action>) {
    var p := PhaseOf(s, n);
    p.Done? && p.result.Ok? ==> Sourced(s, n, p.result.value) || ReplyDirect(n, p.result) in done
  }

  lemma OriginOther(c: Config, s: State, a: Action, n: Node, done: seq<Action>)
    requires Enabled(s, a) && OriginOk(s, n, done) && (a.Tick? || a.n != n)
    ensures OriginOk(Next(c, s, a), n, done + [a])
  {
    OnlyGrows(c, s, a);
    var p := PhaseOf(s, n);
    if p.Done? && p.result.Ok? && Sourced(s, n, p.result.value) {
      SourcedStable(s, Next(c, s, a), n, p.result.value);
    }
  }

  /** How a call of n comes to an end. */
  lemma EndsWith(c: Config, s: State, a: Action, n: Node)
    requires Enabled(s, a) && !a.Tick? && a.n == n && PhaseOf(Next(c, s, a), n).Done?
    ensures var p, r := PhaseOf(s, n), PhaseOf(Next(c, s, a), n).result;
            || p.Publishing? || a == ReplyDirect(n, r)
            || ((p.TestingFresh? || p.Sleeping? || p.Claiming? || p.Releasing?) && r == Stale(p.seen))
  {
  }

  lemma OriginOwn(c: Config, s: State, a: Action, n: Node, done: seq<Action>)
    requires Inv(c, s) && Enabled(s, a) && !a.Tick? && a.n == n
    ensures OriginOk(Next(c, s, a), n, done + [a])
  {
    var s', p := Next(c, s, a), PhaseOf(s, n);
    if PhaseOf(s', n).Done? && PhaseOf(s', n).result.Ok? {
      EndsWith(c, s, a, n);
      OnlyGrows(c, s, a);
      if p.Publishing? {
        assert PhaseOk(c, s, n, p);
        PublishedIsSourced(c, s, n, a.io);
      } else if a != ReplyDirect(n, PhaseOf(s', n).result) {
        assert PhaseOk(c, s, n, p);
        SeenIsSourced(s, n, p.seen);
        SourcedStable(s, s', n, Stale(p.seen).value);
      }
    }
  }

  /** Whatever happens, a call ends with a response that was stored, that upstream answered to this
      node under a claim, or that upstream answered directly. */
  lemma {:induction false} ResultOrigin(c: Config, s: State, done: seq<Action>, run: seq<Action>, n: Node)
    requires Inv(c, s) && IsRun(c, s, run) && OriginOk(s, n, done)
    ensures OriginOk(After(c, s, run), n, done + run)
    decreases |run|
  {
    if run == [] {
      assert done + run == done;
    } else {
      var a := run[0];
      if a.Tick? || a.n != n { OriginOther(c, s, a, n, done); } else { OriginOwn(c, s, a, n, done); }
      InvStep(c, s, a);
      ResultOrigin(c, Next(c, s, a), done + [a], run[1..], n);
      assert (done + [a]) + run[1..] == done + run;
    }
  }

  // ----- errors -----

  /** Why a call of n that is giving up, or has given up, does so, among these actions. */
  ghost predicate FailureOk(n: Node, p: Phase, done: seq<Action>) {
    && (p.Releasing? ==> Reply(n, Err) in done)
    && (p.Done? && p.result.Err? ==> Cancel(n) in done || Reply(n, Err) in done || ReplyDirect(n, Err) in done)
  }

  lemma FailureStep(c: Config, s: State, a: Action, n: Node, done: seq<Action>)
    requires Enabled(s, a) && FailureOk(n, PhaseOf(s, n), done)
    ensures FailureOk(n, PhaseOf(Next(c, s, a), n), done + [a])
  {
  }

  /** A call fails only if upstream fails or its wait is cancelled: cache errors alone never make it fail. */
  lemma {:induction false} ErrorOrigin(c: Config, s: State, done: seq<Action>, run: seq<Action>, n: Node)
    requires IsRun(c, s, run) && FailureOk(n, PhaseOf(s, n), done)
    ensures FailureOk(n, PhaseOf(After(c, s, run), n), done + run)
    decreases |run|
  {
    if run == [] {
      assert done + run == done;
    } else {
      FailureStep(c, s, run[0], n, done);
      ErrorOrigin(c, Next(c, s, run[0]), done + [run[0]], run[1..], n);
      assert (done + [run[0]]) + run[1..] == done + run;
    }
  }

  // ----- locks left behind -----

  /** The entry carries a lock of n's own: the last write is its claim. */
  predicate HoldsLock(s: State, n: Node) {
    s.writes != [] && s.writes[|s.writes| - 1].kind.Claim? && s.writes[|s.writes| - 1].node == n
  }

  /** n's lock in the entry is that of the refresh n is carrying out. */
  predicate Tethered(s: State, n: Node) {
    HoldsLock(s, n) ==> Refreshing(PhaseOf(s, n)) && ClaimOf(PhaseOf(s, n)) == |s.writes|
  }

  /** No claim write takes effect behind an error, and no result write fails without effect. */
  predicate WritesKept(a: Action, n: Node) {
    WithinCall(a, n) && a != WriteClaim(n, Failed(true)) && a != WriteResult(n, Failed(false))
  }

  lemma TetherStep(c: Config, s: State, a: Action, n: Node)
    requires Enabled(s, a) && Tethered(s, n) && WritesKept(a, n)
    ensures Tethered(Next(c, s, a), n)
  {
  }

  /** A call that began without a lock of its own node in the entry leaves none, whether upstream answered
      or failed, unless a write of its own went wrong. */
  lemma {:induction false} LeavesNoLock(c: Config, s: State, run: seq<Action>, n: Node)
    requires IsRun(c, s, run) && Tethered(s, n) && forall i :: 0 <= i < |run| ==> WritesKept(run[i], n)
    ensures Tethered(After(c, s, run), n)
    decreases |run|
  {
    if run != [] {
      TetherStep(c, s, run[0], n);
      LeavesNoLock(c, Next(c, s, run[0]), run[1..], n);
    }
  }

  // ----- freshness -----

  /** No failed read, failed claim write, upstream failure or cancellation of node n. */
  predicate Smooth(a: Action, n: Node) {
    match a
    case Read(m, ok) => m == n ==> ok
    case WriteClaim(m, io) => m == n ==> io.Acked?
    case Reply(m, reply) => m == n ==> reply.Ok?
    case Cancel(m) => m != n
    case _ => WithinCall(a, n)
  }

  /** The response was published with a stamp that had not expired at the instant t. */
  ghost predicate Recent(c: Config, s: State, r: CurrentResponse, t: Time) {
    exists i :: 0 <= i < |s.writes| && s.writes[i].kind.Publish? && s.writes[i].entry.response == Some(r) && t < s.writes[i].entry.fetchedAt + c.ttl
  }

  /** Upstream answered it to n under a claim, not among the first k answers. */
  ghost predicate AnsweredSince(s: State, n: Node, r: CurrentResponse, k: nat) {
    exists i :: k <= i < |s.answers| && s.answers[i].node == n && s.answers[i].response == r
  }

  /** Where a smooth call begun at instant t, after k answers, can be. */
  ghost predicate FreshPhase(c: Config, s: State, n: Node, p: Phase, t: Time, k: nat) {
    match p
    case Idle => false
    case Direct => false
    case DirectCalling => false
    case Releasing(_, _) => false
    case Stamping(r, _) => AnsweredSince(s, n, r, k)
    case Publishing(r, _, _) => AnsweredSince(s, n, r, k)
    case Done(result) => result.Ok? && (Recent(c, s, result.value, t) || AnsweredSince(s, n, result.value, k))
    case _ => true
  }

  lemma FreshStable(c: Config, s: State, s': State, n: Node, p: Phase, t: Time, k: nat)
    requires FreshPhase(c, s, n, p, t, k) && s.writes <= s'.writes && s.answers <= s'.answers
    ensures FreshPhase(c, s', n, p, t, k)
  {
    if p.Stamping? || p.Publishing? {
      AnsweredStable(s, s', n, p.response, k);
    } else if p.Done? && AnsweredSince(s, n, p.result.value, k) {
      AnsweredStable(s, s', n, p.result.value, k);
    } else if p.Done? {
      var i :| 0 <= i < |s.writes| && s.writes[i].kind.Publish? && s.writes[i].entry.response == Some(p.result.value) &&
        t < s.writes[i].entry.fetchedAt + c.ttl;
      assert s'.writes[i] == s.writes[i];
    }
  }

  lemma AnsweredStable(s: State, s': State, n: Node, r: CurrentResponse, k: nat)
    requires AnsweredSince(s, n, r, k) && s.answers <= s'.answers
    ensures AnsweredSince(s', n, r, k)
  {
    var i :| k <= i < |s.answers| && s.answers[i].node == n && s.answers[i].response == r;
    assert s'.answers[i] == s.answers[i];
  }

  /** A fresh hit is recent. */
  lemma HitIsRecent(c: Config, s: State, seen: Seen, t: Time)
    requires Inv(c, s) && SeenOk(s, seen) && t <= s.clock
    requires seen.entry.Some? && IsFresh(c, seen.entry.value, s.clock)
    ensures Stale(seen).Ok? && Recent(c, s, Stale(seen).value, t)
  {
    var i := HistorySource(c, s.writes, seen.version);
    assert s.writes[i].entry.response == Some(Stale(seen).value);
  }

  lemma FreshOwnStep(c: Config, s: State, a: Action, n: Node, t: Time, k: nat)
    requires Inv(c, s) && Enabled(s, a) && !a.Tick? && a.n == n && Smooth(a, n) && t <= s.clock && k <= |s.answers|
    requires FreshPhase(c, s, n, PhaseOf(s, n), t, k)
    ensures FreshPhase(c, Next(c, s, a), n, PhaseOf(Next(c, s, a), n), t, k)
  {
    var s', p := Next(c, s, a), PhaseOf(s, n);
    OnlyGrows(c, s, a);
    match a
    case TestFresh(_) =>
      assert PhaseOk(c, s, n, p);
      if p.seen.entry.Some? && IsFresh(c, p.seen.entry.value, s.clock) {
        HitIsRecent(c, s, p.seen, t);
        FreshStable(c, s, s', n, Done(Stale(p.seen)), t, k);
      }
    case Reply(_, reply) =>
      assert s'.answers[|s.answers|] == Answer(n, p.claim, reply.value);
    case StampResult(_) => AnsweredStable(s, s', n, p.response, k);
    case WriteResult(_, _) => AnsweredStable(s, s', n, p.response, k);
    case _ =>
  }

  lemma {:induction false} FreshRun(c: Config, s: State, run: seq<Action>, n: Node, t: Time, k: nat)
    requires Inv(c, s) && IsRun(c, s, run) && t <= s.clock && k <= |s.answers|
    requires FreshPhase(c, s, n, PhaseOf(s, n), t, k) && forall i :: 0 <= i < |run| ==> Smooth(run[i], n)
    ensures FreshPhase(c, After(c, s, run), n, PhaseOf(After(c, s, run), n), t, k)
    decreases |run|
  {
    if run != [] {
      var a, s' := run[0], Next(c, s, run[0]);
      if a.Tick? || a.n != n {
        OnlyGrows(c, s, a);
        FreshStable(c, s, s', n, PhaseOf(s, n), t, k);
      } else {
        FreshOwnStep(c, s, a, n, t, k);
      }
      InvStep(c, s, a);
      FreshRun(c, s', run[1..], n, t, k);
    }
  }

  /** A call of which nothing goes wrong ends with a response, whatever the other nodes do: one
      published with a stamp that had not expired when the call began, or one upstream answered to
      this very call. */
  lemma SmoothCallIsFresh(c: Config, s: State, n: Node, run: seq<Action>)
    requires Reachable(c, s) && Enabled(s, StartCall(n)) && IsRun(c, Next(c, s, StartCall(n)), run)
    requires forall i :: 0 <= i < |run| ==> Smooth(run[i], n)
    ensures var s' := After(c, Next(c, s, StartCall(n)), run);
            PhaseOf(s', n).Done? ==>
              && PhaseOf(s', n).result.Ok?
              && (Recent(c, s', PhaseOf(s', n).result.value, s.clock) ||
                  AnsweredSince(s', n, PhaseOf(s', n).result.value, |s.answers|))
  {
    ReachableInv(c, s);
    InvStep(c, s, StartCall(n));
    FreshRun(c, Next(c, s, StartCall(n)), run, n, s.clock, |s.answers|);
  }

  // ----- a call left alone -----

  /** A step of the clock, or a step of n that goes well. */
  predicate Solo(a: Action, n: Node) {
    a.Tick? || (a.n == n && Smooth(a, n) && (a.WriteResult? ==> a.io.Acked?))
  }

  /** The entry holds r, with a stamp that had not expired at the instant t. */
  ghost predicate UpToDate(c: Config, s: State, r: CurrentResponse, t: Time) {
    Latest(s).Some? && Latest(s).value.response == Some(r) && t < Latest(s).value.fetchedAt + c.ttl
  }

  /** The last write is n's own publish of r. */
  ghost predicate PublishedLast(s: State, n: Node, r: CurrentResponse) {
    s.writes != [] && s.writes[|s.writes| - 1].node == n && s.writes[|s.writes| - 1].kind.Publish? &&
    s.writes[|s.writes| - 1].entry.response == Some(r)
  }

  /** Where a call of n left alone since instant t, with w writes before it, can be. */
  ghost predicate SoloPhase(c: Config, s: State, n: Node, p: Phase, t: Time, w: seq<Write>) {
    match p
    case Reading(_) => s.writes == w
    case TestingFresh(_, seen) => s.writes == w && seen.version == |w|
    case TestingLock(_, seen) => s.writes == w && seen.version == |w|
    case TestingDeadline(_, seen) => s.writes == w && seen.version == |w|
    case Sleeping(_, seen, _) => s.writes == w && seen.version == |w|
    case Deciding(_, seen) => s.writes == w && seen.version == |w|
    case Claiming(_, seen, _) => s.writes == w && seen.version == |w|
    case Claimed(_, claim) => claim == |s.writes|
    case Calling(_, claim) => claim == |s.writes|
    case Stamping(_, claim) => claim == |s.writes|
    case Publishing(_, at, claim) => claim == |s.writes| && t <= at
    case Done(result) =>
      result.Ok? && (PublishedLast(s, n, result.value) || s.writes == w) && (c.ttl > 0 ==> UpToDate(c, s, result.value, t))
    case _ => false
  }

  lemma SoloStep(c: Config, s: State, a: Action, n: Node, t: Time, w: seq<Write>)
    requires Inv(c, s) && Enabled(s, a) && Solo(a, n) && t <= s.clock && SoloPhase(c, s, n, PhaseOf(s, n), t, w)
    ensures SoloPhase(c, Next(c, s, a), n, PhaseOf(Next(c, s, a), n), t, w)
  {
    if !a.Tick? { assert PhaseOk(c, s, n, PhaseOf(s, n)); }
  }

  lemma {:induction false} SoloRun(c: Config, s: State, run: seq<Action>, n: Node, t: Time, w: seq<Write>)
    requires Inv(c, s) && IsRun(c, s, run) && t <= s.clock && SoloPhase(c, s, n, PhaseOf(s, n), t, w)
    requires forall i :: 0 <= i < |run| ==> Solo(run[i], n)
    ensures SoloPhase(c, After(c, s, run), n, PhaseOf(After(c, s, run), n), t, w)
    decreases |run|
  {
    if run != [] {
      SoloStep(c, s, run[0], n, t, w);
      InvStep(c, s, run[0]);
      SoloRun(c, Next(c, s, run[0]), run[1..], n, t, w);
    }
  }

  /** Left alone over an entry whose lock, if any, has run out, a call never comes to wait. */
  lemma NoWaitStep(c: Config, s: State, a: Action, n: Node, t: Time, w: seq<Write>)
    requires Inv(c, s) && Enabled(s, a) && Solo(a, n) && t <= s.clock && SoloPhase(c, s, n, PhaseOf(s, n), t, w)
    requires UnlockedBy(c, EntryAt(w, |w|), t) && !PhaseOf(s, n).TestingDeadline? && !PhaseOf(s, n).Sleeping?
    ensures !PhaseOf(Next(c, s, a), n).TestingDeadline? && !PhaseOf(Next(c, s, a), n).Sleeping?
  {
    if !a.Tick? { assert PhaseOk(c, s, n, PhaseOf(s, n)); }
  }

  /** A call that is left alone with a working cache and upstream, whatever was stored before, an
      abandoned lock included, ends with a response and leaves the entry holding it, not expired when
      the call began; either the entry was fresh already or its last write is the call's own publish. */
  lemma AloneBringsUpToDate(c: Config, s: State, n: Node, run: seq<Action>)
    requires Reachable(c, s) && Enabled(s, StartCall(n)) && IsRun(c, Next(c, s, StartCall(n)), run)
    requires forall i :: 0 <= i < |run| ==> Solo(run[i], n)
    ensures var s' := After(c, Next(c, s, StartCall(n)), run);
            PhaseOf(s', n).Done? ==>
              && PhaseOf(s', n).result.Ok?
              && (PublishedLast(s', n, PhaseOf(s', n).result.value) || s'.writes == s.writes)
              && (c.ttl > 0 ==> UpToDate(c, s', PhaseOf(s', n).result.value, s.clock))
  {
    ReachableInv(c, s);
    InvStep(c, s, StartCall(n));
    SoloRun(c, Next(c, s, StartCall(n)), run, n, s.clock, s.writes);
  }
}
