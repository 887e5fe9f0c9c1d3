/**
  What every run of the refresh protocol keeps, whatever crashes, delays, lost
  acknowledgements, upstream failures and lock takeovers it contains.
 */
module CacheSafety {
  import opened CacheEntry
  import opened CacheProtocol

  // ----- the shape of the write history -----

  /** The claim at position i was taken on the version just before it, at an instant by which
      the stored response had expired and its lock was gone or the claimer's deadline reached. */
  predicate ClaimOk(c: Config, writes: seq<Write>, i: nat)
    requires i < |writes| && writes[i].kind.Claim?
  {
    var w := writes[i];
    var prev := EntryAt(writes, i);
    && w.kind.base == i
    && w.entry.lockedAt > 0
    && w.entry == BuildClaim(prev, w.node, w.entry.lockedAt)
    && ExpiredBy(c, prev, w.entry.lockedAt)
    && (UnlockedBy(c, prev, w.entry.lockedAt) || w.kind.deadline <= w.entry.lockedAt)
  }

  /** The write at position i directly follows the claim it belongs to. */
  predicate FollowsOwnClaim(writes: seq<Write>, i: nat, claim: nat)
    requires i < |writes|
  {
    claim == i && i > 0 && writes[i - 1].kind.Claim? && writes[i - 1].node == writes[i].node
  }

  predicate WriteOk(c: Config, writes: seq<Write>, i: nat)
    requires i < |writes|
  {
    var w := writes[i];
    match w.kind
    case Claim(_, _) => ClaimOk(c, writes, i)
    case Publish(claim) =>
      && FollowsOwnClaim(writes, i, claim)
      && w.entry.response.Some?
      && w.entry == Published(w.entry.response.value, w.entry.fetchedAt)
      && writes[i - 1].entry.lockedAt <= w.entry.fetchedAt
    case Release(claim) =>
      && FollowsOwnClaim(writes, i, claim)
      && w.entry == Released(EntryAt(writes, i - 1))
  }

  ghost predicate HistoryOk(c: Config, writes: seq<Write>) {
    forall i :: 0 <= i < |writes| ==> WriteOk(c, writes, i)
  }

  // ----- the inductive invariant -----

  predicate SeenOk(s: State, seen: Seen) {
    seen.version <= |s.writes| && seen.entry == EntryAt(s.writes, seen.version)
  }

  /** Write number claim is n's own claim. */
  predicate ClaimHeld(s: State, n: Node, claim: nat) {
    1 <= claim <= |s.writes| && s.writes[claim - 1].node == n && s.writes[claim - 1].kind.Claim?
  }

  /** Write number claim is n's own claim, taken on what n had seen. */
  predicate ClaimFrom(s: State, n: Node, seen: Seen, claim: nat) {
    ClaimHeld(s, n, claim) && SeenOk(s, seen) && seen.version == claim - 1
  }

  ghost predicate PhaseOk(c: Config, s: State, n: Node, p: Phase) {
    match p
    case TestingFresh(_, seen) => SeenOk(s, seen)
    case TestingLock(_, seen) => SeenOk(s, seen) && ExpiredBy(c, seen.entry, s.clock)
    case TestingDeadline(_, seen) => SeenOk(s, seen) && ExpiredBy(c, seen.entry, s.clock)
    case Sleeping(_, seen, _) => SeenOk(s, seen)
    case Deciding(deadline, seen) =>
      && SeenOk(s, seen)
      && ExpiredBy(c, seen.entry, s.clock)
      && (UnlockedBy(c, seen.entry, s.clock) || deadline <= s.clock)
    case Claiming(deadline, seen, entry) =>
      && SeenOk(s, seen)
      && 0 < entry.lockedAt <= s.clock
      && entry == BuildClaim(seen.entry, n, entry.lockedAt)
      && ExpiredBy(c, seen.entry, entry.lockedAt)
      && (UnlockedBy(c, seen.entry, entry.lockedAt) || deadline <= entry.lockedAt)
    case Claimed(seen, claim) => ClaimFrom(s, n, seen, claim)
    case Calling(seen, claim) => ClaimFrom(s, n, seen, claim)
    case Stamping(r, claim) => ClaimHeld(s, n, claim) && Answer(n, claim, r) in s.answers
    case Publishing(r, at, claim) =>
      && ClaimHeld(s, n, claim)
      && Answer(n, claim, r) in s.answers
      && s.writes[claim - 1].entry.lockedAt <= at <= s.clock
    case Releasing(seen, claim) => ClaimFrom(s, n, seen, claim)
    case _ => true
  }

  /** No stored instant lies in the future. */
  ghost predicate StampsPast(s: State) {
    forall i :: 0 <= i < |s.writes| ==> s.writes[i].entry.fetchedAt <= s.clock && s.writes[i].entry.lockedAt <= s.clock
  }

  /** Each published response was answered upstream to the node that published it, under its claim. */
  ghost predicate Provenance(s: State) {
    forall i :: 0 <= i < |s.writes| && s.writes[i].kind.Publish? ==>
      s.writes[i].entry.response.Some? &&
      Answer(s.writes[i].node, s.writes[i].kind.claim, s.writes[i].entry.response.value) in s.answers
  }

  ghost predicate Inv(c: Config, s: State) {
    && s.clock > 0
    && HistoryOk(c, s.writes)
    && StampsPast(s)
    && Provenance(s)
    && (forall n :: n in s.nodes ==> PhaseOk(c, s, n, s.nodes[n]))
  }

  // ----- preservation -----

  lemma HistoryExtends(c: Config, writes: seq<Write>, w: Write)
    requires HistoryOk(c, writes)
    requires WriteOk(c, writes + [w], |writes|)
    ensures HistoryOk(c, writes + [w])
  {
    var writes' := writes + [w];
    forall i | 0 <= i < |writes'| ensures WriteOk(c, writes', i) {
      if i < |writes| {
        assert WriteOk(c, writes, i);
        assert writes'[i] == writes[i];
        assert i > 0 ==> writes'[i - 1] == writes[i - 1];
        assert i > 1 ==> writes'[i - 2] == writes[i - 2];
      }
    }
  }

  /** A node that does not move keeps its local invariant while the others append and the clock runs. */
  lemma PhaseStable(c: Config, s: State, s': State, n: Node, p: Phase)
    requires PhaseOk(c, s, n, p)
    requires s.clock <= s'.clock && s.writes <= s'.writes
    requires forall a :: a in s.answers ==> a in s'.answers
    ensures PhaseOk(c, s', n, p)
  {
  }

  /** The state change of an action, seen from the moving node: everything else only grows. */
  lemma InvAfterMove(c: Config, s: State, s': State, n: Node, p: Phase)
    requires Inv(c, s)
    requires s'.nodes == s.nodes[n := p]
    requires s.clock == s'.clock && s.writes == s'.writes
    requires s.answers <= s'.answers
    requires PhaseOk(c, s', n, p)
    ensures Inv(c, s')
  {
    forall m | m in s'.nodes ensures PhaseOk(c, s', m, s'.nodes[m]) {
      if m != n { PhaseStable(c, s, s', m, s.nodes[m]); }
    }
    assert Provenance(s') by {
      forall i | 0 <= i < |s'.writes| && s'.writes[i].kind.Publish?
        ensures s'.writes[i].entry.response.Some? &&
                Answer(s'.writes[i].node, s'.writes[i].kind.claim, s'.writes[i].entry.response.value) in s'.answers
      {
        assert s.writes[i] == s'.writes[i];
      }
    }
  }

  lemma InvAfterWrite(c: Config, s: State, w: Write, n: Node, p: Phase)
    requires Inv(c, s)
    requires WriteOk(c, s.writes + [w], |s.writes|)
    requires w.entry.fetchedAt <= s.clock && w.entry.lockedAt <= s.clock
    requires w.kind.Publish? ==>
               w.entry.response.Some? && Answer(w.node, w.kind.claim, w.entry.response.value) in s.answers
    requires PhaseOk(c, s.(writes := s.writes + [w]), n, p)
    ensures Inv(c, Put(s.(writes := s.writes + [w]), n, p))
  {
    var t := s.(writes := s.writes + [w]);
    HistoryExtends(c, s.writes, w);
    forall m | m in t.nodes ensures PhaseOk(c, t, m, t.nodes[m]) {
      PhaseStable(c, s, t, m, s.nodes[m]);
    }
    assert StampsPast(t) && Provenance(t);
    InvAfterMove(c, t, Put(t, n, p), n, p);
  }

  lemma InvTick(c: Config, s: State, d: nat)
    requires Inv(c, s)
    ensures Inv(c, Next(c, s, Tick(d)))
  {
    var s' := Next(c, s, Tick(d));
    forall m | m in s'.nodes ensures PhaseOk(c, s', m, s'.nodes[m]) {
      PhaseStable(c, s, s', m, s.nodes[m]);
    }
  }

  lemma InvWriteClaim(c: Config, s: State, n: Node, io: IO)
    requires Inv(c, s) && Enabled(s, WriteClaim(n, io))
    ensures Inv(c, Next(c, s, WriteClaim(n, io)))
  {
    var p := PhaseOf(s, n);
    assert PhaseOk(c, s, n, p);
    var s' := Next(c, s, WriteClaim(n, io));
    if p.seen.version == |s.writes| && (io.Acked? || io.applied) {
      var w := Write(n, p.entry, Claim(p.seen.version, p.deadline));
      assert EntryAt(s.writes + [w], |s.writes|) == EntryAt(s.writes, |s.writes|);
      assert WriteOk(c, s.writes + [w], |s.writes|);
      InvAfterWrite(c, s, w, n, PhaseOf(s', n));
    } else {
      InvAfterMove(c, s, s', n, PhaseOf(s', n));
    }
  }

  lemma InvWriteResult(c: Config, s: State, n: Node, io: IO)
    requires Inv(c, s) && Enabled(s, WriteResult(n, io))
    ensures Inv(c, Next(c, s, WriteResult(n, io)))
  {
    var p := PhaseOf(s, n);
    assert PhaseOk(c, s, n, p);
    var s' := Next(c, s, WriteResult(n, io));
    if p.claim == |s.writes| && (io.Acked? || io.applied) {
      var w := if p.Publishing? then Write(n, Published(p.response, p.at), Publish(p.claim))
               else Write(n, Released(p.seen.entry), Release(p.claim));
      assert (s.writes + [w])[|s.writes| - 1] == s.writes[|s.writes| - 1];
      assert EntryAt(s.writes + [w], |s.writes| - 1) == EntryAt(s.writes, |s.writes| - 1);
      assert WriteOk(c, s.writes + [w], |s.writes|);
      InvAfterWrite(c, s, w, n, PhaseOf(s', n));
    } else {
      InvAfterMove(c, s, s', n, PhaseOf(s', n));
    }
  }

  /** Actions that move one node and write nothing. */
  predicate Local(a: Action) {
    !a.Tick? && !a.WriteClaim? && !a.WriteResult?
  }

  lemma LocalFrame(c: Config, s: State, a: Action)
    requires Local(a) && Enabled(s, a)
    ensures Next(c, s, a).nodes == s.nodes[a.n := PhaseOf(Next(c, s, a), a.n)]
    ensures Next(c, s, a).clock == s.clock && Next(c, s, a).writes == s.writes
    ensures s.answers <= Next(c, s, a).answers
  {
  }

  /** The tests and waits of the loop in Current. */
  lemma LoopPhase(c: Config, s: State, a: Action)
    requires Inv(c, s) && Local(a) && Enabled(s, a)
    requires !a.CallUpstream? && !a.Reply? && !a.StampResult?
    ensures PhaseOk(c, Next(c, s, a), a.n, PhaseOf(Next(c, s, a), a.n))
  {
    assert a.n in s.nodes ==> PhaseOk(c, s, a.n, s.nodes[a.n]);
  }

  /** The steps of refreshAndPublish before its write. */
  lemma RefreshPhase(c: Config, s: State, a: Action)
    requires Inv(c, s) && Enabled(s, a)
    requires a.CallUpstream? || a.Reply? || a.StampResult?
    ensures PhaseOk(c, Next(c, s, a), a.n, PhaseOf(Next(c, s, a), a.n))
  {
    var p, s' := PhaseOf(s, a.n), Next(c, s, a);
    assert PhaseOk(c, s, a.n, p);
    if a.Reply? && a.reply.Ok? {
      assert s'.answers[|s.answers|] == Answer(a.n, p.claim, a.reply.value);
    }
    if a.StampResult? {
      assert s.writes[p.claim - 1].entry.lockedAt <= s.clock;
    }
  }

  lemma InvStep(c: Config, s: State, a: Action)
    requires Inv(c, s) && Enabled(s, a)
    ensures Inv(c, Next(c, s, a))
  {
    if a.Tick? {
      InvTick(c, s, a.d);
    } else if a.WriteClaim? {
      InvWriteClaim(c, s, a.n, a.io);
    } else if a.WriteResult? {
      InvWriteResult(c, s, a.n, a.io);
    } else {
      LocalFrame(c, s, a);
      if a.CallUpstream? || a.Reply? || a.StampResult? {
        RefreshPhase(c, s, a);
      } else {
        LoopPhase(c, s, a);
      }
      InvAfterMove(c, s, Next(c, s, a), a.n, PhaseOf(Next(c, s, a), a.n));
    }
  }

  lemma {:induction false} InvRun(c: Config, s: State, run: seq<Action>)
    requires Inv(c, s) && IsRun(c, s, run)
    ensures Inv(c, After(c, s, run))
    decreases |run|
  {
    if run != [] {
      InvStep(c, s, run[0]);
      InvRun(c, Next(c, s, run[0]), run[1..]);
    }
  }
}
