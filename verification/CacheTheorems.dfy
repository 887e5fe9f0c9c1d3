/**
  Safety of the shared registry cache over whole runs: fencing, spacing of publishes,
  and the monotonicity and provenance of what is stored.
 */
module CacheTheorems {
  import opened CacheEntry
  import opened CacheProtocol
  import opened CacheSafety

  ghost predicate Reachable(c: Config, s: State) {
    exists s0, run :: Init(s0) && IsRun(c, s0, run) && After(c, s0, run) == s
  }

  lemma ReachableInv(c: Config, s: State)
    requires Reachable(c, s)
    ensures Inv(c, s)
  {
    var s0, run :| Init(s0) && IsRun(c, s0, run) && After(c, s0, run) == s;
    InvRun(c, s0, run);
  }

  // ----- facts about well-formed histories -----

  /** From version v on, the response seen at v is never dropped and its stamp never goes back. */
  lemma {:induction false} HistoryMonotone(c: Config, writes: seq<Write>, v: nat, u: nat)
    requires HistoryOk(c, writes) && 1 <= v <= u <= |writes|
    ensures writes[v - 1].entry.fetchedAt <= writes[u - 1].entry.fetchedAt
    ensures writes[v - 1].entry.response.Some? ==> writes[u - 1].entry.response.Some?
    decreases u
  {
    if v < u {
      HistoryMonotone(c, writes, v, u - 1);
      assert WriteOk(c, writes, u - 1);
      StepMonotone(c, writes, u - 1);
    }
  }

  /** Without a response there is no stamp either. */
  lemma {:induction false} NoResponseNoStamp(c: Config, writes: seq<Write>, i: nat)
    requires HistoryOk(c, writes) && i < |writes| && writes[i].entry.response.None?
    ensures writes[i].entry.fetchedAt == 0
    decreases i
  {
    assert WriteOk(c, writes, i);
    if i > 0 {
      assert WriteOk(c, writes, i - 1);
      if writes[i].kind.Claim? { NoResponseNoStamp(c, writes, i - 1); }
      if writes[i].kind.Release? && i > 1 { NoResponseNoStamp(c, writes, i - 2); }
    }
  }

  /** One write: claims and releases keep response and stamp, a publish moves the stamp forward. */
  lemma StepMonotone(c: Config, writes: seq<Write>, i: nat)
    requires HistoryOk(c, writes) && 0 < i < |writes|
    ensures writes[i - 1].entry.fetchedAt <= writes[i].entry.fetchedAt
    ensures writes[i - 1].entry.response.Some? ==> writes[i].entry.response.Some?
    ensures !writes[i].kind.Publish? ==>
              writes[i].entry.response == writes[i - 1].entry.response &&
              writes[i].entry.fetchedAt == writes[i - 1].entry.fetchedAt
    ensures writes[i].kind.Publish? && writes[i - 1].entry.response.Some? ==>
              writes[i - 1].entry.fetchedAt + c.ttl <= writes[i].entry.fetchedAt
  {
    assert WriteOk(c, writes, i);
    assert WriteOk(c, writes, i - 1);
    if writes[i - 1].entry.response.None? { NoResponseNoStamp(c, writes, i - 1); }
  }

  lemma HistorySpacing(c: Config, writes: seq<Write>, i: nat, j: nat)
    requires HistoryOk(c, writes) && i < j < |writes|
    requires writes[i].kind.Publish? && writes[j].kind.Publish?
    ensures writes[i].entry.fetchedAt + c.ttl <= writes[j].entry.fetchedAt
  {
    assert WriteOk(c, writes, i);
    HistoryMonotone(c, writes, i + 1, j);
    StepMonotone(c, writes, j);
  }

  /** A stored response comes from a publish at or before that version. */
  lemma {:induction false} HistorySource(c: Config, writes: seq<Write>, v: nat) returns (i: nat)
    requires HistoryOk(c, writes) && 1 <= v <= |writes|
    requires writes[v - 1].entry.response.Some?
    ensures i < v && writes[i].kind.Publish? && writes[i].entry.response == writes[v - 1].entry.response
    ensures writes[i].entry.fetchedAt == writes[v - 1].entry.fetchedAt
    decreases v
  {
    assert WriteOk(c, writes, v - 1);
    if writes[v - 1].kind.Publish? {
      i := v - 1;
    } else {
      StepMonotone(c, writes, v - 1);
      i := HistorySource(c, writes, v - 1);
    }
  }

  // ----- theorems over runs -----

  /** In every run, any two publishes carry stamps at least ttl apart. */
  lemma PublishSpacing(c: Config, s: State, i: nat, j: nat)
    requires Reachable(c, s)
    requires i < j < |s.writes| && s.writes[i].kind.Publish? && s.writes[j].kind.Publish?
    ensures s.writes[i].entry.fetchedAt + c.ttl <= s.writes[j].entry.fetchedAt
  {
    ReachableInv(c, s);
    HistorySpacing(c, s.writes, i, j);
  }

  lemma {:induction false} HistoryGrows(c: Config, s: State, run: seq<Action>)
    requires IsRun(c, s, run)
    ensures s.writes <= After(c, s, run).writes && s.clock <= After(c, s, run).clock
    ensures s.answers <= After(c, s, run).answers
    decreases |run|
  {
    if run != [] { HistoryGrows(c, Next(c, s, run[0]), run[1..]); }
  }

  /** Along every run the entry stays present once written, its stamp never decreases and a
      stored response is never dropped. */
  lemma StoredMonotone(c: Config, s: State, run: seq<Action>)
    requires Reachable(c, s) && IsRun(c, s, run) && Latest(s).Some?
    ensures var s' := After(c, s, run);
            && Latest(s').Some?
            && Latest(s).value.fetchedAt <= Latest(s').value.fetchedAt
            && (Latest(s).value.response.Some? ==> Latest(s').value.response.Some?)
  {
    ReachableInv(c, s);
    InvRun(c, s, run);
    HistoryGrows(c, s, run);
    var s' := After(c, s, run);
    HistoryMonotone(c, s'.writes, |s.writes|, |s'.writes|);
  }

  /** Every stored response was returned by an upstream call made under a claim: the claim is
      write number k, the node that took it got the answer, and its publish is write k + 1. */
  lemma StoredProvenance(c: Config, s: State) returns (k: nat)
    requires Reachable(c, s) && Latest(s).Some? && Latest(s).value.response.Some?
    ensures 1 <= k < |s.writes|
    ensures s.writes[k - 1].kind.Claim? && s.writes[k].kind == Publish(k)
    ensures s.writes[k - 1].node == s.writes[k].node
    ensures s.writes[k].entry.response == Latest(s).value.response
    ensures Answer(s.writes[k - 1].node, k, Latest(s).value.response.value) in s.answers
  {
    ReachableInv(c, s);
    k := HistorySource(c, s.writes, |s.writes|);
    assert WriteOk(c, s.writes, k);
  }

  function ClaimOf(p: Phase): nat
    requires Refreshing(p)
  {
    p.claim
  }

  /** At most one refreshing node's claim is the current version. */
  lemma FencingTokenUnique(c: Config, s: State, n: Node, m: Node)
    requires Reachable(c, s)
    requires Refreshing(PhaseOf(s, n)) && ClaimOf(PhaseOf(s, n)) == |s.writes|
    requires Refreshing(PhaseOf(s, m)) && ClaimOf(PhaseOf(s, m)) == |s.writes|
    ensures n == m
  {
    ReachableInv(c, s);
    assert PhaseOk(c, s, n, s.nodes[n]) && PhaseOk(c, s, m, s.nodes[m]);
  }

  /** A publish or release reaches the store exactly when no write was made since the
      writer's own claim; a fenced-off one leaves the store as it was. */
  lemma FencedWrite(c: Config, s: State, n: Node, io: IO)
    requires Reachable(c, s) && Enabled(s, WriteResult(n, io))
    ensures var s' := Next(c, s, WriteResult(n, io));
            var claim := ClaimOf(PhaseOf(s, n));
            && 1 <= claim <= |s.writes|
            && (s'.writes != s.writes <==> claim == |s.writes| && io != Failed(false))
            && (s'.writes != s.writes ==>
                  && s'.writes[..|s.writes|] == s.writes && |s'.writes| == |s.writes| + 1
                  && s.writes[|s.writes| - 1].node == n && s.writes[|s.writes| - 1].kind.Claim?)
  {
    ReachableInv(c, s);
    assert PhaseOk(c, s, n, s.nodes[n]);
    var s' := Next(c, s, WriteResult(n, io));
    if s'.writes != s.writes {
      assert s'.writes[..|s.writes|] == s.writes;
    } else {
      assert |s'.writes| == |s.writes|;
    }
  }

  /** Who may take a locked entry over: a claim written directly on another node's claim was
      stamped once that lock had reached lockTTL, or once the claimer's own call, begun
      lockTTL + wait before its deadline, had run into that deadline. */
  lemma TakeoverCondition(c: Config, s: State, i: nat)
    requires Reachable(c, s)
    requires 0 < i < |s.writes| && s.writes[i].kind.Claim? && s.writes[i - 1].kind.Claim?
    ensures s.writes[i - 1].entry.lockedAt + c.lockTTL <= s.writes[i].entry.lockedAt
            || s.writes[i].kind.deadline <= s.writes[i].entry.lockedAt
  {
    ReachableInv(c, s);
    assert WriteOk(c, s.writes, i) && WriteOk(c, s.writes, i - 1);
  }
}
