/**
  What a tick comes to, told from the registry's answer, the state and what the environment
  answered, without the conditions of TickModel: every tick is ignored, blocked, skipped,
  carried through, or broken off at a step that failed.
 */
module TickOutcomes {
  import opened Basics
  import opened CacheKeys
  import opened Releases
  import opened TickModel
  import opened TickSafety

  /** An answer for this node's slot. */
  predicate ForUs(c: Settings, t: Tick) {
    match t.answer
    case Answered(res) => c.slot == "" || res.slot == c.slot
    case _ => false
  }

  /** Nothing to deploy changes nothing; it is an error unless the slot is another's or the artifact is
      missing less than 30 minutes after a known release time. */
  lemma IgnoredTick(c: Settings, s: State, t: Tick)
    requires !ForUs(c, t)
    ensures Next(c, s, t) == s
    ensures Fails(c, s, t) <==>
            t.answer == Error || t.answer == NotFound(None) ||
            (t.answer.NotFound? && t.answer.age.Some? && t.answer.age.value >= 30 * 60 * 1_000_000_000)
  {
  }

  /** Without a listing of the cache nothing is done, and that is an error. */
  lemma BlockedTick(c: Settings, s: State, t: Tick)
    requires ForUs(c, t) && !t.listOk
    ensures Next(c, s, t) == s && Fails(c, s, t)
  {
  }

  /** The artifact is cached under the key of the response. */
  predicate Present(s: State, t: Tick)
    requires t.answer.Answered?
  {
    KeyOf(t.answer.res.tag, t.answer.res.artifactURL) in s.cache
  }

  /** The cache was read to say that the response is the current one. */
  predicate ReadAsCurrent(s: State, t: Tick)
    requires t.answer.Answered?
  {
    && t.readCurrentOk && CURRENT_KEY in s.cache
    && s.cache[CURRENT_KEY] == KeyOf(t.answer.res.tag, t.answer.res.artifactURL)
  }

  predicate Idles(c: Settings, s: State, t: Tick)
    requires t.answer.Answered?
  {
    Present(s, t) && ReadAsCurrent(s, t) && (c.command == ASSETS || s.running)
  }

  lemma ReadAsCurrentExactly(s: State, t: Tick)
    requires t.answer.Answered?
    ensures ReadAsCurrent(s, t) <==> CurrentRead(s, t) == Key(t)
  {
    assert |Key(t)| >= 2;
  }

  /** The current response is left alone by an assets command and under a running server. */
  lemma SkippedTick(c: Settings, s: State, t: Tick)
    requires ForUs(c, t) && t.listOk && Idles(c, s, t)
    ensures Next(c, s, t) == s && !Fails(c, s, t)
  {
    ReadAsCurrentExactly(s, t);
  }

  /** Each step on the way to extraction answers: for a cached artifact the take-over of the current key,
      if it is not read as such, and the read; otherwise the download and the two writes. */
  predicate Fetchable(s: State, t: Tick)
    requires t.answer.Answered?
  {
    if Present(s, t) then (ReadAsCurrent(s, t) || t.takeOk) && t.readArtifactOk
    else (s.artifact.Some? || t.newOk) && t.body.Some? && t.writeArtifactOk && t.writeCurrentOk
  }

  predicate Swappable(t: Tick) { t.mkdirOk && t.extractOk && t.symlinkOk && t.renameOk }

  /** A response for this slot that is not skipped, with every step answering, is deployed: the link
      leads to the new directory, the version is the tag, the current key names the cached artifact, and
      unless the server cannot be started or restarted the server runs and there is no error. */
  lemma GoodTickDeploys(c: Settings, s: State, t: Tick)
    requires ForUs(c, t) && t.listOk && !Idles(c, s, t) && Fetchable(s, t) && Swappable(t)
    ensures var s', res := Next(c, s, t), t.answer.res;
            var key := KeyOf(res.tag, res.artifactURL);
            && s'.link == Some(t.dir) && s'.cVer == res.tag
            && CURRENT_KEY in s'.cache && s'.cache[CURRENT_KEY] == key && key in s'.cache
            && (if Present(s, t) then s'.cache[key] == s.cache[key] else s'.cache[key] == t.body.value)
            && (s'.running <==> s.running || (c.command == SERVER && t.serverOk))
            && (Fails(c, s, t) <==> c.command == SERVER && !t.serverOk)
  {
    ReadAsCurrentExactly(s, t);
    KeyIsNotCurrent(t.answer.res);
  }

  /** If a step before the swap fails, link and version stay as they were, the server is not touched, and
      it is an error. */
  lemma BrokenTickKeepsLink(c: Settings, s: State, t: Tick)
    requires ForUs(c, t) && t.listOk && !Idles(c, s, t) && !(Fetchable(s, t) && Swappable(t))
    ensures Next(c, s, t).link == s.link && Next(c, s, t).cVer == s.cVer && Next(c, s, t).running == s.running
    ensures Fails(c, s, t)
  {
    ReadAsCurrentExactly(s, t);
  }

  /** What a tick that is not skipped does to the cache: a cached artifact is at most made current; an
      artifact that is not cached is stored as downloaded, and then made current, each only if its write
      succeeds. */
  lemma CacheAfterTick(c: Settings, s: State, t: Tick)
    requires ForUs(c, t) && t.listOk && !Idles(c, s, t)
    ensures var key := KeyOf(t.answer.res.tag, t.answer.res.artifactURL);
            Next(c, s, t).cache ==
              if Present(s, t) then
                if !ReadAsCurrent(s, t) && t.takeOk then s.cache[CURRENT_KEY := key] else s.cache
              else if (s.artifact.Some? || t.newOk) && t.body.Some? && t.writeArtifactOk then
                if t.writeCurrentOk then s.cache[key := t.body.value][CURRENT_KEY := key] else s.cache[key := t.body.value]
              else s.cache
  {
    ReadAsCurrentExactly(s, t);
  }

  /** A release directory is gone after a tick exactly when the tick deployed, the server is served, the
      directory is listed, can be statted, has at least seven newer ones by rank, and its turn came before a
      removal failed. */
  lemma PrunedExactly(c: Settings, s: State, t: Tick, d: string)
    requires ForUs(c, t) && t.listOk && !Idles(c, s, t) && Fetchable(s, t) && Swappable(t)
    requires Lists(t.listing, Unpruned(c, s, t)) && (d == t.dir || d in s.releases)
    ensures var e := Entry(d, Unpruned(c, s, t)[d].modTime);
            var rank := CountBefore(Stat(t.listing), e);
            d !in Next(c, s, t).releases <==>
              && (c.command == SERVER ==> t.serverOk) && t.readDirOk
              && DirEntry(d, Some(e.modTime)) in t.listing && 7 <= rank < 7 + t.removals
  {
    ReadAsCurrentExactly(s, t);
    DirRemovedExactly(Unpruned(c, s, t), t, d);
  }
}
