/** What every run of ticks keeps. */
module TickSafety {
  import opened Basics
  import opened CacheKeys
  import opened Releases
  import opened TickModel

  /** Between ticks: the current key is absent or names a cached artifact, and no download is pending. */
  predicate Inv(s: State) {
    && (CURRENT_KEY in s.cache ==> s.cache[CURRENT_KEY] in s.cache && s.cache[CURRENT_KEY] != CURRENT_KEY)
    && s.artifact.None?
  }

  lemma KeyFree(c: Settings, s: State, t: Tick)
    ensures t.answer.Answered? ==> Key(t) != CURRENT_KEY
  {
    if t.answer.Answered? { KeyIsNotCurrent(t.answer.res); }
  }

  lemma InvStep(c: Settings, s: State, e: Event)
    requires Inv(s)
    ensures Inv(Apply(c, s, e))
  {
    if e.Ticks? { KeyFree(c, s, e.t); }
  }

  lemma {:induction false} InvRun(c: Settings, s: State, es: seq<Event>)
    requires Inv(s)
    ensures Inv(After(c, s, es))
  {
    if es != [] {
      InvRun(c, s, es[..|es| - 1]);
      InvStep(c, After(c, s, es[..|es| - 1]), es[|es| - 1]);
    }
  }

  // ----- no artifact is stored twice, none changes -----

  /** Every artifact of s is in s' unchanged. */
  ghost predicate Keeps(s: State, s': State) {
    forall k :: k in s.cache && k != CURRENT_KEY ==> k in s'.cache && s'.cache[k] == s.cache[k]
  }

  lemma KeepsStep(c: Settings, s: State, e: Event)
    ensures Keeps(s, Apply(c, s, e))
  {
    if e.Ticks? { KeyFree(c, s, e.t); }
  }

  lemma {:induction false} KeepsRun(c: Settings, s: State, es: seq<Event>)
    ensures Keeps(s, After(c, s, es))
  {
    if es != [] {
      KeepsRun(c, s, es[..|es| - 1]);
      KeepsStep(c, After(c, s, es[..|es| - 1]), es[|es| - 1]);
    }
  }

  /** A downloaded artifact: the key it was stored under and the URL it came from. */
  datatype Stored = Stored(key: string, url: string)

  function StoredBy(c: Settings, s: State, e: Event): seq<Stored> {
    if e.Ticks? && Stores(c, s, e.t) then
      [Stored(Key(e.t), if s.artifact.Some? then s.artifact.value else e.t.answer.res.artifactURL)]
    else []
  }

  /** The artifacts downloaded and stored in a run, in order. */
  function Downloads(c: Settings, s: State, es: seq<Event>): seq<Stored> {
    if es == [] then []
    else
      var before := es[..|es| - 1];
      Downloads(c, s, before) + StoredBy(c, After(c, s, before), es[|es| - 1])
  }

  lemma {:induction false} DownloadedIsCached(c: Settings, s: State, es: seq<Event>)
    ensures forall d :: d in Downloads(c, s, es) ==> d.key in After(c, s, es).cache && d.key !in s.cache && d.key != CURRENT_KEY
  {
    if es != [] {
      var p, e := es[..|es| - 1], es[|es| - 1];
      DownloadedIsCached(c, s, p);
      KeepsStep(c, After(c, s, p), e);
      KeepsRun(c, s, p);
      if e.Ticks? { KeyFree(c, s, e.t); }
    }
  }

  predicate DistinctKeys(ds: seq<Stored>) {
    forall i, j :: 0 <= i < j < |ds| ==> ds[i].key != ds[j].key
  }

  lemma AppendDistinct(ds: seq<Stored>, more: seq<Stored>)
    requires DistinctKeys(ds) && |more| <= 1
    requires forall d, d' :: d in ds && d' in more ==> d.key != d'.key
    ensures DistinctKeys(ds + more)
  {
    forall i, j | 0 <= i < j < |ds + more| ensures (ds + more)[i].key != (ds + more)[j].key {
      if j == |ds| { assert ds[i] in ds && more[0] in more; }
    }
  }

  /** No key is downloaded and stored twice in a run. */
  lemma {:induction false} NoKeyStoredTwice(c: Settings, s: State, es: seq<Event>)
    ensures DistinctKeys(Downloads(c, s, es))
  {
    if es != [] {
      var p, e := es[..|es| - 1], es[|es| - 1];
      NoKeyStoredTwice(c, s, p);
      DownloadedIsCached(c, s, p);
      AppendDistinct(Downloads(c, s, p), StoredBy(c, After(c, s, p), e));
    }
  }

  /** Some tick of the run was answered with res. */
  ghost predicate AnsweredIn(es: seq<Event>, res: CurrentResponse) {
    exists i :: 0 <= i < |es| && es[i].Ticks? && es[i].t.answer == Answered(res)
  }

  lemma AnsweredSnoc(es: seq<Event>, e: Event, res: CurrentResponse)
    requires AnsweredIn(es, res) || (e.Ticks? && e.t.answer == Answered(res))
    ensures AnsweredIn(es + [e], res)
  {
    if AnsweredIn(es, res) {
      var i :| 0 <= i < |es| && es[i].Ticks? && es[i].t.answer == Answered(res);
      assert (es + [e])[i].t.answer == Answered(res);
    } else {
      assert (es + [e])[|es|].t.answer == Answered(res);
    }
  }

  /** Every stored artifact came from the URL of a response with that key. */
  lemma {:induction false} DownloadProvenance(c: Settings, s: State, es: seq<Event>, d: Stored)
    requires Inv(s) && d in Downloads(c, s, es)
    ensures exists res :: AnsweredIn(es, res) && d == Stored(CacheKey(res), res.artifactURL)
  {
    var p, e := es[..|es| - 1], es[|es| - 1];
    assert es == p + [e];
    InvRun(c, s, p);
    if d in Downloads(c, s, p) {
      DownloadProvenance(c, s, p, d);
      var res :| AnsweredIn(p, res) && d == Stored(CacheKey(res), res.artifactURL);
      AnsweredSnoc(p, e, res);
    } else {
      AnsweredSnoc(p, e, e.t.answer.res);
    }
  }

  // ----- the link -----

  /** Some tick of the run swapped the link. */
  predicate Linked(c: Settings, s: State, es: seq<Event>) {
    es != [] && (Linked(c, s, es[..|es| - 1]) || (es[|es| - 1].Ticks? && Links(c, After(c, s, es[..|es| - 1]), es[|es| - 1].t)))
  }

  /** The directory listing of a pruning tick shows the directories there are, each once. */
  ghost predicate Lists(listing: seq<DirEntry>, releases: map<string, Release>) {
    && DistinctNames(listing)
    && (forall f :: f in listing ==> f.name in releases)
    && (forall f :: f in listing && f.info.Some? && f.name in releases ==> f.info.value == releases[f.name].modTime)
  }

  /** How many listed directories rank before the one just extracted. */
  function RankOf(t: Tick): nat {
    CountBefore(Stat(t.listing), Entry(t.dir, t.modTime))
  }

  /** Pruning does not reach the directory just extracted: it cannot be statted, it is among the
      first KEEP_RELEASES, or a removal fails before its turn. */
  predicate Spared(t: Tick) {
    DirEntry(t.dir, Some(t.modTime)) in t.listing ==> RankOf(t) < KEEP_RELEASES || KEEP_RELEASES + t.removals <= RankOf(t)
  }

  /** The directories after the extraction of a tick. */
  function Unpruned(c: Settings, s: State, t: Tick): map<string, Release> {
    Extracted(s.releases, t, Get(NextCache(c, s, t), Key(t), ""))
  }

  /** A pruning tick sees a truthful listing and spares the release it links. */
  ghost predicate Honest(c: Settings, s: State, e: Event) {
    e.Ticks? && Prunes(c, s, e.t) ==> Lists(e.t.listing, Unpruned(c, s, e.t)) && Spared(e.t)
  }

  ghost predicate HonestRun(c: Settings, s: State, es: seq<Event>) {
    es == [] || (HonestRun(c, s, es[..|es| - 1]) && Honest(c, After(c, s, es[..|es| - 1]), es[|es| - 1]))
  }

  /** What a deployed state looks like: the link leads to a release into which the artifact cached
      for the tag cVer was completely extracted. */
  ghost predicate Deployed(s: State, res: CurrentResponse) {
    && s.cVer == res.tag && s.link.Some? && s.link.value in s.releases && CacheKey(res) in s.cache
    && Extraction(CacheKey(res), s.cache[CacheKey(res)], true) in s.releases[s.link.value].extractions
  }

  /** A directory is removed exactly when it is listed with its modification time and its rank is reached. */
  lemma DirRemovedExactly(releases: map<string, Release>, t: Tick, d: string)
    requires Lists(t.listing, releases) && d in releases
    ensures var e := Entry(d, releases[d].modTime);
            var rank := CountBefore(Stat(t.listing), e);
            d in Removed(t) <==>
              DirEntry(d, Some(e.modTime)) in t.listing && KEEP_RELEASES <= rank < KEEP_RELEASES + t.removals
  {
    var stale, e := Stale(t.listing, KEEP_RELEASES), Entry(d, releases[d].modTime);
    var rank := CountBefore(Stat(t.listing), e);
    forall i | 0 <= i < |stale| && stale[i].name == d
      ensures stale[i] == e && rank == KEEP_RELEASES + i && DirEntry(d, Some(e.modTime)) in t.listing
    {
      StaleExactly(t.listing, KEEP_RELEASES, stale[i]);
      StaleRank(t.listing, KEEP_RELEASES, i);
    }
    StaleExactly(t.listing, KEEP_RELEASES, e);
    if DirEntry(d, Some(e.modTime)) in t.listing && KEEP_RELEASES <= rank < KEEP_RELEASES + t.removals {
      var i :| 0 <= i < |stale| && stale[i] == e;
      assert Names(stale)[i] == d;
    }
  }

  /** The release just linked survives the pruning of its own tick exactly when it is spared. */
  lemma NewReleaseSurvives(c: Settings, s: State, t: Tick)
    requires Links(c, s, t) && (Prunes(c, s, t) ==> Lists(t.listing, Unpruned(c, s, t)))
    ensures t.dir in NextReleases(c, s, t) <==> (Prunes(c, s, t) ==> Spared(t))
    ensures t.dir in NextReleases(c, s, t) ==> NextReleases(c, s, t)[t.dir] == Unpruned(c, s, t)[t.dir]
  {
    if Prunes(c, s, t) { DirRemovedExactly(Unpruned(c, s, t), t, t.dir); }
  }

  /** A strictly newest directory is spared. */
  lemma NewestIsSpared(releases: map<string, Release>, t: Tick)
    requires Lists(t.listing, releases)
    requires forall d :: d in releases && d != t.dir ==> releases[d].modTime < t.modTime
    ensures Spared(t)
  {
    var stat, e := Stat(t.listing), Entry(t.dir, t.modTime);
    StatMembers(t.listing);
    if DirEntry(t.dir, Some(t.modTime)) in t.listing {
      RankTotal();
      forall i | 0 <= i < |stat| ensures Rank(stat[i], e) >= 0 {
        assert stat[i] in stat;
        assert DirEntry(stat[i].name, Some(stat[i].modTime)) in t.listing;
      }
      CountNone(stat, e);
    }
  }

  lemma StagedIsCached(c: Settings, s: State, t: Tick)
    requires Staged(c, s, t)
    ensures Key(t) in NextCache(c, s, t)
  {
    KeyFree(c, s, t);
  }

  lemma DeployedByLink(c: Settings, s: State, t: Tick)
    requires Links(c, s, t) && Honest(c, s, Ticks(t))
    ensures Deployed(Next(c, s, t), t.answer.res)
  {
    StagedIsCached(c, s, t);
    NewReleaseSurvives(c, s, t);
  }

  lemma DeployedKept(c: Settings, s: State, e: Event, res: CurrentResponse)
    requires Deployed(s, res) && !(e.Ticks? && Links(c, s, e.t))
    ensures Deployed(Apply(c, s, e), res)
  {
    KeepsStep(c, s, e);
    KeyIsNotCurrent(res);
  }

  /** After the first successful deploy of a run, at every later point, the link leads to a release
      extracted from the artifact cached for the tag cVer. */
  lemma {:induction false} LinkIsDeployed(c: Settings, s: State, es: seq<Event>)
    requires HonestRun(c, s, es) && Linked(c, s, es)
    ensures exists res :: AnsweredIn(es, res) && Deployed(After(c, s, es), res)
  {
    var p, e := es[..|es| - 1], es[|es| - 1];
    assert es == p + [e];
    if e.Ticks? && Links(c, After(c, s, p), e.t) {
      DeployedByLink(c, After(c, s, p), e.t);
      AnsweredSnoc(p, e, e.t.answer.res);
    } else {
      LinkIsDeployed(c, s, p);
      var res :| AnsweredIn(p, res) && Deployed(After(c, s, p), res);
      DeployedKept(c, After(c, s, p), e, res);
      AnsweredSnoc(p, e, res);
    }
  }

  // ----- where the linked content comes from -----

  /** Every key of the cache was there at the start, is the current key, or was downloaded. */
  lemma {:induction false} CachedIsKnown(c: Settings, s: State, es: seq<Event>, k: string)
    requires k in After(c, s, es).cache && k != CURRENT_KEY
    ensures k in s.cache || exists d :: d in Downloads(c, s, es) && d.key == k
  {
    if es != [] {
      var p, e := es[..|es| - 1], es[|es| - 1];
      var more := StoredBy(c, After(c, s, p), e);
      if k in After(c, s, p).cache {
        CachedIsKnown(c, s, p, k);
        if d :| d in Downloads(c, s, p) && d.key == k { assert d in Downloads(c, s, es); }
      } else {
        assert more != [] && more[0].key == k && more[0] in Downloads(c, s, es);
      }
    }
  }

  /** No two different tags answered in the run can share a cache key. */
  ghost predicate TagsApart(es: seq<Event>) {
    forall r1, r2 :: AnsweredIn(es, r1) && AnsweredIn(es, r2) && r1.tag != r2.tag ==> !Clash(r1.tag, r2.tag)
  }

  lemma SharedKeyClashes(r1: CurrentResponse, r2: CurrentResponse)
    requires r1.tag != r2.tag && CacheKey(r1) == CacheKey(r2)
    ensures Clash(r1.tag, r2.tag)
  {
    KeysClashExactly(r1.tag, r2.tag);
    assert KeyOf(r1.tag, r1.artifactURL) == KeyOf(r2.tag, r2.artifactURL);
  }

  lemma SameKeySameTag(es: seq<Event>, r1: CurrentResponse, r2: CurrentResponse)
    requires TagsApart(es) && AnsweredIn(es, r1) && AnsweredIn(es, r2) && CacheKey(r1) == CacheKey(r2)
    ensures r1.tag == r2.tag
  {
    if r1.tag != r2.tag { SharedKeyClashes(r1, r2); }
  }

  /** If no two tags answered in the run clash, what the link leads to after the first successful deploy
      was in the cache before the run or was downloaded for the tag cVer. */
  lemma LinkedContentOrigin(c: Settings, s: State, es: seq<Event>) returns (res: CurrentResponse)
    requires Inv(s) && HonestRun(c, s, es) && Linked(c, s, es) && TagsApart(es)
    ensures AnsweredIn(es, res) && Deployed(After(c, s, es), res)
    ensures (CacheKey(res) in s.cache && s.cache[CacheKey(res)] == After(c, s, es).cache[CacheKey(res)]) ||
            exists r :: AnsweredIn(es, r) && r.tag == After(c, s, es).cVer && Stored(CacheKey(res), r.artifactURL) in Downloads(c, s, es)
  {
    LinkIsDeployed(c, s, es);
    res :| AnsweredIn(es, res) && Deployed(After(c, s, es), res);
    KeyIsNotCurrent(res);
    CachedIsKnown(c, s, es, CacheKey(res));
    KeepsRun(c, s, es);
    if CacheKey(res) !in s.cache {
      var d :| d in Downloads(c, s, es) && d.key == CacheKey(res);
      DownloadProvenance(c, s, es, d);
      var r :| AnsweredIn(es, r) && d == Stored(CacheKey(r), r.artifactURL);
      SameKeySameTag(es, r, res);
    }
  }

  // ----- nothing else in the linked release -----

  /** The linked release holds that one extraction and no other. */
  ghost predicate Intact(s: State, res: CurrentResponse) {
    Deployed(s, res) && s.releases[s.link.value].extractions == [Extraction(CacheKey(res), s.cache[CacheKey(res)], true)]
  }

  predicate OneExtraction(s: State) {
    s.link.Some? && |Held(s.releases, s.link.value)| == 1
  }

  lemma IntactIsOne(s: State, res: CurrentResponse)
    requires Deployed(s, res)
    ensures Intact(s, res) <==> OneExtraction(s)
  {
    var held := s.releases[s.link.value].extractions;
    if OneExtraction(s) { assert held == [held[0]]; }
  }

  /** The tick leaves the linked release alone: what it extracts goes elsewhere, and if it swaps the
      link, to a directory that held nothing. */
  predicate LeavesIntact(c: Settings, s: State, e: Event) {
    e.Ticks? && Extracts(c, s, e.t) ==>
      if Links(c, s, e.t) then Held(s.releases, e.t.dir) == [] else s.link != Some(e.t.dir)
  }

  /** One step: after a swap there is one extraction exactly when the directory was empty; without
      one exactly when there was one and the tick did not extract into the linked directory. */
  lemma OneExtractionStep(c: Settings, s: State, e: Event)
    requires Honest(c, s, e)
    ensures e.Ticks? && Links(c, s, e.t) ==> (OneExtraction(Apply(c, s, e)) <==> Held(s.releases, e.t.dir) == [])
    ensures !(e.Ticks? && Links(c, s, e.t)) && (exists res :: Deployed(s, res)) ==>
              (OneExtraction(Apply(c, s, e)) <==> OneExtraction(s) && LeavesIntact(c, s, e))
  {
    if e.Ticks? && Links(c, s, e.t) {
      NewReleaseSurvives(c, s, e.t);
    } else if res :| Deployed(s, res) {
      assert Held(s.releases, s.link.value) != [];
    }
  }

  /** From an intact state the link is intact after a step, for some response, exactly when the step
      leaves the linked release alone. */
  lemma IntactStepExactly(c: Settings, s: State, e: Event, res: CurrentResponse)
    requires Intact(s, res) && Honest(c, s, e)
    ensures (exists r :: Intact(Apply(c, s, e), r)) <==> LeavesIntact(c, s, e)
  {
    IntactIsOne(s, res);
    OneExtractionStep(c, s, e);
    var s' := Apply(c, s, e);
    if e.Ticks? && Links(c, s, e.t) {
      DeployedByLink(c, s, e.t);
      IntactIsOne(s', e.t.answer.res);
    } else {
      DeployedKept(c, s, e, res);
      IntactIsOne(s', res);
    }
    if r :| Intact(s', r) { IntactIsOne(s', r); }
  }

  /** The last swap of the run went to an empty directory, and no tick since extracted into it. */
  predicate CleanSinceLink(c: Settings, s: State, es: seq<Event>) {
    && es != []
    && var before, e := After(c, s, es[..|es| - 1]), es[|es| - 1];
       LeavesIntact(c, before, e) && ((e.Ticks? && Links(c, before, e.t)) || CleanSinceLink(c, s, es[..|es| - 1]))
  }

  lemma {:induction false} OneExtractionRun(c: Settings, s: State, es: seq<Event>)
    requires HonestRun(c, s, es) && Linked(c, s, es)
    ensures OneExtraction(After(c, s, es)) <==> CleanSinceLink(c, s, es)
  {
    var p, e := es[..|es| - 1], es[|es| - 1];
    var before := After(c, s, p);
    OneExtractionStep(c, before, e);
    if !(e.Ticks? && Links(c, before, e.t)) {
      OneExtractionRun(c, s, p);
      LinkIsDeployed(c, s, p);
    }
  }

  /** At any point after the first successful deploy of a run, the linked release holds the artifact
      of cVer and nothing else exactly when the last swap went to an empty directory and nothing was
      extracted into it since. */
  lemma LinkIsIntactExactly(c: Settings, s: State, es: seq<Event>)
    requires HonestRun(c, s, es) && Linked(c, s, es)
    ensures (exists res :: AnsweredIn(es, res) && Intact(After(c, s, es), res)) <==> CleanSinceLink(c, s, es)
  {
    LinkIsDeployed(c, s, es);
    OneExtractionRun(c, s, es);
    var res :| AnsweredIn(es, res) && Deployed(After(c, s, es), res);
    IntactIsOne(After(c, s, es), res);
    if r :| AnsweredIn(es, r) && Intact(After(c, s, es), r) { IntactIsOne(After(c, s, es), r); }
  }

  /** The directory name, a time in seconds, has not been used. */
  predicate FreshDir(c: Settings, s: State, e: Event) {
    e.Ticks? && Extracts(c, s, e.t) ==> e.t.dir !in s.releases && s.link != Some(e.t.dir)
  }

  ghost predicate FreshRun(c: Settings, s: State, es: seq<Event>) {
    es == [] || (FreshRun(c, s, es[..|es| - 1]) && FreshDir(c, After(c, s, es[..|es| - 1]), es[|es| - 1]))
  }

  /** It is enough that no two ticks extract within the same second. */
  lemma {:induction false} FreshIsClean(c: Settings, s: State, es: seq<Event>)
    requires FreshRun(c, s, es) && Linked(c, s, es)
    ensures CleanSinceLink(c, s, es)
  {
    var p, e := es[..|es| - 1], es[|es| - 1];
    if !(e.Ticks? && Links(c, After(c, s, p), e.t)) { FreshIsClean(c, s, p); }
  }

  lemma LinkIsIntact(c: Settings, s: State, es: seq<Event>)
    requires HonestRun(c, s, es) && FreshRun(c, s, es) && Linked(c, s, es)
    ensures exists res :: AnsweredIn(es, res) && Intact(After(c, s, es), res)
  {
    FreshIsClean(c, s, es);
    LinkIsIntactExactly(c, s, es);
  }

  // ----- what a failed extract leads to -----

  /** The tick asks again for the response of key, and the cache can be read. */
  predicate AsksAgain(c: Settings, t: Tick, key: string) {
    Relevant(c, t) && Key(t) == key && t.readCurrentOk && t.listOk
  }

  /** After the tick the current key names the tick's artifact: it did before, or the tick took it
      over or got as far as extracting. */
  predicate Points(c: Settings, s: State, t: Tick) {
    Get(s.cache, CURRENT_KEY, "") == Key(t) || Takes(c, s, t) || Staged(c, s, t)
  }

  /** Whether it failed or not, a tick's work is taken up again by a tick with the same answer
      exactly when the current key does not name the artifact yet, or the command is SERVER and the
      server is down. So a failure to list, download or store, or to write the current key, is
      retried; a failure after that key is written, to read the artifact, extract or swap the link,
      is retried only for a server that is down. */
  lemma RetriedExactly(c: Settings, s: State, t: Tick, again: Tick)
    requires Inv(s) && Relevant(c, t) && AsksAgain(c, again, Key(t))
    ensures Acts(c, Next(c, s, t), again) <==> !Points(c, s, t) || (c.command == SERVER && !Next(c, s, t).running)
  {
    KeyFree(c, s, t);
    PointsExactly(c, s, t);
    InvStep(c, s, Ticks(t));
  }

  lemma PointsExactly(c: Settings, s: State, t: Tick)
    requires Inv(s) && Relevant(c, t)
    ensures Points(c, s, t) <==> Get(Next(c, s, t).cache, CURRENT_KEY, "") == Key(t)
    ensures Points(c, s, t) ==> CURRENT_KEY in Next(c, s, t).cache && Key(t) in Next(c, s, t).cache
  {
    KeyFree(c, s, t);
    assert Key(t) != "" by { assert |Key(t)| >= 2; }
  }

  /** A quiet tick: it asks again for key, or there was no answer to act on. */
  predicate Idle(c: Settings, e: Event, key: string) {
    e.Ticks? && (AsksAgain(c, e.t, key) || !Relevant(c, e.t))
  }

  lemma {:induction false} SettledRun(c: Settings, s: State, key: string, es: seq<Event>)
    requires key in s.cache && CURRENT_KEY in s.cache && s.cache[CURRENT_KEY] == key
    requires c.command == ASSETS || s.running
    requires forall i :: 0 <= i < |es| ==> Idle(c, es[i], key)
    ensures After(c, s, es) == s
  {
    if es != [] {
      SettledRun(c, s, key, es[..|es| - 1]);
      var e := es[|es| - 1];
      assert Idle(c, e, key);
    }
  }

  /** So a deploy that failed once the current key named its artifact is given up for good, without
      further errors, by an assets command or under a running server, for as long as the registry
      keeps its answer. */
  lemma GivenUp(c: Settings, s: State, t: Tick, es: seq<Event>)
    requires Inv(s) && Relevant(c, t) && Points(c, s, t) && !Links(c, s, t) && (c.command == ASSETS || s.running)
    requires forall i :: 0 <= i < |es| ==> Idle(c, es[i], Key(t))
    ensures After(c, Next(c, s, t), es) == Next(c, s, t)
    ensures After(c, Next(c, s, t), es).link == s.link && After(c, Next(c, s, t), es).cVer == s.cVer
    ensures forall i :: 0 <= i < |es| && es[i].Ticks? && AsksAgain(c, es[i].t, Key(t)) ==> !Fails(c, Next(c, s, t), es[i].t)
  {
    PointsExactly(c, s, t);
    SettledRun(c, Next(c, s, t), Key(t), es);
  }

  /** The artifact of a cached release cannot be read right after the current key was taken over. */
  lemma UnreadableIsGivenUp(c: Settings, s: State, t: Tick, again: Tick)
    requires Inv(s) && Takes(c, s, t) && !t.readArtifactOk && c.command == ASSETS && AsksAgain(c, again, Key(t))
    ensures Fails(c, s, t) && !Staged(c, s, t)
    ensures !Acts(c, Next(c, s, t), again) && !Fails(c, Next(c, s, t), again)
  {
    RetriedExactly(c, s, t, again);
  }
}
