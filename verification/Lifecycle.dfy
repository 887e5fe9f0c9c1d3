/**
  The per-tick deploy state machine of the SERVER and ASSETS commands, phase by phase
  (dewy.go Run and runDeploy; lifecycle.go; release.go deploy, preserve and keepReleases). Each
  phase is proved against the conditions of TickModel.
 */
module Lifecycle {
  import opened Basics
  import opened CacheKeys
  import opened Releases
  import opened TickModel

  /** What resolveCacheState tells the later phases. */
  datatype CacheState = CacheState(key: string, foundInCache: bool, skip: bool)

  // ----- the phases after the cache was looked at, as functions of the state -----

  predicate Fetches(s: State, t: Tick) {
    (s.artifact.Some? || t.newOk) && t.body.Some? && t.writeArtifactOk
  }

  function Downloaded(s: State, t: Tick, st: CacheState): State {
    if st.foundInCache then s
    else
      var stored := if Fetches(s, t) then s.cache[st.key := t.body.value] else s.cache;
      s.(artifact := if s.artifact.Some? || t.newOk then None else s.artifact,
         cache := if Fetches(s, t) && t.writeCurrentOk then stored[CURRENT_KEY := st.key] else stored)
  }

  predicate Unpacks(t: Tick) { t.mkdirOk && t.extractOk && t.symlinkOk && t.renameOk }

  function Unpacked(s: State, t: Tick, key: string): State {
    s.(releases := if t.mkdirOk then Extracted(s.releases, t, Get(s.cache, key, "")) else s.releases,
       link := if Unpacks(t) then Some(t.dir) else s.link)
  }

  predicate Served(c: Settings, t: Tick) { c.command == SERVER ==> t.serverOk }

  function Promoted(c: Settings, s: State, t: Tick, tag: string): State {
    s.(cVer := tag,
       running := s.running || (c.command == SERVER && t.serverOk),
       releases := if Served(c, t) && t.readDirOk then s.releases - Removed(t) else s.releases)
  }

  predicate Ready(s: State, t: Tick, st: CacheState) {
    st.foundInCache || (Fetches(s, t) && t.writeCurrentOk)
  }

  function Phases(c: Settings, s: State, t: Tick, st: CacheState, tag: string): State {
    var s1 := Downloaded(s, t, st);
    if !Ready(s, t, st) then s1
    else
      var s2 := Unpacked(s1, t, st.key);
      if Unpacks(t) then Promoted(c, s2, t, tag) else s2
  }

  /** The state after resolveCacheState, and whether that phase fails. */
  function Taken(c: Settings, s: State, t: Tick): State {
    if Takes(c, s, t) then s.(cache := s.cache[CURRENT_KEY := Key(t)]) else s
  }

  predicate Blocked(c: Settings, s: State, t: Tick) {
    !t.listOk || (Acts(c, s, t) && Cached(s, t) && !Staged(c, s, t))
  }

  function Found(c: Settings, s: State, t: Tick): CacheState {
    CacheState(Key(t), Cached(s, t), Skips(c, s, t))
  }

  /** The phases in sequence are the tick of TickModel. */
  lemma PhasesAreNext(c: Settings, s: State, t: Tick)
    requires Relevant(c, t) && !Blocked(c, s, t) && !Skips(c, s, t)
    ensures Next(c, s, t) == Phases(c, Taken(c, s, t), t, Found(c, s, t), t.answer.res.tag)
    ensures Fails(c, s, t) <==> !(Ready(Taken(c, s, t), t, Found(c, s, t)) && Unpacks(t) && Served(c, t))
    ensures Cached(s, t) ==> Key(t) in Taken(c, s, t).cache
  {
  }

  lemma EndsEarly(c: Settings, s: State, t: Tick)
    ensures !Relevant(c, t) ==> Next(c, s, t) == s && (Fails(c, s, t) <==> Errs(t))
    ensures Relevant(c, t) && Blocked(c, s, t) ==> Next(c, s, t) == Taken(c, s, t) && Fails(c, s, t)
    ensures Relevant(c, t) && t.listOk && Skips(c, s, t) ==>
              Next(c, s, t) == s && Taken(c, s, t) == s && !Fails(c, s, t)
  {
  }

  class Dewy {
    const config: Settings
    var cache: map<string, string>
    var artifact: Option<string>
    var cVer: string
    var isServerRunning: bool
    var releases: map<string, Release>
    var link: Option<string>

    ghost function View(): State
      reads this
    {
      State(cache, artifact, cVer, isServerRunning, releases, link)
    }

    constructor (config: Settings, s: State)
      ensures this.config == config && View() == s
    {
      this.config := config;
      cache, artifact, cVer, isServerRunning := s.cache, s.artifact, s.cVer, s.running;
      releases, link := s.releases, s.link;
    }

    /** cache.List: the keys, in some order. */
    method List() returns (list: seq<string>)
      ensures forall k :: k in list <==> k in cache
    {
      list := [];
      var rest := cache.Keys;
      while rest != {}
        invariant rest <= cache.Keys
        invariant forall k :: k in list <==> k in cache.Keys && k !in rest
        decreases |rest|
      {
        var k :| k in rest;
        list, rest := list + [k], rest - {k};
      }
    }

    method ResolveCurrent(t: Tick) returns (r: Result<Option<CurrentResponse>>)
      ensures r.Err? <==> Errs(t)
      ensures r.Ok? ==> r.value == if Relevant(config, t) then Some(t.answer.res) else None
    {
      match t.answer
      case Error => return Err;
      case NotFound(age) =>
        if age.Some? && age.value < ARTIFACT_GRACE_PERIOD {
          return Ok(None);
        }
        return Err;
      case Answered(res) =>
        if !(config.slot == "" || config.slot == res.slot) {
          return Ok(None);
        }
        return Ok(Some(res));
    }

    method ResolveCacheState(t: Tick, res: CurrentResponse) returns (r: Result<CacheState>)
      requires Relevant(config, t) && res == t.answer.res
      modifies this`cache
      ensures r == if Blocked(config, old(View()), t) then Err else Ok(Found(config, old(View()), t))
      ensures View() == Taken(config, old(View()), t)
    {
      var st := CacheState(CacheKey(res), false, false);
      var currentkeyValue := if t.readCurrentOk && CURRENT_KEY in cache then cache[CURRENT_KEY] else "";
      if !t.listOk {
        return Err;
      }
      var list := List();
      for i := 0 to |list|
        invariant forall j :: 0 <= j < i ==> list[j] != st.key
        invariant st == CacheState(CacheKey(res), false, false) && cache == old(cache)
      {
        if list[i] != st.key {
          continue;
        }
        assert st.key in list;
        st := st.(foundInCache := true);
        if currentkeyValue == st.key {
          match config.command {
            case SERVER =>
              if isServerRunning {
                return Ok(st.(skip := true));
              }
            case ASSETS =>
              return Ok(st.(skip := true));
          }
        } else {
          if !t.takeOk {
            return Err;
          }
          cache := cache[CURRENT_KEY := st.key];
        }
        if !t.readArtifactOk {
          return Err;
        }
        return Ok(st);
      }
      return Ok(st);
    }

    method DownloadAndCache(t: Tick, res: CurrentResponse, st: CacheState) returns (failed: bool)
      modifies this`cache, this`artifact
      ensures View() == Downloaded(old(View()), t, st)
      ensures failed == !Ready(old(View()), t, st)
    {
      if st.foundInCache {
        return false;
      }
      if artifact.None? {
        if !t.newOk {
          return true;
        }
        artifact := Some(res.artifactURL);
      }
      artifact := None;
      if t.body.None? {
        return true;
      }
      if !t.writeArtifactOk {
        return true;
      }
      cache := cache[st.key := t.body.value];
      if !t.writeCurrentOk {
        return true;
      }
      cache := cache[CURRENT_KEY := st.key];
      return false;
    }

    /** Extracts the cached artifact into a release directory. */
    method Preserve(t: Tick, key: string) returns (r: Result<string>)
      requires key in cache
      modifies this`releases
      ensures r == if t.mkdirOk && t.extractOk then Ok(t.dir) else Err
      ensures !t.mkdirOk ==> releases == old(releases)
      ensures t.mkdirOk && key == Key(t) ==> releases == Extracted(old(releases), t, cache[key])
    {
      if !t.mkdirOk {
        return Err;
      }
      var earlier := if t.dir in releases then releases[t.dir].extractions else [];
      releases := releases[t.dir := Release(earlier + [Extraction(key, cache[key], t.extractOk)], t.modTime)];
      if !t.extractOk {
        return Err;
      }
      return Ok(t.dir);
    }

    /** The link is replaced by renaming a temporary one over it. */
    method Deploy(t: Tick, key: string) returns (failed: bool)
      requires key in cache && key == Key(t)
      modifies this`releases, this`link
      ensures View() == Unpacked(old(View()), t, key)
      ensures failed == !Unpacks(t)
    {
      var dir := Preserve(t, key);
      if dir.Err? {
        return true;
      }
      if !t.symlinkOk {
        return true;
      }
      if !t.renameOk {
        return true;
      }
      link := Some(dir.value);
      return false;
    }

    method KeepReleases(t: Tick)
      modifies this`releases
      ensures releases == if t.readDirOk then old(releases) - Removed(t) else old(releases)
    {
      if !t.readDirOk {
        return;
      }
      var stale := SelectStaleReleases(t.listing, KEEP_RELEASES);
      ghost var gone: set<string> := {};
      for i := 0 to |stale|
        invariant i <= t.removals
        invariant gone == set j | 0 <= j < i :: stale[j]
        invariant releases == old(releases) - gone
      {
        if i == t.removals {
          assert gone == Removed(t);
          return;
        }
        releases := releases - {stale[i]};
        gone := gone + {stale[i]};
        assert releases == old(releases) - gone;
      }
      assert gone == Removed(t);
    }

    method PromoteAndReport(t: Tick, res: CurrentResponse) returns (failed: bool)
      modifies this`cVer, this`isServerRunning, this`releases
      ensures View() == Promoted(config, old(View()), t, res.tag)
      ensures failed == !Served(config, t)
    {
      cVer := res.tag;
      if config.command == SERVER {
        failed := StartOrRestartServer(t);
        if failed {
          return;
        }
      }
      KeepReleases(t);
      return false;
    }

    method StartOrRestartServer(t: Tick) returns (failed: bool)
      modifies this`isServerRunning
      ensures failed == !t.serverOk && isServerRunning == (old(isServerRunning) || t.serverOk)
    {
      if isServerRunning {
        return !t.serverOk;
      }
      if !t.serverOk {
        return true;
      }
      isServerRunning := true;
      return false;
    }

    method RunDeploy(t: Tick, res: CurrentResponse, st: CacheState) returns (failed: bool)
      requires t.answer == Answered(res) && st.key == Key(t) && (st.foundInCache ==> st.key in cache)
      modifies this
      ensures View() == Phases(config, old(View()), t, st, res.tag)
      ensures failed == !(Ready(old(View()), t, st) && Unpacks(t) && Served(config, t))
    {
      failed := DownloadAndCache(t, res, st);
      if failed {
        return;
      }
      KeyIsNotCurrent(res);
      failed := Deploy(t, st.key);
      if failed {
        return;
      }
      failed := PromoteAndReport(t, res);
    }

    /** One tick: the new state and whether an error is returned are those of TickModel. */
    method Run(t: Tick) returns (failed: bool)
      modifies this
      ensures View() == Next(config, old(View()), t)
      ensures failed == Fails(config, old(View()), t)
    {
      EndsEarly(config, View(), t);
      var current := ResolveCurrent(t);
      if current.Err? {
        return true;
      }
      if current.value.None? {
        return false;
      }
      var res := current.value.value;
      var st := ResolveCacheState(t, res);
      if st.Err? {
        return true;
      }
      if st.value.skip {
        return false;
      }
      PhasesAreNext(config, old(View()), t);
      failed := RunDeploy(t, res, st.value);
    }

    /** The goroutine of the managed server ends. */
    method ServerExits()
      modifies this`isServerRunning
      ensures View() == old(View()).(running := false)
    {
      isServerRunning := false;
    }

    method RunAll(es: seq<Event>)
      modifies this
      ensures View() == After(config, old(View()), es)
    {
      for i := 0 to |es|
        invariant View() == After(config, old(View()), es[..i])
      {
        assert es[..i + 1][..i] == es[..i];
        match es[i]
        case Ticks(t) => var _ := Run(t);
        case Exit => ServerExits();
      }
      assert es[..|es|] == es;
    }
  }
}
