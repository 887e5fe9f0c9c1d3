/**
  What one tick of the server/assets deploy does (dewy.go, lifecycle.go, release.go), in closed
  form: named conditions on the state and on what the environment answered during the tick, and
  the state they lead to. Cache writes are atomic, and nothing else deletes cache entries.
 */
module TickModel {
  import opened Basics
  import opened CacheKeys
  import opened Releases

  datatype Command = SERVER | ASSETS

  datatype Settings = Settings(command: Command, slot: string)

  /** An extraction of a cached artifact into a release directory. */
  datatype Extraction = Extraction(key: string, content: string, complete: bool)

  datatype Release = Release(extractions: seq<Extraction>, modTime: int)

  /** cache holds the artifacts by key and the current key; artifact is a pending download's URL. */
  datatype State = State(
    cache: map<string, string>,
    artifact: Option<string>,
    cVer: string,
    running: bool,
    releases: map<string, Release>,
    link: Option<string>)

  /** The registry's answer; a missing artifact comes with the time since its release, if known. */
  datatype Answer = Error | NotFound(age: Option<int>) | Answered(res: CurrentResponse)

  /** 30 minutes in nanoseconds. */
  const ARTIFACT_GRACE_PERIOD: int := 1_800_000_000_000

  /** What the environment answers during one tick. */
  datatype Tick = Tick(
    answer: Answer,
    readCurrentOk: bool, listOk: bool, takeOk: bool, readArtifactOk: bool,
    newOk: bool, body: Option<string>, writeArtifactOk: bool, writeCurrentOk: bool,
    dir: string, modTime: int, mkdirOk: bool, extractOk: bool, symlinkOk: bool, renameOk: bool,
    serverOk: bool, readDirOk: bool, listing: seq<DirEntry>, removals: nat)

  const KEEP_RELEASES: nat := 7

  function Get<K, V>(m: map<K, V>, k: K, default: V): V {
    if k in m then m[k] else default
  }

  // ----- conditions -----

  /** The registry's answer is an error, and not one excused by the grace period. */
  predicate Errs(t: Tick) {
    match t.answer
    case Error => true
    case NotFound(age) => age.None? || age.value >= ARTIFACT_GRACE_PERIOD
    case Answered(_) => false
  }

  /** There is a response for this slot. */
  predicate Relevant(c: Settings, t: Tick) {
    t.answer.Answered? && (c.slot == "" || c.slot == t.answer.res.slot)
  }

  function Key(t: Tick): string {
    if t.answer.Answered? then CacheKey(t.answer.res) else ""
  }

  /** The current key as read at the start of the tick; a failed read counts as empty. */
  function CurrentRead(s: State, t: Tick): string {
    if t.readCurrentOk then Get(s.cache, CURRENT_KEY, "") else ""
  }

  predicate Cached(s: State, t: Tick) { Key(t) in s.cache }

  predicate Skips(c: Settings, s: State, t: Tick) {
    Cached(s, t) && CurrentRead(s, t) == Key(t) && (c.command == ASSETS || s.running)
  }

  /** The tick goes on to deploy. */
  predicate Acts(c: Settings, s: State, t: Tick) {
    Relevant(c, t) && t.listOk && !Skips(c, s, t)
  }

  predicate Takes(c: Settings, s: State, t: Tick) {
    Acts(c, s, t) && Cached(s, t) && CurrentRead(s, t) != Key(t) && t.takeOk
  }

  predicate Attempts(c: Settings, s: State, t: Tick) {
    Acts(c, s, t) && !Cached(s, t) && (s.artifact.Some? || t.newOk)
  }

  predicate Stores(c: Settings, s: State, t: Tick) {
    Attempts(c, s, t) && t.body.Some? && t.writeArtifactOk
  }

  /** The artifact is in the cache, current points at it, and extraction begins. */
  predicate Staged(c: Settings, s: State, t: Tick) {
    if Cached(s, t) then Acts(c, s, t) && (CurrentRead(s, t) == Key(t) || t.takeOk) && t.readArtifactOk
    else Stores(c, s, t) && t.writeCurrentOk
  }

  /** The link is swapped to the new release. */
  predicate Links(c: Settings, s: State, t: Tick) {
    Staged(c, s, t) && t.mkdirOk && t.extractOk && t.symlinkOk && t.renameOk
  }

  predicate Extracts(c: Settings, s: State, t: Tick) {
    Staged(c, s, t) && t.mkdirOk
  }

  predicate Prunes(c: Settings, s: State, t: Tick) {
    Links(c, s, t) && (c.command == SERVER ==> t.serverOk) && t.readDirOk
  }

  /** The tick returns an error. */
  predicate Fails(c: Settings, s: State, t: Tick) {
    || Errs(t)
    || (Relevant(c, t) && !t.listOk)
    || (Acts(c, s, t) && !(Links(c, s, t) && (c.command == SERVER ==> t.serverOk)))
  }

  // ----- the next state -----

  function NextCache(c: Settings, s: State, t: Tick): map<string, string> {
    if Takes(c, s, t) then s.cache[CURRENT_KEY := Key(t)]
    else if Stores(c, s, t) then
      var stored := s.cache[Key(t) := t.body.value];
      if t.writeCurrentOk then stored[CURRENT_KEY := Key(t)] else stored
    else s.cache
  }

  /** What was extracted into a release directory so far. */
  function Held(releases: map<string, Release>, dir: string): seq<Extraction> {
    if dir in releases then releases[dir].extractions else []
  }

  function Extracted(releases: map<string, Release>, t: Tick, content: string): map<string, Release> {
    releases[t.dir := Release(Held(releases, t.dir) + [Extraction(Key(t), content, t.extractOk)], t.modTime)]
  }

  /** The directories removed: the stale ones in order, until a removal fails. */
  function Removed(t: Tick): set<string> {
    var stale := Names(Stale(t.listing, KEEP_RELEASES));
    set i | 0 <= i < |stale| && i < t.removals :: stale[i]
  }

  function NextReleases(c: Settings, s: State, t: Tick): map<string, Release> {
    if Extracts(c, s, t) then
      var extracted := Extracted(s.releases, t, Get(NextCache(c, s, t), Key(t), ""));
      if Prunes(c, s, t) then extracted - Removed(t) else extracted
    else s.releases
  }

  function Next(c: Settings, s: State, t: Tick): State {
    State(
      NextCache(c, s, t),
      if Attempts(c, s, t) then None else s.artifact,
      if Links(c, s, t) then t.answer.res.tag else s.cVer,
      s.running || (Links(c, s, t) && c.command == SERVER && t.serverOk),
      NextReleases(c, s, t),
      if Links(c, s, t) then Some(t.dir) else s.link)
  }

  // ----- runs -----

  /** Between ticks the managed server may exit. An exit during a tick has the same effect as one
      just before it, because a tick that reads the flag as running and does not skip deploys
      another key either way. */
  datatype Event = Ticks(t: Tick) | Exit

  function Apply(c: Settings, s: State, e: Event): State {
    match e
    case Ticks(t) => Next(c, s, t)
    case Exit => s.(running := false)
  }

  function After(c: Settings, s: State, es: seq<Event>): State {
    if es == [] then s else Apply(c, After(c, s, es[..|es| - 1]), es[|es| - 1])
  }
}
