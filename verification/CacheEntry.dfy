/**
  The shared registry-cache entry and the pure decisions made on it
  (registry/cached.go). Instants are nanoseconds since Go's zero time, so 0 is the
  value for which time.Time.IsZero holds.
 */
module CacheEntry {
  import opened Basics
  import opened Int64

  type Node = nat
  type Time = nat

  const SECOND: int := 1_000_000_000

  datatype Config = Config(ttl: nat, lockTTL: nat, wait: nat)

  /** defaultRefreshWait. */
  const REFRESH_WAIT: nat := 250_000_000

  /** What NewCached sets up for a ttl. */
  function Defaults(ttl: nat): Config {
    Config(ttl, MaxLockTTL(ttl), REFRESH_WAIT)
  }

  datatype Entry = Entry(response: Option<CurrentResponse>, fetchedAt: Time, lockedAt: Time, lockedBy: Option<Node>)

  predicate IsFresh(c: Config, e: Entry, now: Time) {
    e.response.Some? && now - e.fetchedAt < c.ttl
  }

  predicate IsLocked(c: Config, e: Entry, now: Time) {
    e.lockedAt != 0 && now - e.lockedAt < c.lockTTL
  }

  /** The entry that marks "node is refreshing"; it keeps the previous response. */
  function BuildClaim(prev: Option<Entry>, node: Node, now: Time): Entry {
    match prev
    case None => Entry(None, 0, now, Some(node))
    case Some(e) => Entry(e.response, e.fetchedAt, now, Some(node))
  }

  function Published(r: CurrentResponse, now: Time): Entry {
    Entry(Some(r), now, 0, None)
  }

  /** The entry written back when upstream fails: the previous response, unlocked. */
  function Released(prev: Option<Entry>): Entry {
    match prev
    case None => Entry(None, 0, 0, None)
    case Some(e) => Entry(e.response, e.fetchedAt, 0, None)
  }

  /** A stored response, if any, had reached its ttl by the instant t. */
  predicate ExpiredBy(c: Config, prev: Option<Entry>, t: Time) {
    prev.Some? && prev.value.response.Some? ==> prev.value.fetchedAt + c.ttl <= t
  }

  /** A lock on the entry, if any, had reached lockTTL by the instant t. */
  predicate UnlockedBy(c: Config, prev: Option<Entry>, t: Time) {
    prev.Some? && prev.value.lockedAt != 0 ==> prev.value.lockedAt + c.lockTTL <= t
  }

  /** maxLockTTL: twice the ttl clamped into [30s, 5min]; the doubling may wrap around. */
  function MaxLockTTL(ttl: int): (d: int)
    ensures 30 * SECOND <= d <= 300 * SECOND
    ensures 15 * SECOND <= ttl <= 150 * SECOND ==> d == 2 * ttl
    ensures 0 <= ttl < 15 * SECOND ==> d == 30 * SECOND
    ensures 150 * SECOND < ttl && Fits(2 * ttl) ==> d == 300 * SECOND
  {
    var d := Wrap64(ttl * 2);
    if d < 30 * SECOND then 30 * SECOND
    else if d > 300 * SECOND then 300 * SECOND
    else d
  }
}
