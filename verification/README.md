# Verified models of Dewy

Dewy polls a registry for the latest version of an application and deploys it: as files behind a
link, as a managed server process, or as containers behind TCP proxies. This project models the
parts of Dewy where the order of steps matters and proves what they keep, for every input, every
run and every reachable state.

`dafny verify dfyconfig.toml` checks everything (Dafny 4.11).

## What is modelled

**The shared registry cache** (`CacheEntry`, `CacheProtocol`, `CacheSafety`, `CacheTheorems`,
`CacheTiming`, `CacheSingleFlight`, `CacheAvailability`, `CacheFreshness`, `CachedRegistry`). Any
number of nodes share one versioned entry that is both the cached response and the refresh lock. The
protocol is a step system in which every clock reading, cache operation and upstream call is a step
of its own, with crashes, arbitrary delays, cache errors (with or without the write taking effect),
upstream failures and cancellation as further steps. The store keeps the history of successful writes; a
version is the number of writes so far. One clock never runs backwards. `SharedCache.Current` is
the loop of `registry/cached.go` itself; its `Valid()` says that everything it does is a run of
the step system, so the theorems about runs are theorems about the loop.

Mutual exclusion of refreshes is false: a call that reaches its own deadline may claim over a lock
that is still live (`LiveLockTakeover`), although the comment on `Current` speaks only of abandoned
locks. What is true, and proved: fencing, spacing of publishes by the ttl, single-flight exactly in
the runs without such an overtake, and that a call of which nothing goes wrong returns a response
that had not expired when it began or that upstream gave to this very call.

**The rolling container deploy** (`TcpProxy`, `ContainerRuntime`, `DeployBags`, `RollingDeploy`,
`RoundRobin`). The proxies are objects whose backend lists change in place; the table of proxies
records every intermediate state, so that zero downtime is a statement about all of them. The
container runtime logs every command with its outcome, and every change of a container's backends in
between, so that the order of launching, draining and stopping can be stated. Which commands fail of
themselves is a fixed but arbitrary function of their number, containers exit at any time, maps are
iterated in any order. New containers get host ports that no running container uses, which is what
publishing to an unspecified host port means.

The claim that a failed deploy restores the proxies is false when a replica could be registered
only with some of its proxies and one of its other backends had been there before
(`PartialRollbackLosesBackend`); `PartialRollback` shows that this is the only case. Dewy's own
`startProxy` (proxy.go:41-77) starts a proxy for every mapping or none, so this takes another
`BackendUpdater`.

**Version order and selection** (`Int64`, `ThreeWay`, `Decimal`, `PreRelease`, `Item11`, `SemVer`,
`CalVer`, `Item11Names`, `FirstMaximum`, `LatestVersion`). Integers are Go's 64-bit ints: `Atoi` fails
or saturates out of range and differences wrap. Two orders are kept apart. The *key order* is what
the code computes as long as no difference overflows: numbers as Atoi reads them, below texts. Items
10 and 11 of Semantic Versioning 2.0.0, which the comment on `comparePreRelease` promises, are stated
on the text alone. The code departs from item 11 on what Atoi misreads: a hyphen and digits that fit
int64, read as a negative number, and a numeral that does not fit, read as text. So of 1.0.0--2 and
1.0.0--1 the selection returns the lower one (`MisledByHyphenDigits`). `FollowsItem11Exactly` and
`LatestItem11Exactly` give the exact conditions. Apart from that, differences of negative numbers can
overflow, which makes the comparison cyclic (`OverflowCycle`) and the selection miss its own key
order (`MisledByOverflow`); the exact conditions for this are proved too.

**The server/assets tick** (`CacheKeys`, `Releases`, `TickModel`, `TickSafety`, `TickOutcomes`,
`Lifecycle`). A tick asks the registry, looks into the artifact cache, downloads, extracts, swaps the
link, starts or restarts the server and prunes old releases; every one of these may fail. `TickModel`
gives the effect of a tick in closed form, `Lifecycle` is the code phase by phase, proved equal to it,
`TickOutcomes` says what a tick comes to from the answers of the environment alone, and `TickSafety`
is about all runs of ticks and server exits. Cache writes are atomic and nothing else deletes from
the cache.

**The error limiter** (`ErrorLimiter`). What the notifier sends over a whole run is stated from the
events alone; the class with the capped counter is proved to send exactly that.

## Model

| member | source | states |
|---|---|---|
| `CacheEntry.MaxLockTTL` | registry/cached.go:152-161 | the lock lifetime is twice the ttl between 30 seconds and 5 minutes, clamped to that range for every other ttl, also when doubling it overflows |
| `CacheSafety.InvStep` | registry/cached.go:171-325 | every step of every node keeps the invariant: each claim was taken on the version just before it, when the response had expired and the lock was gone or the claimer's deadline reached; each publish and release directly follows its own claim |
| `CacheSafety.InvRun` | registry/cached.go:171-325 | the invariant holds along every run |
| `CacheTheorems.PublishSpacing` | registry/cached.go:171-221 | in every reachable state any two publishes, in order, carry FetchedAt values at least ttl apart |
| `CacheTheorems.StoredMonotone` | registry/cached.go:272-325 | along every run the entry stays present, its FetchedAt never decreases and a stored response is never dropped |
| `CacheTheorems.StoredProvenance` | registry/cached.go:286-311 | every stored response was answered by upstream to the node holding the claim, and published by the write right after that claim |
| `CacheTheorems.FencingTokenUnique` | registry/cached.go:197-219 | at most one refreshing node's claim is the stored version |
| `CacheTheorems.FencedWrite` | registry/cached.go:301-325 | a publish or release changes the store exactly when nothing was written since the writer's own claim and the write takes effect; otherwise the store is unchanged |
| `CacheTheorems.TakeoverCondition` | registry/cached.go:187-199 | a claim on top of another claim was stamped after that lock's lockTTL or after the claimer's own deadline |
| `CacheTiming.FreshTestExactly` | registry/cached.go:182-184 | the entry read is served exactly when it has a response and the clock is before fetchedAt + ttl |
| `CacheTiming.LockTestExactly` | registry/cached.go:187-187 | the call looks at its deadline exactly when lockedAt is set and the clock is before lockedAt + lockTTL, and otherwise goes on to claim |
| `CacheTiming.DeadlineTestExactly` | registry/cached.go:187-195 | it waits exactly before its deadline |
| `CacheTiming.WaitsOnLiveLock` | registry/cached.go:186-195 | in every run a call comes to wait only after it tested the lock of the entry it read at an instant before lockedAt + lockTTL |
| `CacheTiming.TakeoverIsLate` | registry/cached.go:171-199 | in every run a claim over a lock that was still live belongs to a call begun at least lockTTL + wait before the claim's stamp |
| `CacheTiming.StampsAreReadings` | registry/cached.go:198-305 | every lock and every publish stamp is a clock reading of the node that wrote it |
| `CacheTiming.LandedResult` | registry/cached.go:301-325 | a landed publish leaves the answered response with its stamp, a landed release what was there before the claim, and both an entry that is not locked |
| `CacheTiming.LandedClaim` | registry/cached.go:272-281 | a landed claim leaves the response and stamp that were there, locked by the claimer at its stamp |
| `CacheSingleFlight.SingleFlightExactly` | registry/cached.go:163-221 | at most one node refreshes at every point of a run if no claim lands on a version still being refreshed, and only if, when claim acknowledgements are not lost |
| `CacheSingleFlight.PromptSingleFlight` | registry/cached.go:163-221 | if every refresh ends or crashes within lockTTL of its claim and no call meets a live lock past its deadline, at most one node is ever refreshing |
| `CacheSingleFlight.UpstreamCallsSpaced` | registry/cached.go:268-311 | in such runs without crashes, cache errors and upstream failures, any two upstream calls start at least ttl apart |
| `CacheSingleFlight.LiveLockTakeover` | registry/cached.go:187-199 | a faultless run, under the configuration the code sets up for a ttl of ten seconds, in which two nodes refresh at once under a live lock |
| `CacheAvailability.StaleButUsable` | registry/cached.go:182-216 | a call begun while a response is stored, whose reads succeed, ends with a response and no error, and that response was stored or answered to this node under its claim |
| `CacheFreshness.ResultOrigin` | registry/cached.go:171-221 | whatever happens, a call's response was stored, answered by upstream to this node under a claim, or answered by upstream directly in that run |
| `CacheFreshness.ErrorOrigin` | registry/cached.go:171-311 | a call fails only if upstream failed or its wait was cancelled in that run; cache errors alone never make it fail |
| `CacheFreshness.LeavesNoLock` | registry/cached.go:286-325 | a call leaves no lock of its node in the entry, whether upstream answered or failed, unless a claim write took effect behind an error or a result write failed |
| `CacheFreshness.SmoothCallIsFresh` | registry/cached.go:182-219 | a call without a failed read, claim-write error, upstream failure or cancellation ends with a response published with fetchedAt + ttl after the call began, or answered by upstream to this call, whatever other nodes do |
| `CacheFreshness.AloneBringsUpToDate` | registry/cached.go:149-221 | a call left alone with a working cache and upstream, over whatever was stored, an abandoned lock included, leaves the entry holding its response, unexpired when the call began, by its own publish unless the entry was fresh already |
| `CachedRegistry.SharedCache.Current` | registry/cached.go:171-221 | the run grows by one call of this node and actions of others; it returns for every behaviour of the rest of the system, begins at most ceil((lockTTL+wait)/wait) waits on a lock, none if it was left alone over an entry without a live lock, and loses at most one claim per write of another node; its result was stored, answered under its claim or answered directly; it fails only if upstream failed or it was cancelled; it leaves no lock of its node unless a write of its own went wrong; it returns a response if one was stored when it began and no read failed, one that had not expired when it began or that upstream answered to this call if nothing of it went wrong, and brings the entry up to date if moreover it was left alone |
| `CachedRegistry.SharedCache.LoopBody` | registry/cached.go:174-220 | one pass extends the run; it begins at most one wait, and only before the deadline, loses at most one claim, and only to a write of another node, and says which by what the run counts |
| `CachedRegistry.MisreadsExactly` | registry/cached.go:175-179 | the count of failed reads of a run is positive exactly when a failed read of the node occurs in it |
| `CachedRegistry.RestartsExactly` | registry/cached.go:171-221 | a run counts no beginning or crash of the node's calls exactly when none occurs in it |
| `CachedRegistry.PathIsRun` | registry/cached.go:171-221 | what the loop records step by step is a run of the protocol, and its counts are the counts of that run |
| `CachedRegistry.CallFacts` | registry/cached.go:171-221 | what every call of the protocol promises of its result |
| `CachedRegistry.NoWaits` | registry/cached.go:186-199 | a call left alone over an entry whose lock is absent or has run out begins no wait |
| `CachedRegistry.TallyConcat` | registry/cached.go:171-221 | waits, lost claims and failed reads of a run add up over its parts |
| `CachedRegistry.SharedCache.RefreshAndPublish` | registry/cached.go:286-325 | with a response in the claimed entry the refresh ends in a response whatever upstream and the cache do |
| `CachedRegistry.SharedCache.WriteClaimEntry` | registry/cached.go:199-216 | an acknowledged claim either conflicts, the version read being no longer the stored one, or is itself the next version; on a cache error the call falls back to the response read or to upstream |
| `CachedRegistry.SharedCache.ReadEntry` | registry/cached.go:241-253 | reads the stored entry together with its version |
| `CachedRegistry.SharedCache.Sleep` | registry/cached.go:223-233 | waits for at least the given time unless the context is cancelled |
| `CachedRegistry.CeilDivBounds` | registry/cached.go:171-221 | the bound on waits is the least number of waits that covers the deadline |
| `TcpProxies.TcpProxy.GetNextBackend` | proxy.go:221-231 | picks position counter mod n and advances the 64-bit counter; no backend leaves it unchanged |
| `TcpProxies.TcpProxy.AddBackend` | proxy.go:234-249 | appends the backend |
| `TcpProxies.TcpProxy.RemoveBackend` | proxy.go:252-273 | removes the first equal backend and says whether there was one |
| `TcpProxies.RemoveFirstBag` | proxy.go:252-273 | as a multiset exactly one such backend is taken away |
| `TcpProxies.ProxyTable.AddBackend` | proxy_backend.go:26-37 | fails exactly when the port has no proxy; changes that proxy only |
| `TcpProxies.ProxyTable.RemoveBackend` | proxy_backend.go:40-53 | reports a missing proxy or backend; changes that proxy only |
| `RoundRobin.ServeConnections` | proxy.go:221-231 | the j-th of k picks is the position at counter + j, wrapped |
| `RoundRobin.RoundRobinFair` | proxy.go:221-231 | while the counter does not wrap, after k picks any two positions have been hit equally often up to one |
| `RoundRobin.RoundRobinExactly` | proxy.go:221-231 | n consecutive picks over n backends hit every position once exactly when the counter does not wrap during them or n divides 2^64 |
| `RoundRobin.RoundRobinCovers` | proxy.go:221-231 | in such a round every position is hit, after exactly its distance from the counter |
| `ContainerRuntime.Runtime.Run` | container/runtime.go:229-284 | unless the command fails there is a new running container with the application's label that publishes the wanted ports on host ports no running one uses |
| `ContainerRuntime.Runtime.GetMappedPort` | container/inspect.go:241-277 | a host port is answered exactly for a running container that publishes the port, unless the command fails; the lookup and its answer are logged |
| `ContainerRuntime.Runtime.FindContainersByLabel` | container/inspect.go:117-128 | the running containers of the application, each once |
| `ContainerRuntime.Runtime.Stop` | container/runtime.go:287-294 | the container no longer runs exactly unless the command fails, which is logged and counted |
| `ContainerRuntime.Runtime.Remove` | container/runtime.go:297-300 | removes a stopped container and refuses a running one unless the command fails, which is logged and counted |
| `DeployBags.RollbackRestores` | container/deploy.go:208-221 | removing exactly what was registered restores every proxy's multiset of backends |
| `DeployBags.PartialRollback` | container/deploy.go:58-69 | rolling back a half-registered replica restores the proxies if and only if none of its unregistered backends was there before |
| `DeployBags.PartialRollbackLosesBackend` | container/deploy.go:58-69 | a table without one of the mapped proxies and a replica for which the removals of the rollback take away a backend that was there before |
| `DeployBags.DrainServes` | container/deploy.go:78-111 | while backends on other host ports are drained every proxy keeps all backends of the new replicas |
| `DeployBags.DrainExact` | container/deploy.go:78-111 | draining exactly the backends the proxies started with leaves exactly the new ones |
| `RollingDeploy.StartAndCheck` | container/deploy.go:124-203 | a healthy replica is a new container of the application whose proxies map to its own host ports and whose check, if there is one, passed; every failure has its failed command in the log; after a failed start or health check no container is left unless a stop or rm failed, after a failed port lookup it may be |
| `RollingDeploy.Register` | container/deploy.go:58-69 | registers the replica at every proxy, or stops at the first missing one, trying no further proxy, with exactly the ports done so far registered |
| `RollingDeploy.Rollback` | container/deploy.go:208-236 | removes all backends of the replicas and then stops and removes their containers and no others; one is left only if its own stop or rm failed; at every point the proxies hold at least what they hold at the end |
| `RollingDeploy.AddReplica` | container/deploy.go:43-76 | adds one registered replica on unused host ports or rolls everything back |
| `RollingDeploy.DrainOld` | container/deploy.go:78-111 | looks up every mapping of every listed container, and takes exactly the backends of the answered lookups out of the proxies, each right after its lookup and whether or not other lookups failed; stops and removes only listed containers, each after this, while all new backends stay in service; one is left only if its own stop or rm failed |
| `RollingDeploy.Deploy` | container/deploy.go:16-121 | always: nothing is started, checked or registered after the first stop or rm, and no container is stopped before its backends are taken out; success: one result per replica in order, each a container of the application that passed its check; at every intermediate point each proxy holds all its initial backends or all new ones; only containers listed first are stopped or removed, no other container of the application runs besides the replicas, and one of the listed is left only if its own stop or rm failed; every mapping of the listed ones was looked up, and each proxy ends with its initial bag and the new backends without exactly the backends of the answered lookups; if each lookup of the listed ones was answered and the proxies began with exactly their backends, the proxies end with exactly the new ones; failure: a command in the log or a missing proxy explains it, no container that was there is stopped or removed, every proxy holds its initial multiset again and covered it at every point, with the exact condition for a half-registered replica, and no new container is left except after a failed port lookup |
| `RollingDeploy.WithdrawnIsOldAll` | container/deploy.go:87-97 | if every lookup was answered, the backends taken out are all those of the listed containers |
| `ContainerRuntime.TidyJoin` | container/deploy.go:16-121 | when two stretches of commands in sequence keep the order of launching, draining and stopping |
| `Decimal.ReprintExactly` | registry/semver.go:14-35 | reading and printing digits changes nothing exactly when they have no leading zero and fit int64 |
| `PreRelease.ComparesByKeys` | registry/version.go:21-59 | comparePreRelease has the sign of the order of its own keys, numbers read by Atoi below texts, if and only if the deciding numeric difference does not overflow |
| `PreRelease.KeyOrderLaws` | registry/version.go:21-59 | the key order is a total preorder: sign-antisymmetric, transitive, zero exactly for the same keys |
| `PreRelease.EqualKeys` | registry/version.go:21-59 | the code returns 0 exactly on equal keys, and pre-releases with equal keys compare alike with every other, even with overflow |
| `PreRelease.NonNegativeNeverOverflows` | registry/version.go:41-45 | without identifiers that read as negative numbers no difference overflows |
| `Item11.FollowsItem11` | registry/version.go:14-59 | on valid identifiers none of which is misread, negative means lower and positive means higher by item 11 of Semantic Versioning 2.0.0, and zero means the same string |
| `Item11.FollowsItem11Exactly` | registry/version.go:14-59 | a valid pre-release is compared as item 11 says with every one in scope if and only if none of its identifiers is misread: none is a hyphen and digits that fit int64, or a numeral that does not fit |
| `Item11.ItemOrderExactly` | registry/version.go:14-20 | on valid identifiers item 11 is a total order: the lexicographic order of numerals by value below texts |
| `Item11.HyphenDigitsReversed` | registry/version.go:38-45 | -1 is below -2 by item 11 and above it for the code |
| `Item11.OverflowCycle` | registry/version.go:43-45 | three valid identifiers that compare in a cycle |
| `SemVers.ScanExactly` | registry/semver.go:10-12 | SemVerRegex matches a string with given groups exactly when the groups have the right shape and spell the string; there is at most one match |
| `SemVers.WordCharExactly` | registry/semver.go:10-12 | the characters of pre-release and build metadata, by code point |
| `SemVers.StableExactly` | registry/semver.go:10-12 | the stable-only expression matches exactly the strings SemVerRegex matches with an empty pre-release, with the same groups |
| `SemVers.ParseUndoesString` | registry/semver.go:14-79 | parsing the printed form of a well-formed version gives it back |
| `SemVers.ParsedIsWellFormed` | registry/semver.go:14-35 | whatever parses is well-formed, numbers included |
| `SemVers.StringUndoesParseExactly` | registry/semver.go:14-79 | printing a parsed string gives it back exactly when its three numbers have no leading zeros and fit int64 |
| `SemVers.OrderLaws` | registry/semver.go:46-63 | the key order of versions is a total preorder |
| `SemVers.ComparesInOrder` | registry/semver.go:46-63 | Compare has the sign of the key order if and only if it does not come down to an overflowing pre-release difference |
| `Item11Names.OrderIsItem11` | registry/semver.go:46-63 | for names in scope the key order of their versions is the precedence of items 10 and 11, read off the text of the names |
| `Item11Names.OutOfScopeWitness` | registry/semver.go:14-63 | every valid name out of scope, by a number or an identifier, is ranked against some name in scope in a way item 11 does not |
| `SemVers.EqualRank` | registry/semver.go:46-63 | Compare is 0 exactly on equal rank, and versions of equal rank compare alike with every other |
| `CalVers.CalOrderLaws` | registry/calver.go:134-158 | the zero-padded order is a total preorder, also between versions with different numbers of segments |
| `CalVers.CalComparesInOrder` | registry/calver.go:134-158 | Compare has the sign of that order if and only if it does not come down to an overflowing pre-release difference |
| `CalVers.CalFollowsItem11Exactly` | registry/calver.go:131-158 | a calendar version with a valid pre-release is compared with every one in scope by its segments and then as item 11 of Semantic Versioning 2.0.0 says if and only if no identifier of its pre-release is misread |
| `CalVers.CalEqualRank` | registry/calver.go:134-158 | Compare is 0 exactly on equal rank, and versions of equal rank compare alike with every other |
| `FirstMaximum.PickFails` | registry/semver.go:97-122 | the running-maximum loop fails exactly when there is no candidate, and otherwise answers with one |
| `FirstMaximum.PicksFirstMaximum` | registry/semver.go:97-122 | if the maxima compare correctly with every candidate the answer is the first maximum, all candidates before it being strictly lower |
| `FirstMaximum.AlwaysMaximalExactly` | registry/semver.go:97-122 | the loop finds a maximum in every order of the list if and only if the maxima compare correctly, both ways round, with every candidate |
| `FirstMaximum.OrderIndependent` | registry/semver.go:97-122 | then rearranging the list changes the answer only among equals |
| `LatestVersion.SemVerLawful` | registry/semver.go:46-63 | semantic versions satisfy what the selection theorems need |
| `LatestVersion.CalVerLawful` | registry/calver.go:134-158 | calendar versions satisfy what the selection theorems need |
| `LatestVersion.MatchesExactly` | registry/semver.go:82-88 | a name matches exactly when it parses, with an empty pre-release unless pre-releases are allowed |
| `LatestVersion.FindLatestSemVerWithSlot` | registry/semver.go:97-122 | fails exactly when no name is eligible; otherwise returns an eligible name with its parsed version: the first of highest precedence by items 10 and 11 if all eligible names are in scope, and the first highest by the key order if no comparison with a highest one overflows |
| `LatestVersion.LatestFollowsItem11` | registry/semver.go:97-122 | on names in scope the answer has no eligible name above it by items 10 and 11, and those before it are strictly lower |
| `LatestVersion.LatestItem11Exactly` | registry/semver.go:97-122 | a valid eligible name is ranked against every eligible name in scope as items 10 and 11 rank it if and only if it is in scope: its numbers fit int64 and no identifier is misread |
| `LatestVersion.LatestItem11ListExactly` | registry/semver.go:97-122 | for a list whose eligible names are valid, the answer is one of highest precedence by items 10 and 11 in every order of the names if and only if those of highest precedence are compared with every eligible name as items 10 and 11 compare them |
| `Item11Names.NameOrderExactly` | registry/semver.go:46-63 | on valid names the comparison this is stated with is the precedence of items 10 and 11, and equal precedence means the same numbers and pre-release |
| `LatestVersion.MisledByHyphenDigits` | registry/semver.go:97-122 | of 1.0.0--2 and 1.0.0--1 the second, lower by item 11, is returned |
| `LatestVersion.FindLatestCalVerWithSlot` | registry/calver.go:178-214 | fails exactly when no name parses to a version with the slot as its build metadata, if one is asked for, and without a pre-release unless allowed; otherwise returns one that does, from the list and with its parsed version: the first highest by segments and then item 11 if all of them are in scope, and the first highest by the key order if no comparison with a highest one overflows |
| `LatestVersion.LatestCalFollowsItem11` | registry/calver.go:178-214 | on calendar versions in scope no considered one is above the answer by segments and item 11, and those before it are strictly below |
| `LatestVersion.LatestIsFirstMaximum` | registry/semver.go:97-122 | the answer is the first highest eligible name by the key order when no comparison with a highest one overflows |
| `LatestVersion.LatestExactly` | registry/semver.go:97-122 | the answer is highest by the key order in every order of the names if and only if no comparison with a highest one overflows |
| `LatestVersion.LatestReordered` | registry/calver.go:178-214 | then another order of the names changes the answer only among equal versions |
| `LatestVersion.NonNegativeIsClear` | registry/semver.go:97-122 | lists without identifiers that read as negative numbers have no such overflow |
| `LatestVersion.MisledByOverflow` | registry/semver.go:97-122 | two valid names of which the lower one by the key order is returned because the difference overflows |
| `ErrorLimiter.ErrorLimitingSender.Send` | notifier/notifier.go:66-73 | what is sent stays what the events so far call for |
| `ErrorLimiter.ErrorLimitingSender.SendImportant` | notifier/notifier.go:77-84 | the same, for a message that quiet mode lets through |
| `ErrorLimiter.ErrorLimitingSender.SendError` | notifier/notifier.go:87-116 | the same; the counter is the streak length capped at 1000, and the cap never changes what is sent |
| `ErrorLimiter.ErrorLimitingSender.ResetErrorCount` | notifier/notifier.go:119-127 | ends the streak |
| `ErrorLimiter.ErrorLimitingSender.RunTicks` | dewy.go:189-202 | over any ticks what is sent is what their messages and outcomes call for |
| `ErrorLimiter.MessageSentExactly` | notifier/notifier.go:66-84 | a message is sent exactly when every earlier failure has been followed by a success and it is important or quiet mode is off |
| `ErrorLimiter.FailureSentExactly` | notifier/notifier.go:87-116 | the k-th failure of a streak adds exactly one notice for k up to 3, with its own text, the number k, and the mark that no more will follow exactly for k = 3; none for larger k |
| `ErrorLimiter.StreakStart` | notifier/notifier.go:87-127 | the number of a failure within its streak is determined by the outcomes |
| `ErrorLimiter.TickNotices` | dewy.go:189-202 | a tick's messages are sent exactly when the tick before it did not fail, so the tick that recovers is still silent |
| `ErrorLimiter.StreaksExactly` | notifier/notifier.go:87-127 | the list of streaks holds exactly the longest intervals of failures |
| `ErrorLimiter.StreaksIncreasing` | notifier/notifier.go:87-127 | the streaks are listed in order and apart, so each counts once |
| `ErrorLimiter.ErrorsSent` | notifier/notifier.go:87-127 | the errors sent in a run number the sum over its failure streaks of min(3, length) |
| `ErrorLimiter.TickErrorsSent` | dewy.go:189-202 | the same over ticks, whatever messages they send |
| `Releases.SelectStaleReleases` | release.go:166-197 | returns the names past the first keep of the sorted stattable entries |
| `Releases.StaleExactly` | release.go:166-197 | for distinct names an entry is stale exactly when it is stattable and at least keep stattable entries rank before it |
| `Releases.RankExactly` | release.go:180-187 | an entry ranks before another exactly when it is newer, or equally old with the smaller name |
| `Releases.StaleRank` | release.go:166-197 | the stale entries come in order of rank, from keep on |
| `Releases.StaleSize` | release.go:166-197 | all but keep of the stattable entries are stale, each once |
| `Releases.StaleOrderIndependent` | release.go:166-197 | the selection does not depend on the order of the listing |
| `Releases.SortedUnique` | release.go:182-187 | a list has one sorted arrangement, so the sorting algorithm does not matter |
| `CacheKeys.KeyOfUrl` | dewy.go:279-284 | the key of an artifact URL is the tag, "--" and the last path element, whatever the directory and the query |
| `CacheKeys.KeyOfSlash` | dewy.go:279-284 | a final slash of the URL does not change the key |
| `CacheKeys.BasesExactly` | dewy.go:281-284 | which strings are the base of an artifact URL |
| `CacheKeys.KeyIsNotCurrent` | dewy.go:281-284 | no artifact key is the current key |
| `CacheKeys.KeysClashExactly` | dewy.go:281-284 | two different tags can share a cache key if and only if one continues the other's separator |
| `CacheKeys.PlainTagsDoNotClash` | dewy.go:281-284 | a tag that continues another contains "--" or ends in "-" |
| `TickSafety.InvRun` | lifecycle.go:74-154 | along every run of ticks and server exits the current key is absent or names a cached artifact, and no download is pending between ticks |
| `TickSafety.KeepsRun` | lifecycle.go:74-154 | no cached artifact is ever removed or changed |
| `TickSafety.NoKeyStoredTwice` | lifecycle.go:125-154 | no key is downloaded and stored twice in a run |
| `TickSafety.DownloadProvenance` | lifecycle.go:125-154 | every stored artifact came from the URL of a response in the run with that key |
| `TickSafety.NewReleaseSurvives` | release.go:139-197 | given a truthful listing, the release just linked survives the pruning of its tick if and only if it cannot be statted, fewer than seven listed entries rank before it, or a removal fails before its turn |
| `TickSafety.NewestIsSpared` | release.go:139-197 | a strictly newest release is among those that survive |
| `TickSafety.LinkIsDeployed` | release.go:21-89 | at every point after the first swap, if every pruning tick spared the release it linked, the link leads to an existing release into which the artifact cached for the tag cVer was completely extracted |
| `TickSafety.LinkedContentOrigin` | dewy.go:281-324 | if no two tags answered in the run clash, the linked content was in the cache before the run or was downloaded for the tag cVer |
| `TickSafety.LinkIsIntactExactly` | release.go:76-89 | at every such point that release holds nothing else if and only if the last swap went to a directory that held no extraction and nothing was extracted into it since |
| `TickSafety.IntactStepExactly` | release.go:21-89 | from an intact state a step keeps the link intact if and only if the tick does not extract into the linked directory and does not link one that already holds an extraction |
| `TickSafety.LinkIsIntact` | release.go:76-89 | it is enough that no two ticks extract within one second |
| `TickSafety.RetriedExactly` | lifecycle.go:74-154 | after any tick, failed or not, a tick with the same answer acts again if and only if the current key does not name the artifact yet or the command is SERVER and the server is down: failures up to the write of the current key are retried, later ones only for a server that is down |
| `TickSafety.SettledRun` | lifecycle.go:83-105 | with the current key in place, ticks with the same answer change nothing |
| `TickSafety.GivenUp` | lifecycle.go:89-119 | once the current key names the artifact, a deploy that did not swap the link is given up by an assets command, or under a server that still runs, for as long as the answer stays, without a further error |
| `TickSafety.UnreadableIsGivenUp` | lifecycle.go:106-119 | in particular after the current key was taken over and the cached artifact could not be read |
| `TickOutcomes.IgnoredTick` | lifecycle.go:30-57 | without an answer for this slot nothing changes, and it is an error unless the slot is another's or the artifact is missing less than 30 minutes after a known release time |
| `TickOutcomes.BlockedTick` | lifecycle.go:77-81 | without a listing of the cache nothing changes and it is an error |
| `TickOutcomes.SkippedTick` | lifecycle.go:89-105 | the response read as current and cached is left alone by an assets command and under a running server, without an error |
| `TickOutcomes.GoodTickDeploys` | dewy.go:289-324 | a response for this slot that is not skipped, with every step of its path answering, sets link, version and current key, keeps or stores the artifact, makes the server run, and is an error exactly when the server could not be started |
| `TickOutcomes.BrokenTickKeepsLink` | release.go:21-89 | if any step up to the rename fails, link, version and server stay as they were and it is an error |
| `TickOutcomes.CacheAfterTick` | lifecycle.go:106-154 | which of the artifact and the current key are written, by which writes succeeded |
| `TickOutcomes.PrunedExactly` | release.go:141-197 | which release directories are gone after a deploy: those listed and stattable with at least seven ranking before, until a removal failed, and none if the server could not be started |
| `Lifecycle.PhasesAreNext` | dewy.go:289-324 | the phases in sequence have the closed-form effect of a tick |
| `Lifecycle.Dewy.ResolveCurrent` | lifecycle.go:30-57 | an error unless the artifact is missing less than 30 minutes after a known release time; no response in that case or for another slot |
| `Lifecycle.Dewy.ResolveCacheState` | lifecycle.go:74-123 | whether the artifact is cached, whether to skip, when the current key is taken over, and when the phase fails |
| `Lifecycle.Dewy.DownloadAndCache` | lifecycle.go:127-154 | stores the artifact and then the current key, each only if the step before succeeded, and leaves no download pending |
| `Lifecycle.Dewy.Deploy` | release.go:21-89 | extracts into the release directory and swaps the link only after everything before succeeded |
| `Lifecycle.Dewy.KeepReleases` | release.go:141-154 | removes the stale releases in order until a removal fails |
| `Lifecycle.Dewy.PromoteAndReport` | lifecycle.go:171-228 | records the version, starts or restarts the server, and prunes only if that succeeded |
| `Lifecycle.Dewy.Run` | dewy.go:289-324 | the new state and whether an error is returned are those of the closed form, for every state and every behaviour of the environment |
| `Lifecycle.Dewy.RunAll` | dewy.go:189-202 | any sequence of ticks and server exits leads where the closed form leads |

## Left out

- S3, GCS, GitHub, gRPC and OCI clients, credentials and JWT: the cache is its conditional-write contract (cache/cache.go:103-117), the registry an arbitrary answer.
- JSON encoding, SHA-256 keys and URL canonicalization of the shared cache: an entry is a value and there is one per scope; an entry that does not decode is a failed read.
- Writes to the shared cache that a backend applies after it has already answered with an error: an erroneous write takes effect at once or never.
- Sub of Go's time.Duration saturating after 292 years, and clocks that disagree between nodes.
- CachedRegistry.SharedCache.Current: takes a positive wait as given, and sleeps advance the clock by at least wait.
- CalVer formats and their regular expressions (registry/calver.go:51-129): a format is its parse function, whose segments are digits in range; an invalid format is not modelled.
- LatestVersion.FindLatestCalVerWithSlot: has no error for an invalid format, because the format is given as its parse function.
- CacheSingleFlight.SingleFlightExactly: the only-if half needs claim acknowledgements that are not lost, because a claim applied behind an error answer overtakes without a second node refreshing.
- TickSafety.LinkIsDeployed: takes a truthful directory listing as given when releases are pruned, and that the release just linked is spared, for which NewReleaseSurvives has the exact condition.
- Strings are sequences of characters; Go compares bytes, which agrees on the characters the regular expressions admit.
- ContainerRuntime.Runtime.Run: a failed run leaves no container, whereas the real command may leave a created one behind; that no new container is left after a failed deploy rests on it.
- Container command lines and their output, image pulling, label parsing and health-check HTTP: commands that succeed or fail.
- ResolvePortMappings, the no-op updater, removal of exited containers and shutdown of managed containers (container/deploy.go:239-351): easy members over the same operations.
- Uniqueness of proxy ports is a precondition of Deploy; the command line enforces it (cli.go:621-625).
- TCP copying, accept loops, idle timeouts, proxy start and stop, and the locks inside one process: each method is one atomic step.
- Archive formats, a half-written cache file, a half-removed release directory, hooks, signals and server-starter: succeed-or-fail steps.
- SendHookResult: an important message when the hook failed and an ordinary one when it succeeded, as far as what is sent.
- Telemetry, admin API, Slack and mail formatting, reporting to the registry, the documentation site.
