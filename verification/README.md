# Verified model of goproxify's stateful core

goproxify is a reverse proxy whose gateways learn routes from Agents, exchange them inside a high-availability group, and
are administered and deployed from an Admin. This project models, in Dafny, the parts of it whose correctness depends on
order, retries, partial failure or shared storage, and proves what those parts are for.

| modules | what they cover |
|---|---|
| `PoolSources`, `RoutePrune`, `RouteFold` | who owns a backend of a discovery pool; the pruning of the route table by a full state; the merging of announced backends and the folding of a container's routes |
| `AliasRewrite`, `SortByKey`, `AgentState`, `AgentGateway`, `StateDigest`, `Replication`, `ReplicaPulls`, `ReplicaGroup`, `ReplicaLimits` | full states of Agents: validation, key, what applying them rewrites, content hash, store, digest, and the protocol by which the gateways of a group exchange them, as a step system |
| `Bytes`, `AsnCompact`, `AsnCodec`, `AsnLookup`, `AsnAssembly` | the compact IP-to-ASN base: its byte format, its binary search, and its reception in chunks |
| `DeploySpec`, `DeployFaults`, `DeployDaemon`, `DeployEngine` | the transactional deployment of containers against a Docker daemon whose requests may fail |
| `DouglasPeucker` | line simplification that overwrites its own input |
| `LoginLimiter` | the login limiter, over every run with a clock that does not go back |
| `ConfigPatch` | the merge of a configuration patch that spares secrets |
| `AgentLogs`, `LogRetries` | container logs stored under retries, exactly once when calls do not overlap |

Code that updates state in place is a class or a method with loops, whose contract ties the new state to a function of the
old one; what the system promises is then proved about those functions, over all inputs or all runs. `dafny verify
dfyconfig.toml` checks the whole project.

## What is modelled by assumption

- Instants are integers; clocks, the network, queue capacity, iteration orders and failures are parameters, choices of the
  environment or arbitrary steps, never fixed.
- gzip is a pair of functions of which one undoes the other; the version fingerprint of a base is any function of its bytes.
  The content hash of a state is the hashed document itself, so that distinct documents never collide, and the digest of a
  store is its text, in which hashes are written by any function that gives 64 characters and does not confuse the hashes at
  hand; sealing by the group key is the identity.
- `DeployDaemon` is the environment of the deployment engine: a request may fail without effect at any step, a network or a
  volume in use is not deleted, a removal of a container succeeds, nobody else changes the daemon meanwhile, and a reference
  to a missing network, volume or image is refused and counted in `badRefs`. When `reliable` is set, a request fails only if
  what it names is missing or taken. The daemon creates no anonymous volumes: removing a container with `force` would leave
  those of its image behind.
- What `ParseHostEntry` (internal/labels/host.go:54-82) reads as host is any function; a second reading may differ from the
  first, as it does for a name that ends with two dots.
- Strings are sequences of characters, compared and lower-cased in ASCII; file contents are sequences of bytes.
- Distances are exact reals and are kept squared.

## Where the code and what is said of it differ

- The purge of expired login buckets is meant to be invisible. It is not: `blocked` on an expired bucket restarts its
  window, and there is nothing to restart once the bucket is gone. `ToldApartIff` says exactly which buckets of a key later
  operations can tell apart, and `PurgeVisibleIff` exactly when a purge can still show, from the first failure or success of
  the key after any looks at it and any operations on other keys: only a failure, with a maximum of at least 2, that falls
  into the window the last restarting look opened without starting it. `PurgeChangesALock` is a run from an empty table in
  which the number of other clients decides whether a key is locked; `PurgeInvisible` covers all purge schedules of runs
  without such looks.
- The comment on the export of states (internal/edge/agentstate_replica.go:283-284) speaks of equal generations; the digest
  compares contents and ignores generations. The convergence theorems are about the code.
- The state a gateway keeps and passes on is not the one it received: `applyAgentRoute` cuts each alias down to its host and
  compacts the list in the storage of the state (`RewriteInPlace`, `PathNotKept`), and the state is put after that. A peer
  that pulls it rewrites it again. Two gateways can therefore keep different contents of one key and generation for ever:
  `RelayAgreesIff` says exactly when, `SettlesIff` which alias lists are safe, and `BlankAliasesNeverAgree` gives the list
  `["", "", "b"]`. The convergence theorems ask that what Agents send settles.
- A round in which one gateway pulls from all and then all pull from it does not always bring a group together: a pull is
  skipped when contents agree, even from a peer with a later generation, whose content another peer may have interrupted
  (`ContentReturns`). `SpreadAgreesIff` is the exact condition, and contents that do not come back suffice
  (`GroupRoundConverges`).
- A resend that begins before the first call has passed `advance`, as a slow disk and the Agent's time limit bring about,
  stores lines twice (`OverlapStoresTwice`); `CopiesAreTakers` and `HeldTwiceIff` say exactly which.
- A digest tells stores apart only if no key holds a newline: `NewlineStopsPulls` shows two gateways that keep different
  states and skip every pull. The convergence theorems carry that assumption (`Fit`, `Honest`).
- The merge of a configuration patch stops at depth 4: what the patch does not mention is kept exactly when the first key
  missing from the patch is at depth 4 at most, and is lost below (`UnmentionedUnchangedIff`).
- A masked or empty secret is skipped by the merge loops at depths 2 and 4 and not at depth 3 (`SecretKeptIffGuarded`,
  `SecretLostAtDepthThree`).
- A container with several URLs does not keep all of them when it is announced again: each URL replaces the first backend of
  the same container (`ReannouncedUnchangedIff`, `TwoUrlsOfOneContainer`).
- Ownership by different sources is not disjoint in general: an identifier that starts with `k8s:` and ends with `@name` is
  owned by Kubernetes and by the directory `name` (`OwnersOverlapIff`). Prune steps commute all the same (`PrunesCommute`).
- The identifier match is transitive only through whole-compared identifiers and those of at least 12 characters
  (`PivotIff`).
- A Portainer scope that holds a colon passes validation, but its prune then never touches the routes it declares
  (`DeclaredRouteJudgedIff`).
- The binary search finds every covered address only when no range hides the tail of an earlier one
  (`CompleteIffNoHiddenTail`); pairwise disjoint ranges are such a case (`LookupIsScanWhenDisjoint`, `LookupAfterRoundTrip`).
- Two lines of a container with the same timestamp, or going back in time, are not always stored exactly once, even when no
  calls overlap (`ExactlyOnceIffIncreasing`).

## Model

| member | source | states |
|---|---|---|
| `Replication.AcceptInv` | internal/edge/agentstate.go:153-159 | passing the generation filter keeps the gateway's invariant: what is pending was accepted, what is kept is what applying an accepted state leaves of it, no accepted state is lost between filter and store, and no generation of a key is accepted twice |
| `Replication.PutInv` | internal/edge/agentstate_replica.go:69-86 | whichever pending handler reaches the store next, the same invariant holds |
| `Replication.NextInv` | internal/edge/agentstate_replica.go:260-281 | every step of the group (sends, late or repeated deliveries, stores, exports, restarts) keeps every gateway's invariant and the authenticity of every state in flight |
| `Replication.EveryRunKeepsInv` | internal/edge/agentstate.go:101-187 | over every run of a group of any size, every gateway satisfies its invariant and has accepted nothing but validated forms of what Agents sent, applied as often as they were passed on |
| `Replication.KeptAuthentic` | internal/edge/agentstate.go:163-182 | what a gateway keeps is what applying such a state leaves of it |
| `Replication.KeptNotBeyondAccepted` | internal/edge/agentstate_replica.go:69-86 | in every run, a kept state's generation never exceeds the accepted generation of its key |
| `Replication.KeptNeverGoesBack` | internal/edge/agentstate_replica.go:76-79 | no step lowers the generation of a kept state or drops it, except a restart of that gateway |
| `Replication.IdleKeepsHighest` | internal/edge/agentstate.go:157-182 | once no handler is between filter and store, the kept keys are exactly the accepted ones, and each is kept as what applying the unique state of highest accepted generation leaves of it |
| `Replication.EveryIdleGatewayKeepsHighest` | internal/edge/agentstate.go:101-187 | the same for any idle gateway reached by any run, whatever the order, repetition and interleaving |
| `ReplicaPulls.AcceptWholeIsAtomic` | internal/edge/agentstate.go:153-187 | the filter and store steps of the group, taken in a row, change generations and store as the whole handler does, rewritten aliases included |
| `ReplicaPulls.MergedHasLater` | internal/edge/agentstate_replica.go:260-281 | merging a peer's export leaves, for every key, the later of the two states, the peer's having been validated and applied once more |
| `ReplicaPulls.DigestDecides` | internal/edge/agentstate_replica.go:285-299 | among gateways that have accepted only fit states (settled, one per key and generation, no newline in a key, no two contents of one hash), digests are equal exactly when the same keys are kept with the same hashes |
| `ReplicaPulls.MutualPullsConverge` | internal/edge/agentstate_replica.go:228-307 | one round of mutual pulls between two such idle gateways, one after the other, ends with equal digests, the same keys and the same content for each, even when a pull is skipped because the digests already agree |
| `ReplicaPulls.OverlappingPullsConverge` | internal/edge/agentstate_replica.go:228-307 | the same when the two pulls overlap, each merging what the other kept before |
| `ReplicaLimits.NewlineStopsPulls` | internal/edge/agentstate_replica.go:150-152 | two idle gateways that keep different keys, one with a newline, and skip every pull from each other |
| `ReplicaLimits.RelayAgreesIff` | internal/edge/agentstate_replica.go:228-281 | a gateway that has a valid state from its Agent and one that pulled it from there agree if and only if applying the state a second time does not change its hash, which, when sort keys tell routes apart, means that it settles; and no pull between them ever changes anything |
| `ReplicaLimits.BlankAliasesNeverAgree` | internal/edge/agenthandlers.go:840-848 | a valid state with two blank aliases before a host is kept with different hashes by the two |
| `ReplicaLimits.ContentReturns` | internal/edge/agentstate_replica.go:295-299 | three idle gateways whose round leaves one of them in disagreement, because a content came back |
| `ReplicaPulls.ConvergedContent` | internal/edge/agentstate_replica.go:139-154 | equal hashes mean the same routes and inactive entries for every key, generations aside |
| `ReplicaGroup.HonestAgentsNoReuse` | internal/edge/agentstate.go:64-66 | if Agents give each generation of a key to one state, and what they send settles, any two gateways of any reachable group keep the same of one key and generation, by whichever way they received it |
| `ReplicaGroup.GroupPullsConverge` | internal/edge/agentstate_replica.go:228-307 | in any run of any group whose Agents moreover send no newline in a key and no two contents of one hash, two idle gateways that pull from each other in turn end with equal digests, the same keys and the same content for each |
| `ReplicaGroup.GroupOverlapConverges` | internal/edge/agentstate_replica.go:228-307 | the same when they pull at the same time |
| `ReplicaGroup.SpreadAgreesIff` | internal/edge/agentstate_replica.go:228-307 | a gateway that pulls from another agrees with it afterwards if and only if, for every key, it kept nothing later or the same content |
| `ReplicaGroup.GroupRoundConverges` | internal/edge/agentstate_replica.go:228-307 | in any run of any group with such Agents, one idle gateway pulls from any others in turn and each of them then pulls from it: all agree with it, if among the states kept no content of a key comes back after another |
| `AgentGateway.ApplyRoutes` | internal/edge/agentstate.go:163-176 | the routes are applied in order, whatever applying one does to the table, each counts once, as applied or rejected, and each has its aliases rewritten where they are stored |
| `AgentGateway.Gateway.AcceptAgentState` | internal/edge/agentstate.go:153-187 | answers 400, 409 or 200 exactly by validity and generation; a refused or late state changes nothing; an accepted one advances the generation, applies its routes, prunes the result by exactly what it declares, rejected routes included, is kept with its rewritten aliases, and reports the counts of applied, rejected and pruned routes and a change exactly when the store sees one |
| `AgentState.Validate` | internal/edge/agentstate.go:189-225 | the in-place loops return the validated state or a refusal, as the declarative form says |
| `AgentState.ValidatedIff` | internal/edge/agentstate.go:189-225 | a state is accepted if and only if it names an Agent, a source with full states and a positive generation, and every route is of that Agent and source, or names none, and within the endpoint when there is one |
| `AgentState.KeptInactiveMeans` | internal/edge/agentstate.go:199-205 | of the inactive entries, those with a host and a container are kept, each as often as before |
| `AgentState.ValidatedTwice` | internal/edge/agentstate.go:189-225 | validating a validated state again accepts it unchanged, with the same key and a positive generation: what lets states travel between peers |
| `AgentState.ValidatedSpeaksForItself` | internal/edge/agentstate.go:206-219 | every route of a validated state belongs to its Agent and source, either as sent or because it named none, and is otherwise unchanged |
| `AgentState.DeclaredRouteJudgedIff` | internal/edge/agentstate.go:220-239 | a route that a scoped Portainer state declares is one its prune judges if and only if the scope holds no colon |
| `AliasRewrite.RewriteInPlace` | internal/edge/agenthandlers.go:356-369 | the two loops leave, in the storage of the state, the hosts that are not blank in order and behind them what was there, and give the caller the first part |
| `AliasRewrite.FilterEmpty` | internal/edge/agenthandlers.go:840-848 | the compaction over its own input keeps the elements that are not blank, in order, and changes nothing behind them |
| `AliasRewrite.BlankMeans` | internal/edge/agenthandlers.go:843-843 | an alias is blank when it holds nothing but white space, in ASCII |
| `AliasRewrite.RewriteFixedIff` | internal/edge/agenthandlers.go:362-369 | a list is left alone by the rewrite if and only if every alias is its own host and the blank ones come last, whatever the reading of hosts is |
| `AliasRewrite.SettlesIff` | internal/edge/agenthandlers.go:362-369 | a second rewrite changes nothing if and only if the hosts left are their own hosts and, in the part behind the kept ones, the blank ones come last |
| `AliasRewrite.BlanksBeforeAHost` | internal/edge/agenthandlers.go:840-848 | `["", "", "b"]` becomes `["b", "", "b"]`, which becomes `["b", "b", "b"]` |
| `AliasRewrite.PathNotKept` | internal/edge/agenthandlers.go:362-368 | an alias with a path is kept without it |
| `AgentState.RewrittenValid` | internal/edge/agentstate.go:189-225 | a validated state stays valid when its aliases are rewritten, with the same key and generation |
| `AgentState.SettledIff` | internal/edge/agentstate.go:163-182 | a state is kept the same by a gateway that receives it from another if and only if the aliases of every route settle |
| `AgentState.SettledHashIff` | internal/edge/agentstate_replica.go:40-65 | when sort keys tell its routes apart, its hash stays the same exactly then |
| `AgentState.KeyInjective` | internal/edge/agentstate.go:120-120 | among valid states whose Agent names hold no bar, equal keys mean equal Agent, source and scope, whatever the scope holds |
| `AgentState.HashEqualIffSameContent` | internal/edge/agentstate_replica.go:40-65 | equal hashes mean the same content up to order; when sort keys determine the entries, the same content up to order means equal hashes |
| `AgentState.AgentStateStore.PutState` | internal/edge/agentstate_replica.go:69-86 | the new store, whose hashes stay those of its states, and a change reported exactly for a newer state with no predecessor or another hash |
| `AgentState.PutMeans` | internal/edge/agentstate_replica.go:76-84 | a state not later than the kept one of its key leaves the store as it is; a later or first one is kept with its hash, and no other key changes |
| `AgentState.ChangeMeansContent` | internal/edge/agentstate_replica.go:67-86 | a change is reported exactly when the state is newer and its content differs from the kept one, or none was kept |
| `AgentState.AgentGenerations.Accept` | internal/edge/agentstate.go:101-112 | accepts exactly the generations above the last one of the key, and records only those |
| `StateDigest.Digest` | internal/edge/agentstate_replica.go:141-154 | the loops, in any iteration order of the map, write the text of the store: its keys in order, each with its hash |
| `StateDigest.LinesInjective` | internal/edge/agentstate_replica.go:149-152 | the text determines the keys listed and all their hashes, for keys without newline and hashes of 64 characters |
| `StateDigest.DigestEqualIff` | internal/edge/agentstate_replica.go:139-154 | two stores have equal digests if and only if they keep the same keys with the same hashes, under the same conditions |
| `StateDigest.NewlineCollides` | internal/edge/agentstate_replica.go:150-152 | a valid state whose scope holds a newline has, alone, the digest of two states of other keys |
| `AgentState.CollectDeclared` | internal/edge/agentstate.go:161-169 | the loop gathers, for every lower-cased host, the containers declared for it in order, and exactly the declared route identifiers |
| `AgentState.BackendsLeftAreInTheState` | internal/edge/agentstate.go:153-187 | after the prune by a state, every backend left of its Agent and source on this gateway matches a route of that state for the same host |
| `AgentState.DeclaredByState` | internal/edge/agentstate.go:161-169 | a container is declared for a host if and only if some route of the state has that host, in lower case, and that container |
| `AgentState.RouteProtects` | internal/edge/agentstate.go:153-187 | a backend, canary or shadow for whose host the state has a route of the same container is still there after the prune by that state |
| `SortByKey.SortIsSortedCopy` | internal/edge/agentstate_replica.go:41-58 | the sort returns a permutation ordered by the lexicographic key |
| `SortByKey.SortedCopyUniqueIff` | internal/edge/agentstate_replica.go:42-58 | every possible outcome of the unstable sort is the same if and only if equal keys mean equal entries |
| `SortByKey.SortOrderIndependent` | internal/edge/agentstate_replica.go:39-58 | the sorted copy does not depend on the order of the input when keys determine the entries |
| `AgentState.SortKeysMean` | internal/edge/agentstate_replica.go:42-58 | routes are compared by identifier, then host, then container, inactive entries by host, then container |
| `PoolSources.OwnersOverlapIff` | internal/edge/agentstate.go:38-52 | two different sources own the same identifier if and only if it is `k8s:…@name` and they are Kubernetes and the directory of that name |
| `PoolSources.PoolSourceIff` | internal/edge/agentstate.go:38-54 | the sources with a pool are docker, k8s and the directory names that are neither reserved nor Portainer's |
| `PoolSources.DirectoryNameMeans` | internal/edge/agentstate.go:54-54 | a directory name has 1 to 32 characters, lower-case letters and digits, and after the first also underscores and dashes |
| `PoolSources.OwnsMeans` | internal/edge/agentstate.go:38-52 | docker owns non-empty identifiers without `@` and without `k8s:` in front, k8s those with it, a directory those that end with `@` and its name |
| `PoolSources.SameMeans` | internal/edge/agentstate.go:41-56 | docker compares by the container match, every other source by equality of non-empty identifiers |
| `PoolSources.MatchMeans` | internal/edge/agenthandlers.go:861-878 | identifiers match if and only if they are non-empty and equal, or neither is whole-compared and one's first 12 characters begin the other's |
| `PoolSources.MatchSymmetric` | internal/edge/agenthandlers.go:861-878 | the match is symmetric, although its code is not |
| `PoolSources.PivotIff` | internal/edge/agenthandlers.go:857-878 | matches compose through an identifier if and only if it is whole-compared or has at least 12 characters |
| `PoolSources.EndpointOfScope` | internal/edge/agentstate.go:288-294 | the endpoint read back from a Portainer route identifier is its scope if and only if the scope holds no colon |
| `PoolSources.EndpointMeans` | internal/edge/agentstate.go:287-294 | the endpoint is what stands between the first two colons of the identifier, and empty when there are not two |
| `RoutePrune.KeepPool` | internal/edge/agentstate.go:313-326 | the loop keeps exactly the backends of others, other sources, other gateways or declared, in order, and reports a change exactly when one went |
| `RoutePrune.KeepPortainer` | internal/edge/agentstate.go:257-266 | the same for a Portainer route, where a backend without container survives only under a declared identifier |
| `RoutePrune.RouteTable.WriteBack` | internal/edge/agentstate.go:337-346 | the table afterwards: route untouched, reduced, or removed when nothing is left |
| `RoutePrune.RouteTable.PrunePoolRoute` | internal/edge/agentstate.go:313-347 | only that route changes, into its pruned form, and the result says whether it changed |
| `RoutePrune.RouteTable.PrunePortainerRoute` | internal/edge/agentstate.go:257-285 | the same for a Portainer route |
| `RoutePrune.RouteTable.PruneRoute` | internal/edge/agentstate.go:232-248 | each route is judged by the rule of the state's source, or left alone |
| `RoutePrune.RouteTable.PruneAgentSource` | internal/edge/agentstate.go:229-251 | whatever the order of the routes, the table becomes the pointwise prune and the count is the number of routes that changed |
| `RoutePrune.PoolStaysIff` | internal/edge/agentstate.go:311-347 | on a discovery pool, a backend stays if and only if it is relayed from another gateway, belongs to another Agent, is not of the source, or is declared for the route's host; the canary and the shadow if and only if the route is another Agent's, or they are not of the source, or they are declared |
| `RoutePrune.PortainerStaysIff` | internal/edge/agentstate.go:253-285 | on a Portainer route of the Agent and endpoint, a backend stays if and only if it is relayed, declared for the host, or unnamed under a declared identifier; the canary and the shadow if and only if they are declared |
| `RoutePrune.KeptAsOften` | internal/edge/agentstate.go:314-326 | a pool keeps each backend as often as it had it, or not at all |
| `RoutePrune.LowerMeans` | internal/edge/agentstate.go:245-245 | hosts are compared in ASCII lower case |
| `RoutePrune.PruneLeavesOnlyDeclared` | internal/edge/agentstate.go:311-347 | every backend, canary and shadow left that belongs to the Agent and source on this gateway is declared for its route's host |
| `RoutePrune.PruneLeavesOnlyDeclaredPortainer` | internal/edge/agentstate.go:253-285 | the same for Portainer routes of the Agent and endpoint |
| `RoutePrune.ChangedRoutesNotEmpty` | internal/edge/agentstate.go:337-346 | no changed route is left empty, and a route disappears exactly when pruning takes its last target |
| `RoutePrune.PruneSparesOthers` | internal/edge/agentstate.go:231-347 | backends, canary and shadow of routes the source does not manage, and of other gateways, other Agents or other sources in those it does, stay; `k8s:…@…` identifiers aside |
| `RoutePrune.PrunesCommute` | internal/edge/agentstate.go:229-347 | any two prune steps, of any sources, Agents and scopes, commute on every table, and each is idempotent |
| `RouteFold.MergeDiscoveryBackends` | internal/edge/agenthandlers.go:894-915 | the nested loops compute the fold that replaces the first backend of the same container or URL, or appends |
| `RouteFold.AnnouncementKeptAndIdempotent` | internal/edge/agenthandlers.go:894-915 | with distinct non-empty containers and URLs, every announced backend is in the pool and announcing again changes nothing |
| `RouteFold.MergeLosesOnlyReplaced` | internal/edge/agenthandlers.go:894-915 | no place of the pool disappears, and one changes only for an announced backend of its container or URL |
| `RouteFold.MergeOneMeans` | internal/edge/agenthandlers.go:896-912 | one announced backend takes the first place of its named container or of its URL, changing nothing else, or a new place at the end when there is none |
| `RouteFold.MergeKeepsOrDisplaces` | internal/edge/agenthandlers.go:894-915 | a backend of either list is in the result unless a different announced one has its container or its URL, and nothing else is in the result |
| `RouteFold.TwoUrlsOfOneContainer` | internal/edge/agenthandlers.go:898-903 | a container with two URLs: the second replaces the first, and announcing both again leaves the second twice |
| `RouteFold.FirstPlaceTaken` | internal/edge/agenthandlers.go:898-903 | backends of one container announced over a pool that starts with it all land in the first place, the last one staying |
| `RouteFold.ReannouncedUnchangedIff` | internal/edge/agenthandlers.go:518-561 | announcing a container again over the route its first announcement made changes nothing if and only if its first and last backend are equal, and loses none if and only if the first one occurs again |
| `RouteFold.AddNamesCover` | internal/edge/agenthandlers.go:601-608 | names added to a route's aliases are all covered, empty ones aside, and no earlier alias is dropped |
| `RouteFold.AddNamesOnly` | internal/edge/agenthandlers.go:601-608 | only names asked for are added, trimmed, and none twice in any case |
| `RouteFold.TrimMeans` | internal/edge/agenthandlers.go:827-831 | trimming leaves nothing exactly of blank strings, and otherwise neither begins nor ends with a space |
| `RouteFold.FoldCovers` | internal/edge/agenthandlers.go:600-608 | folding one route into another covers its host and aliases, keeps the other's identity, host, aliases, canary and shadow, loses no backend of the two but to another of its container or URL, and adds none from elsewhere |
| `RouteFold.HolderMeans` | internal/edge/agenthandlers.go:578-630 | the routes looked for are the docker-host routes with a backend, a canary or a shadow that matches the container |
| `RouteFold.FoldingTable.Holders` | internal/edge/agenthandlers.go:577-585 | exactly the docker-host routes that hold the container, each once |
| `RouteFold.FoldingTable.ChoosePrimary` | internal/edge/agenthandlers.go:589-595 | one of them, and one of the wanted host whenever there is one |
| `RouteFold.FoldingTable.FoldAll` | internal/edge/agenthandlers.go:596-610 | no other route holds the container afterwards, the survivor covers every host and alias of the folded ones, its pool holds every backend of all holders but those displaced by another holder's backend of the same container or URL, neither pool nor aliases hold anything from elsewhere, no alias comes twice if none did, and all other routes are unchanged |
| `RouteFold.FoldingTable.FoldDockerRoutes` | internal/edge/agenthandlers.go:573-612 | the same from the whole table in any iteration order, with nothing changed when no route holds the container |
| `AsnCompact.ValidWellFormed` | internal/asncompact/asncompact.go:39-51 | the ranges kept are ordered, non-zero and within the bounds of their family |
| `AsnCompact.UnmapMeans` | internal/asncompact/asncompact.go:41-41 | in numbers, exactly the addresses from `::ffff:0:0` to `::ffff:ffff:ffff` stand for the IPv4 address of their last 32 bits |
| `AsnCompact.FilterMeans` | internal/asncompact/asncompact.go:40-51 | a range between two IPv4 addresses, mapped or not, is kept as the IPv4 range of those numbers, one between two other IPv6 addresses as an IPv6 range, if its bounds are in order and it has an ASN; ranges of mixed families or with an invalid bound are dropped |
| `AsnCompact.StableSortFacts` | internal/asncompact/asncompact.go:94-96 | the sort gives a permutation in start order that keeps the relative order of equal starts |
| `AsnCompact.StableOrderUnique` | internal/asncompact/asncompact.go:94-96 | only one list is sorted and stable, so any stable sort gives this one |
| `Bytes.VarintRoundTrip` | internal/asncompact/asncompact.go:57-58 | every 64-bit varint followed by anything is read back as written |
| `Bytes.ReadVarint` | internal/asncompact/asncompact.go:131-131 | the reading loop agrees with the recursive reader, on malformed and truncated input too |
| `Bytes.BytesLessIsLess` | internal/asncompact/asncompact.go:200-201 | comparing 16-byte addresses byte by byte is comparing the numbers they write |
| `AsnCodec.SplitFamilies` | internal/asncompact/asncompact.go:39-51 | the filtering loop sends each valid range, unmapped, to its family, and drops the others |
| `AsnCodec.WriteBody4` | internal/asncompact/asncompact.go:61-68 | the loop over IPv4 ranges writes the delta format |
| `AsnCodec.WriteBody6` | internal/asncompact/asncompact.go:70-75 | the loop over IPv6 ranges writes the 16-byte format |
| `AsnCodec.Encode` | internal/asncompact/asncompact.go:38-75 | the whole encoder writes the raw form of the ranges |
| `AsnCodec.ReadRange4` | internal/asncompact/asncompact.go:140-153 | one IPv4 range is read or refused as the format says, with 32-bit wrap-around |
| `AsnCodec.ReadRanges4` | internal/asncompact/asncompact.go:138-154 | the loop reads the ranges of the recursive reader, and fails exactly when it does |
| `AsnCodec.ReadRange6` | internal/asncompact/asncompact.go:160-171 | one IPv6 range is read or refused as the format says |
| `AsnCodec.ReadRanges6` | internal/asncompact/asncompact.go:159-172 | the same for the IPv6 loop |
| `AsnCodec.Decode` | internal/asncompact/asncompact.go:118-174 | the whole decoder gives the base or an error, as the format says, for any bytes |
| `AsnCodec.DecodeOfEncode` | internal/asncompact/asncompact.go:38-174 | decoding an encoded list gives back exactly its valid ranges per family in stable start order, unless a family exceeds 4,000,000 ranges or the raw form 128 MiB, and then fails |
| `AsnCodec.DecodedSound` | internal/asncompact/asncompact.go:118-174 | whatever the bytes, a base that decodes has the magic, is within the limits, and every range of it has ordered bounds, 16-byte addresses and a 32-bit ASN that is not 0 |
| `AsnCodec.OneRangeBytes` | internal/asncompact/asncompact.go:55-75 | the bytes of one range: magic, count, start, length and ASN as varints, and no IPv6 range |
| `AsnLookup.Lookup4` | internal/asncompact/asncompact.go:189-194 | on sorted ranges the binary search answers with the last range that starts at or before the address, if it covers it, else 0 |
| `AsnLookup.Lookup6` | internal/asncompact/asncompact.go:199-204 | the same for 16-byte addresses |
| `AsnLookup.Lookup` | internal/asncompact/asncompact.go:183-205 | the same for any address, mapped IPv4 and invalid ones included |
| `AsnLookup.AnswerFamily` | internal/asncompact/asncompact.go:187-204 | in numbers: IPv4 addresses and `::ffff:0:0` to `::ffff:ffff:ffff` are looked up among the IPv4 ranges, every other IPv6 address among the IPv6 ranges, and an invalid address has no answer |
| `AsnLookup.LookupAfterRoundTrip` | internal/asncompact/asncompact.go:38-205 | encode, decode, look up: the base loads exactly within the limits, has the encoder's version, answers from the last range of the family that starts at or before the address, and gives the linear scan of the caller's own ranges when no address is in two of them |
| `AsnLookup.AnswerIsScanOfRanges` | internal/asncompact/asncompact.go:38-205 | for ranges of both families, in any order and form, of which no two hold a common address, the answer of the sorted families is the scan of the ranges as given, for every address |
| `AsnLookup.LastSound` | internal/asncompact/asncompact.go:190-193 | a non-zero answer is the number of a range that covers the address, whatever overlaps |
| `AsnLookup.LookupIsScanWhenDisjoint` | internal/asncompact/asncompact.go:94-96 | for pairwise disjoint ranges given in any order, the answer is that of a linear scan, for every address |
| `AsnLookup.CompleteIffNoHiddenTail` | internal/asncompact/asncompact.go:190-194 | every covered address is answered if and only if no range ends inside an earlier one with a gap before the next start |
| `AsnAssembly.Gateway.ApplyChunk` | internal/edge/asndb.go:95-134 | one chunk, accepted, ignored or refused: the new assembly and the installed base |
| `AsnAssembly.Join` | internal/edge/asndb.go:118-121 | the parts are concatenated in order of sequence number |
| `AsnAssembly.ReceiveInv` | internal/edge/asndb.go:99-123 | any chunk keeps: the size is the sum of the parts, at most 64 MiB, and fewer parts than announced |
| `AsnAssembly.EveryRunKeepsInv` | internal/edge/asndb.go:95-123 | the same after every sequence of chunks |
| `AsnAssembly.InstalledAsAnnounced` | internal/edge/asndb.go:95-134 | after every sequence of chunks, each handled to the end before the next, the installed base is the one completed last by a chunk whose announced version it decodes to, and there is none if no chunk completes such a base |
| `AsnAssembly.InstalledInAnyOrder` | internal/edge/asndb.go:118-134 | with completed bases decoded and installed after the lock is released, in any order, an installed base was completed by a chunk whose announced version it decodes to |
| `AsnAssembly.Reassembled` | internal/edge/asndb.go:99-123 | chunks of one version in any order and with repeats give the original bytes at the moment the last missing one arrives, and nothing before |
| `AsnAssembly.BaseArrivesIntact` | internal/edge/asndb.go:95-134 | an encoded base cut into chunks and delivered so is installed as the valid ranges it was made from, under its version |
| `DeploySpec.CheckNames` | internal/deploy/spec.go:130-149 | accepts exactly lists of well-formed distinct names, and returns their set |
| `DeploySpec.CheckFiles` | internal/deploy/spec.go:225-237 | accepts exactly normalised absolute paths with valid modes and at most 1 MiB in all |
| `DeploySpec.CheckEnv` | internal/deploy/spec.go:172-176 | the loop, in any order of the variables, accepts exactly well-formed names |
| `DeploySpec.CheckPorts` | internal/deploy/spec.go:182-191 | accepts exactly ports in range with a known protocol |
| `DeploySpec.CheckMounts` | internal/deploy/spec.go:192-208 | accepts exactly absolute targets of declared volumes or allowed host paths |
| `DeploySpec.CheckAttaches` | internal/deploy/spec.go:209-218 | accepts exactly declared networks with well-formed aliases |
| `DeploySpec.CheckCaps` | internal/deploy/spec.go:238-242 | accepts exactly well-formed capabilities |
| `DeploySpec.CheckContainer` | internal/deploy/spec.go:168-244 | the checks in order, each a loop that stops at its first fault, accept a container exactly when every part of it is valid |
| `DeployEngine.ContainerRefs` | internal/deploy/spec.go:192-218 | a container that passes mounts only declared volumes and joins only declared networks, which is what the deployment relies on |
| `DeploySpec.Validate` | internal/deploy/spec.go:119-166 | accepts a description exactly when it is well formed |
| `DeployFaults.SpecIff` | internal/deploy/spec.go:119-166 | a description is accepted if and only if it has none of the faults that the messages name: version, no container, invalid or repeated names, or a fault in a container |
| `DeployFaults.ContainerIff` | internal/deploy/spec.go:168-244 | a container is accepted if and only if it has none of seventeen faults, one for each message, with the limits in numbers |
| `DeployFaults.NameIff` | internal/deploy/spec.go:97-97 | names are a letter or digit followed by letters, digits, underscores, dots and dashes |
| `DeployFaults.ImageIff` | internal/deploy/spec.go:98-98 | images may also hold slashes, colons and at signs |
| `DeployFaults.VariableIff` | internal/deploy/spec.go:99-99 | variables are letters, digits and underscores, and do not begin with a digit |
| `DeployFaults.CapabilityIff` | internal/deploy/spec.go:100-100 | capabilities are upper-case letters and underscores |
| `DeployEngine.PlanConflicts` | internal/deploy/engine.go:116-128 | succeeds only if no described name is taken, and always then if the daemon answers |
| `DeployEngine.NoConflictMeans` | internal/deploy/engine.go:116-128 | no conflict means that no container of the host, started or not, has a described name |
| `DeployEngine.PlanMissing` | internal/deploy/engine.go:129-146 | the names that do not exist yet, in order |
| `DeployEngine.PlanPulls` | internal/deploy/engine.go:147-163 | the images to pull, each once |
| `DeployEngine.MissingFacts` | internal/deploy/engine.go:129-146 | what is planned is exactly what is described and absent, without repeats |
| `DeployEngine.PullsCover` | internal/deploy/engine.go:147-163 | after the planned pulls every image needed is there |
| `DeployEngine.PullsExactly` | internal/deploy/engine.go:147-163 | the images pulled are exactly those needed and absent, or all needed when told so, each once |
| `DeployEngine.MakePlan` | internal/deploy/engine.go:111-165 | a plan only for a valid description without conflict, and exactly the plan of the daemon's content |
| `DeployEngine.PullAll` | internal/deploy/engine.go:182-187 | touches images only, and brings all of them on success |
| `DeployEngine.CreateNetworks` | internal/deploy/engine.go:206-220 | wherever it stops, the journal lists exactly what was created; on success every planned network exists |
| `DeployEngine.CreateVolumes` | internal/deploy/engine.go:221-227 | the same for volumes |
| `DeployEngine.ConnectOthers` | internal/deploy/engine.go:239-244 | the new container ends on all its networks, nothing else changes, and no missing network is named |
| `DeployEngine.FillAndStart` | internal/deploy/engine.go:245-254 | its files are put and it is started, nothing else changes |
| `DeployEngine.WantedMeans` | internal/deploy/engine.go:230-254 | a deployed container has every network and named volume of its description, its files, and runs |
| `DeployEngine.WaitHealthy` | internal/deploy/engine.go:294-324 | succeeds only when the container was seen healthy, and always when it becomes so within the timeout |
| `DeployEngine.DeployContainer` | internal/deploy/engine.go:230-261 | one container as described or a journal that still lists everything created; the log says it was seen healthy before success if it had to be |
| `DeployEngine.DeployContainers` | internal/deploy/engine.go:229-262 | the same in order for all, with the exact trace of creations and healthy sightings, also when stopped anywhere |
| `DeployEngine.SeenHealthyBeforeNext` | internal/deploy/engine.go:255-261 | in such a trace a container that must be healthy is seen so before the next one is created |
| `DeployEngine.SeenHealthyBeforeStopped` | internal/deploy/engine.go:255-261 | the same in the trace of a deployment stopped anywhere |
| `DeployEngine.RunPlan` | internal/deploy/engine.go:200-263 | from a valid description without conflict, no request names a missing network, volume or image; wherever it stops the journal is exact |
| `DeployEngine.RollbackContainers` | internal/deploy/engine.go:338-340 | the containers are those from before |
| `DeployEngine.RollbackVolumes` | internal/deploy/engine.go:341-343 | no deletion is refused as in use, and the volumes are those from before |
| `DeployEngine.NetworkStep` | internal/deploy/engine.go:344-346 | deleting the last network of the journal, by its identifier or its name, is not refused and removes that network and no other |
| `DeployEngine.RollbackNetworks` | internal/deploy/engine.go:344-346 | the same for networks, whether named by identifier or by name |
| `DeployEngine.Rollback` | internal/deploy/engine.go:328-351 | the order containers, volumes, networks is never refused and restores everything but images |
| `DeployEngine.Apply` | internal/deploy/engine.go:177-198 | failure at any step leaves containers, volumes and networks exactly as before, the rollback is complete, and the trace is that of a deployment stopped there; success leaves the described deployment beside everything that was there, with the exact trace; and success is certain for a valid description without conflict on a daemon that refuses only bad references and whose containers become healthy in time |
| `DouglasPeucker.PerpDistIsSegmentDistance` | scripts/gen_world_geojson.go:34-42 | the distance computed is reached on the segment and is no more than that of any point of the segment |
| `DouglasPeucker.DistanceMeans` | scripts/gen_world_geojson.go:39-41 | the squared distance to the point a fraction along the segment, in coordinates |
| `DouglasPeucker.FindFarthest` | scripts/gen_world_geojson.go:48-53 | the scan finds the farthest inner point and its distance |
| `DouglasPeucker.FarthestIsFarthest` | scripts/gen_world_geojson.go:48-53 | that point is the first of greatest positive deviation, or none deviates |
| `DouglasPeucker.Simplify` | scripts/gen_world_geojson.go:44-60 | terminates for every list and tolerance at least 0, is no longer than its input and keeps both ends |
| `DouglasPeucker.SimplifyWithinTolerance` | scripts/gen_world_geojson.go:34-60 | the result is a subsequence with both ends, and every dropped point is within the tolerance of the segment between the kept points around it |
| `DouglasPeucker.KeptEarned` | scripts/gen_world_geojson.go:48-59 | every kept point but the ends earns its place: between two kept points it leaves the segment joining them by more than the tolerance, and is the first of the farthest there |
| `DouglasPeucker.ChordOnly` | scripts/gen_world_geojson.go:54-56 | a line whose inner points are all within the tolerance of the segment joining its ends becomes its two ends |
| `DouglasPeucker.SimplifyIdempotent` | scripts/gen_world_geojson.go:44-60 | simplifying again changes nothing |
| `DouglasPeucker.AppendDroppingLast` | scripts/gen_world_geojson.go:59-59 | the append gives left without its last point, then right, even when both share storage; in place exactly when the capacity allows, writing nothing outside its new elements |
| `DouglasPeucker.AppendInside` | scripts/gen_world_geojson.go:59-59 | inside a window it changes no point outside and neither end |
| `DouglasPeucker.SimplifyHalves` | scripts/gen_world_geojson.go:57-58 | both recursive results are right although the second call runs over the storage of the first |
| `DouglasPeucker.SimplifySplit` | scripts/gen_world_geojson.go:57-59 | the split case gives the pure result on the original points |
| `DouglasPeucker.SimplifyInPlace` | scripts/gen_world_geojson.go:44-60 | the aliasing code returns exactly the pure simplification of the original points and changes only points strictly between the two ends |
| `LoginLimiter.Limiter.Blocked` | internal/admin/login_limit.go:76-98 | reports the longest remaining lock among the keys, blocked exactly if one is locked, and restarts exactly the windows that are over |
| `LoginLimiter.Limiter.FailN` | internal/admin/login_limit.go:107-133 | the table afterwards, purge included |
| `LoginLimiter.Limiter.Purge` | internal/admin/login_limit.go:111-117 | whatever the order, exactly the expired buckets go |
| `LoginLimiter.Limiter.Success` | internal/admin/login_limit.go:135-141 | exactly the buckets of the keys go |
| `LoginLimiter.FailureMeans` | internal/admin/login_limit.go:118-132 | one failure: the count starts at 1 with a new window, or grows by 1 within five minutes of the window's start; at the maximum the key is locked for fifteen minutes with a count of 0 and a new window |
| `LoginLimiter.SuccessReleases` | internal/admin/login_limit.go:135-141 | after a success no wait is reported for its keys, they start anew, and no other key is touched |
| `LoginLimiter.StepProjects` | internal/admin/login_limit.go:76-141 | other keys reach a key's bucket only through the purge |
| `LoginLimiter.LockNeedsMaxFailures` | internal/admin/login_limit.go:107-133 | in every run, a failure that locks a key is at least the max-th of that key within the preceding five minutes |
| `LoginLimiter.LockStep` | internal/admin/login_limit.go:76-141 | an operation that leaves the key's bucket never moves the end of its lock back, and until that end only a success takes it away |
| `LoginLimiter.LockEndNeverDecreases` | internal/admin/login_limit.go:76-141 | in every run, as long as its bucket exists, the end of a key's lock never decreases |
| `LoginLimiter.LockHoldsUntilItEnds` | internal/admin/login_limit.go:76-141 | in every run, a locked key stays locked and is reported with at least the remaining time until its end, purges included, unless a success clears it |
| `LoginLimiter.UnlockedFailuresBounded` | internal/admin/login_limit.go:76-133 | in every run, five minutes without lock or success hold at most 2·(max−1) failures of a key |
| `LoginLimiter.NewKeyLocksInTime` | internal/admin/login_limit.go:107-133 | a key without a bucket is locked by its max-th failure within five minutes at the latest, whatever looks and purges come between |
| `LoginLimiter.PurgeInvisible` | internal/admin/login_limit.go:107-133 | purges on any schedule change no answer and no lock in runs where no look at the key meets an expired bucket |
| `LoginLimiter.ToldApartIff` | internal/admin/login_limit.go:76-141 | some later run of answers and locks, with one maximum for the key, tells two buckets of it apart if and only if their locks end differently or, with a maximum of at least 2, they are not both missing, both over, or in the same window with the same count |
| `LoginLimiter.PurgeCanShowIff` | internal/admin/login_limit.go:111-117 | at the moment an expired bucket is purged, some later run can tell if and only if the maximum is at least 2 |
| `LoginLimiter.PurgeVisibleIff` | internal/admin/login_limit.go:92-126 | after a purge, any looks at the key and any operations on other keys show nothing; after the key's next failure or success, some later run can tell if and only if it is a failure at `t`, the maximum is at least 2, and `r < t <= r + 5 min`, where `r` is the last look that found the window over |
| `LoginLimiter.PurgeChangesALock` | internal/admin/login_limit.go:107-133 | two runs from an empty table that differ by one of 50,000 other clients: the same failures of a key lock it in the one that purges and not in the other |
| `ConfigPatch.MergeEntry` | internal/agent/internal_api.go:301-309 | the innermost loop, in any key order, is the merge at depth 4 |
| `ConfigPatch.MergeSub` | internal/agent/internal_api.go:296-317 | the loop around it is the merge at depth 3 |
| `ConfigPatch.MergeSection` | internal/agent/internal_api.go:284-325 | the loop over a section is the merge at depth 2 |
| `ConfigPatch.ApplyConfigPatch` | internal/agent/internal_api.go:271-331 | the whole is the merge at depth 1, which has no order |
| `ConfigPatch.MergeIdempotent` | internal/agent/internal_api.go:271-331 | applying a patch twice is applying it once |
| `ConfigPatch.MergeAlongPath` | internal/agent/internal_api.go:271-331 | the value at any path of up to four keys under common objects is decided by what base and patch have at that path |
| `ConfigPatch.BelowDepthFour` | internal/agent/internal_api.go:308-316 | below depth 4 under common objects the patch replaces |
| `ConfigPatch.UnmentionedUnchangedIff` | internal/agent/internal_api.go:271-331 | a path of any length that the patch does not mention, whatever the configuration has on it, keeps its value if the first key missing from the patch is at depth 4 at most, and has none afterwards otherwise |
| `ConfigPatch.PatchedValue` | internal/agent/internal_api.go:271-331 | what the patch carries at a path of any length, if it is no object, is there afterwards whatever the configuration had, except an empty string or eight bullets under a secret key at depth 2 or 4 below objects of the configuration, which leaves what the configuration has there |
| `ConfigPatch.PatchedObject` | internal/agent/internal_api.go:271-331 | where the patch has an object there is one afterwards, whatever was there |
| `ConfigPatch.SecretKeptIffGuarded` | internal/agent/internal_api.go:286-307 | an existing secret survives an empty or masked value if and only if it is at depth 2 or 4 |
| `ConfigPatch.SecretLostAtDepthThree` | internal/agent/internal_api.go:296-317 | a concrete secret lost at depth 3 |
| `AgentLogs.Gateway.AdvanceLocked` | internal/edge/agentlogs.go:41-50 | the position of the container moves to the instant if that is later, and no other position moves |
| `AgentLogs.Gateway.StoreAgentLogs` | internal/edge/agentlogs.go:56-83 | of a call that no other call of the container overlaps: the lines of the batch later than the last kept one are stored in order as far as the queue goes, and the position advances to the latest stored |
| `AgentLogs.FreshPrefix` | internal/edge/agentlogs.go:59-77 | what is new of a beginning of a batch begins what is new of the batch |
| `AgentLogs.FreshMeans` | internal/edge/agentlogs.go:59-69 | a line is stored if and only if it is one of the batch, undated ones taken at the gateway's clock, and nothing was seen or it is later than what was seen |
| `LogRetries.NextInv` | internal/edge/agentlogs.go:56-83 | every step of every call (reading the position, each line, full queue, return), among other calls of the container and of others, keeps: what is recorded or acknowledged is stored, and each line is stored as often as calls took it |
| `LogRetries.CopiesAreTakers` | internal/edge/agentlogs.go:56-83 | over every run, calls overlapping as they may, each line of a stream with strictly increasing timestamps is stored exactly as often as calls took it, a call taking the lines from the position it read to where it stopped; and every acknowledged line is stored |
| `LogRetries.HeldTwiceIff` | internal/edge/agentlogs.go:57-81 | a line is stored twice or more if and only if two different calls took it |
| `LogRetries.OverlapStoresTwice` | internal/edge/agentlogs.go:57-81 | a resend of the same lines that begins before the first call has passed `advance` stores every one of them twice |
| `LogRetries.AloneIsOneCall` | internal/edge/agentlogs.go:56-83 | the steps of a call that runs alone, with room for its lines, store and record what the whole call does |
| `LogRetries.AloneRefusedIsOneCall` | internal/edge/agentlogs.go:67-73 | and so do those of a call that finds the queue full at a new line: what it added counts as seen |
| `LogRetries.SerialExactlyOnce` | internal/edge/agentlogs.go:26-83 | over every run of sends, resends, late copies, full queues and lost acknowledgements in which no call of the container begins inside another, whatever calls of other containers do between, a stream with strictly increasing timestamps is stored once and in order, up to at least what was acknowledged |
| `LogRetries.CutLosesLine` | internal/edge/agentlogs.go:64-66 | wherever a timestamp does not grow, a cut of the batches there loses the line |
| `LogRetries.ExactlyOnceIffIncreasing` | internal/edge/agentlogs.go:26-83 | all runs without overlapping calls of the container store each line of a dated stream once and in order if and only if its timestamps strictly increase |

## Left out

- AgentGateway.Gateway.AcceptAgentState: what applying one route does to the table (labels, roles, security, relays) is any function; of what it does to the route, the rewritten aliases are modelled, the only part of the state it writes; the call is atomic, while the interleaving of its two locks is in `Replication`.
- AgentState.HashEqualIffSameContent: when two entries share a sort key and differ, the hash depends on the order the unstable sort leaves, so one direction asks that keys determine entries (`SortedCopyUniqueIff` shows this is exact for the sort).
- AgentState.KeyInjective: an Agent name with a bar can share its key with another triple, hence the condition.
- RouteFold.FoldingTable.FoldDockerRoutes: the canary and shadow of a folded route are not carried over by the code; nothing is claimed about them, nor that the survivor still holds the container.
- RouteFold.AddNamesCover: case folding and trimming are ASCII.
- RoutePrune.PruneSparesOthers: an identifier of the form `k8s:…@name` belongs to two sources and is pruned by either.
- DouglasPeucker.Simplify: a negative tolerance can recurse forever and is excluded (the program uses two positive constants); rounding and NaN are not modelled.
- DeployEngine.Apply: images pulled before a failure stay, as in the code; the remaining fields of a container's body (environment, ports, capabilities, labels), progress events and cancellation by context are not modelled, a cancelled request being one that fails.
- DeployEngine.Rollback: deletions that fail for other reasons than being in use, and its one-minute limit.
- DeploySpec.CheckContainer: the judgement of host paths and of path normalisation are parameters.
- ConfigPatch.ApplyConfigPatch: JSON `null` (which Go reads into a nil map), file input and output and the atomic rename; nested maps are values, since the code rebuilds each from its own JSON text and never shares one; the set of secret keys is a parameter.
- LogRetries.ExactlyOnceIffIncreasing: lines without timestamp, and a restart of the gateway between a batch and its retry; overlapping calls store lines more than once (`OverlapStoresTwice`) and are excluded by `Serial`.
- AgentLogs.Gateway.StoreAgentLogs: the container is stored with each line so that streams can be told apart; the kept positions must be positive instants, which the method itself keeps.
- LoginLimiter.UnlockedFailuresBounded: the failures of one key are judged against one maximum, as the callers do.
- LoginLimiter.PurgeVisibleIff: compares a run with one purge to the same run without it; `PurgeInvisible` allows any number of purges.
- AsnLookup.Lookup: IPv6 zones; the parallel arrays of the loaded base are one list of records.
- AsnAssembly.Gateway.ApplyChunk: the copy of an installed base on disk.
- AsnAssembly.InstalledAsAnnounced: two completions that overlap may install the older base last, since decoding runs outside the lock; `InstalledInAnyOrder` is what then holds.
- ReplicaPulls.MutualPullsConverge: needs states that settle (`RelayAgreesIff`) and keys without newline (`NewlineStopsPulls`); the size limit of a document, membership and token checks are not modelled, a pull that fails being one that does not happen.
- ReplicaGroup.GroupRoundConverges: that no content comes back is sufficient, not necessary; the exact condition, on the gateway that has pulled from all, is in `SpreadAgreesIff`.
- The debounce of pushes, purging of an Agent's routes on disconnection, container stop events, HTTP and websocket handlers, metrics and logging.
- Command line, rights tables, pairing, backups, application inventory and settings: branches and tables whose claims are read off the code.
