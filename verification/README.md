# Ophan: a Dafny model of its routing, caching, inspection and balancing core

Ophan is an API gateway. This project models the parts of it that decide something: which route a
path belongs to, who fetches a missing cache entry, whether a body that arrives in chunks is
blocked, which rewrite rule applies, which backend serves a request, what a normal path is and how
an address is printed. Each part is stated a second time in simple terms, and the two are proved to
agree for every input, every run or every reachable state.

`dafny verify dfyconfig.toml` checks the whole project.

## Parts

| part | files |
|---|---|
| Patterns and the radix tree | `Pattern`, `PatternSyntax`, `RouteTree`, `TreeInsert`, `TreeRemove`, `TreeSearch`, `ChildOrder` |
| Proofs about the tree | `RouteBuild`, `InsertProof`, `InsertAtProof`, `InsertShape`, `TreeOutcome`, `BestMatch`, `SegmentTree`, `Acceptance`, `LiveTree`, `SortedTree` |
| Which patterns a tree accepts | `SegmentWilds`, `PatternAcceptance`, `PatternWalk`, `CompactTree`, `RouteWays`, `AcceptedRoutes` |
| The search loop and its parameter list | `PathSearch`, `Params` |
| Runs of insertions, removals and lookups | `RouteRuns`, `RegistrationOrder`, `RouteExamples` |
| Methods, slots and hosts | `MethodSet`, `RouteSlot`, `HostRoutes` |
| Single-flight cache | `FlightTable`, `SingleFlight`, `FlightSafety`, `FlightRuns` |
| Streaming body matcher | `BodyScan`, `ChunkReading`, `BodyMatching`, `BodyRuns` |
| Rewrite engine | `FlatTrie`, `RewriteRules`, `RewriteEngine`, `RewriteMeaning`, `RewriteText`, `Utf8` |
| Balancer and request lifecycle | `ClientHash`, `Balancer`, `Backends`, `BalancerRuns`, `SelectionRuns`, `Lifecycle`, `LifecycleRuns`, `LifecycleObjects`, `ReloadAgain` |
| Path normalization | `PathSyntax`, `EscapeMeaning`, `PathNormalize`, `PathResolution` |
| Address printing | `AddressText`, `AddressReads`, `AddressPrinter` |

## How the parts are modelled

**Routes.** A pattern is a sequence of tokens: literal bytes, parameters and a catch-all. The tree is
a datatype with the source's fields. `RouteTree.Get` is the table a tree stands for; insertion and
removal are proved to change exactly one entry of it. The search of the source is one loop with a
stack of skipped wildcards and a parameter list that is cut back on the way (`PathSearch.At`); it is
proved equal to a recursive search, and that to "the preferred one of all patterns that fit". Which
patterns are accepted is told from the ways of a tree: its routes, the texts at which its nodes end and
the parameters that carry suffixes (`SegmentWilds.Ways`). As long as every insertion was accepted and
nothing was removed, the routes alone fix all three (`RouteWays.WaysFollow`).

**Single flight.** Callers take atomic steps in any order: a look without the lock, a lookup under
the lock of the shard, a poll that ends the wait and lets go of the fetch, recording, freeing,
cancelling; the clock, eviction and outside writes are steps too. A fetch is alive while some caller
awaits it.

**Bodies.** The literal automaton is any function that answers with a literal that occurs, if one
does. The regex automaton is a partial transition function with an end-of-input step.

**Rewriting.** Regular expressions are abstract: which compile, what they match, what they make of a
path. Rule texts are taken as already trimmed. What a configuration means is told from its texts as
they are written, without the engine's tables (`RewriteMeaning.Turns`, `RewriteMeaning.Answers`).

**Balancing.** Selection runs over backend objects. The size and the byte order of machine words are a
parameter. Runs of many requests, retries and reloads are a state machine over values, with one
identity per backend that survives reloads; the proxy hooks, which change objects, are proved to take
its steps (`LifecycleObjects`).

## Where the code differs from what it says

- The cache says that a miss never causes duplicate work and that a new caller never misses both the
  cache and the flight. There is a window: the last caller has its outcome and has not recorded it.
  `FlightRuns.SecondFetchExample` is such a run, and `FlightRuns.SecondFetchIff` says exactly when a
  lookup starts a second fetch there. An outcome that waits in the window is also lost to a lookup of
  another key that sweeps a crowded shard. `FlightRuns.DisplacedStep` says exactly which step takes
  which slot, and `FlightRuns.RecordedIffNotTaken` that these are all the outcomes that are lost.
- The rewrite engine says that it always selects the lowest rule number. A later exact rule replaces
  an earlier one for the same path, and the earlier number with it: `RewriteRules.ChosenIsLowestIff`,
  `RewriteRules.ReplacedExactExample`. It also says "longest matching prefix"; the earliest rule wins:
  `RewriteRules.EarlierPrefixExample`.
- The slash policy `never` says that a path does not end in a slash, the root aside. It takes one slash
  only: `RewriteMeaning.NeverExample`, and `RewriteMeaning.NeverEndsInSlashIff` says exactly which
  answers keep one. The policy `always` says that the empty path is left alone; a path that a rule
  empties gets its slash: `RewriteMeaning.AlwaysExample`, `RewriteMeaning.AlwaysEndsInSlash`.
- The strategy `least_connections` is said to pick the server with the fewest connections. It compares
  two places only: `SelectionRuns.BusierExample` is a list of three for which it picks another, and
  `SelectionRuns.LeastIsFewestIff` says exactly when the pick is sure to have the fewest.
- A reload is said to carry unchanged backends over. A server that is listed twice loses one of its two
  backends at the next load: `ReloadAgain.ReloadTwiceExample`. `ReloadAgain.ReloadTwiceIff` says exactly
  which configurations can be loaded again without a change.
- The IP-hash strategy is meant to find a healthy backend whenever there is one. With 64-bit words it
  does, for every address: `BalancerRuns.IpHashFirst`. With 32-bit words the sum can wrap before it is
  reduced: `BalancerRuns.IpHashFindsIff` says exactly when that does harm, and
  `BalancerRuns.IpHashMissExample` is an address for which it does.
- An accepted pattern can be stored under text that an emptied root still carries:
  `TreeOutcome.InsertFoundIff` says exactly when, `RouteExamples.EmptiedRootExample` is such a run.
- A pattern can be refused although no route excludes it: the node of a removed wildcard route can stay
  and block. `RouteExamples.LeftoverExample` is such a run, `RouteRuns.AcceptedIffUnblocked` is the exact
  condition for every tree of whole-segment patterns, and without removals it is that of the routes
  (`RouteRuns.AcceptedIffFree`).
- A parameter in another segment can keep a pattern out, and a further route can let it in again:
  `AcceptedRoutes.FarSegmentExample`. Refusal is therefore no relation between two patterns.
  `PatternWalk.AcceptedIffUnhindered` is the exact condition for any valid pattern and any tree, and
  `AcceptedRoutes.AcceptedAfter` the one on the patterns registered before.
- A path that a route fits can go unanswered: behind a parameter the search commits to the longest
  suffix that fits. `RouteExamples.CommitExample` is such a tree, `RouteRuns.LookupIsOffered` says
  exactly which lookups answer, and without suffixes all do (`RouteRuns.LookupIsBest`).
- Taking methods out of a set is not exact for custom methods: `MethodSets.WithoutCustomIff`,
  `MethodSets.WithoutCustomExample`.
- A second pass over a normalized path can change it: `PathNormalize.SecondPassExample`.
  `PathNormalize.IdempotentIff` says exactly for which paths it does not.
- Round robin is uneven across the wrap of the tickets: `BalancerRuns.RoundRobinFairIff`, and over calls
  `SelectionRuns.SelectionsFairIff`.

## Model

| member | source | states |
|---|---|---|
| `RouteTree.GetIsHolds` | libs/ophan-router/src/tree.rs:16-44 | going down by first byte, suffix or wildcard finds exactly the routes spelled by the prefixes on some way down |
| `RouteBuild.BlankGet` | libs/ophan-router/src/tree.rs:438-540 | a route built on a blank node is the one route of the result |
| `RouteBuild.GraftGet` | libs/ophan-router/src/tree.rs:438-540 | a route that starts with a wildcard is added below the node's text, and nothing else changes |
| `RouteBuild.BuildsIffValid` | libs/ophan-router/src/tree.rs:438-540 | building succeeds exactly for patterns with the catch-all last and plain text after a parameter |
| `ChildOrder.RotateRight` | libs/ophan-router/src/tree.rs:577-579 | the in-place rotation moves one index byte forward and shifts those between |
| `ChildOrder.UpdateChildPriority` | libs/ophan-router/src/tree.rs:565-582 | the swaps and the rotation leave children and index bytes as the promotion of that child prescribes |
| `ChildOrder.PromoteSorts` | libs/ophan-router/src/tree.rs:565-582 | promotion restores falling priority, keeps every child with its byte and leaves the wildcard child alone |
| `ChildOrder.UpdateKeepsOrder` | libs/ophan-router/src/tree.rs:565-582 | raising one child of an ordered list gives an ordered list of the same pairs |
| `SortedTree.InsertAtSorted` | libs/ophan-router/src/tree.rs:119-388 | accepted or refused, the walk leaves static children in falling priority at every node |
| `SortedTree.RunSorted` | libs/ophan-router/src/tree.rs:119-705 | every node of every tree of every run has its static children in falling priority |
| `InsertAtProof.InsertAtAdds` | libs/ophan-router/src/tree.rs:119-388 | the walk adds exactly the new route below any node, or changes no route when it is refused |
| `InsertShape.InsertAtShape` | libs/ophan-router/src/tree.rs:119-388 | accepted or in conflict, the walk keeps index bytes, wildcard place, suffix order, catch-all values and name counts |
| `TreeOutcome.InsertAtOutcome` | libs/ophan-router/src/tree.rs:119-388 | what the walk can answer: success only for a valid pattern, the invalid-pattern errors only for an invalid one |
| `TreeOutcome.InsertTree` | libs/ophan-router/src/tree.rs:119-388 | insertion into a whole tree keeps the shape and adds exactly one route |
| `TreeOutcome.InsertFoundIff` | libs/ophan-router/src/tree.rs:127-132 | an accepted pattern is found again exactly when the root is not an emptied one that still carries text |
| `TreeRemove.RemoveAtDrops` | libs/ophan-router/src/tree.rs:588-705 | removal below any node takes exactly the route with that pattern and those names |
| `TreeRemove.RemoveAtShape` | libs/ophan-router/src/tree.rs:588-705 | removal keeps the shape below any node |
| `TreeRemove.RemoveTree` | libs/ophan-router/src/tree.rs:588-705 | removal from a whole tree keeps the shape, returns the value it takes and leaves every other route |
| `TreeSearch.SearchSound` | libs/ophan-router/src/tree.rs:751-949 | what the search finds is a route of the tree whose pattern reads the whole path |
| `BestMatch.SearchBest` | libs/ophan-router/src/tree.rs:751-949 | in any tree, the search finds something at least as preferred as any route that fits with the suffixes the search commits to |
| `BestMatch.SearchCommits` | libs/ophan-router/src/tree.rs:862-893 | what the search finds ends each parameter in the first suffix that fits, and takes a whole segment only where none does |
| `PathSearch.At` | libs/ophan-router/src/tree.rs:751-949 | the loop with its stack and truncated parameters ends, and answers like the recursive search |
| `Params.ParamList.Push` | libs/ophan-router/src/params.rs:103-133 | one more binding at the end, through the change from inline to vector |
| `Params.ParamList.Truncate` | libs/ophan-router/src/params.rs:71-76 | exactly the first bindings stay |
| `Params.ParamList.Rename` | libs/ophan-router/src/params.rs:137-142 | keys are replaced in order, values stay |
| `SegmentTree.InsertTidy` | libs/ophan-router/src/tree.rs:119-388 | a tree of whole-segment patterns stays one |
| `SegmentTree.RemoveTidy` | libs/ophan-router/src/tree.rs:588-705 | removal keeps it one |
| `Acceptance.OpenInsert` | libs/ophan-router/src/tree.rs:119-388 | a whole-segment pattern is accepted exactly when its way through the tree is free |
| `Acceptance.OpenNoClash` | libs/ophan-router/src/tree.rs:119-388 | a free way means that no route excludes the pattern |
| `Acceptance.ClosedHasClash` | libs/ophan-router/src/tree.rs:119-388 | in a tree only ever inserted into, a blocked way means that some route does |
| `Acceptance.OpenIff` | libs/ophan-router/src/tree.rs:119-388 | a way is free exactly when no route holds the pattern and no node, with or without a route, excludes it |
| `Acceptance.RemovedIsOpen` | libs/ophan-router/src/tree.rs:588-705 | removing a route frees its own way |
| `SegmentWilds.SuffixAheadIff` | libs/ophan-router/src/tree.rs:420-432 | the look ahead for a parameter with a suffix answers exactly whether one is reached within the segment |
| `SegmentWilds.PrefixAheadIff` | libs/ophan-router/src/tree.rs:392-416 | the look ahead for a parameter behind text answers exactly whether one is reached from the node without a break at a slash |
| `PatternWalk.WalkAccepts` | libs/ophan-router/src/tree.rs:119-388 | below any node, the walk accepts a valid pattern exactly when nothing below the node stands in its way |
| `PatternWalk.AcceptedIffUnhindered` | libs/ophan-router/src/tree.rs:119-388 | after any insertions and removals, any valid pattern is accepted if and only if it has no route yet and no wildcard, suffix or text of the tree stands in its way |
| `CompactTree.InsertCompact` | libs/ophan-router/src/tree.rs:119-388 | accepted insertions leave no node without a use: each ends a route, branches or cuts at a wildcard |
| `RouteWays.EndsByRoutes` | libs/ophan-router/src/tree.rs:119-388 | in such a tree a node ends exactly at a route, before a wildcard, where routes part, behind a parameter and behind the slash that closes its segment |
| `RouteWays.WaysFollow` | libs/ophan-router/src/tree.rs:119-388 | in such a tree the routes alone say where nodes end and which parameters have suffixes |
| `RouteWays.AcceptedByRoutes` | libs/ophan-router/src/tree.rs:119-388 | in such a tree a valid pattern is accepted if and only if nothing in the routes stands in its way |
| `AcceptedRoutes.AcceptedAfter` | libs/ophan-router/src/tree.rs:119-388 | after accepted registrations of any valid patterns, another one is accepted if and only if nothing in the patterns before stands in its way |
| `AcceptedRoutes.TextIsRefusedByItself` | libs/ophan-router/src/tree.rs:119-388 | a pattern without wildcards is refused exactly if it was registered before |
| `AcceptedRoutes.FirstParameters` | libs/ophan-router/src/tree.rs:119-388 | beside routes without parameters, any valid pattern is refused exactly by a route that is the same or differs first by wildcard |
| `AcceptedRoutes.FarSegmentExample` | libs/ophan-router/src/tree.rs:392-402 | one route keeps a pattern out by a parameter of another segment, and a third route lets it in |
| `RouteRuns.StepDenotes` | libs/ophan-router/src/tree.rs:119-388 | any insertion of a valid pattern, stale root or not, and any removal move the table of routes as a map update would, and keep the shape |
| `RouteRuns.RunDenotes` | libs/ophan-router/src/tree.rs:119-705 | every tree of every run of insertions and removals has its shape and stands for its table |
| `RouteRuns.LookupIsSound` | libs/ophan-router/src/tree.rs:751-949 | values put into the pattern give the path back; names are the route's; only a catch-all value may hold a slash; no value is empty |
| `RouteRuns.ReplyIsSound` | libs/ophan-router/src/tree.rs:751-949 | the bindings a lookup hands out: the route's own names, each with the non-empty text it read |
| `RouteRuns.LookupIsOffered` | libs/ophan-router/src/tree.rs:751-949 | in any tree, a lookup answers exactly when some route fits with the suffixes the search commits to, with the one of these that stays literal longest |
| `RouteRuns.LookupIsBest` | libs/ophan-router/src/tree.rs:751-949 | without static suffixes, a lookup answers exactly when some route fits, with the route that stays literal longest |
| `RouteRuns.OrderIsIrrelevant` | libs/ophan-router/src/tree.rs:565-582 | two trees with the same table answer every path alike |
| `RouteRuns.AcceptedIffFree` | libs/ophan-router/src/tree.rs:119-388 | where nothing was removed, a registration is refused exactly when an earlier one is the same pattern or differs first by wildcard |
| `RouteRuns.AcceptedIffUnblocked` | libs/ophan-router/src/tree.rs:119-388 | after any insertions and removals, it is refused exactly when its route is there or some node differs first by wildcard |
| `RouteRuns.RegisteredLookup` | libs/ophan-router/src/tree.rs:751-949 | after any registrations, a path gets the preferred pattern among those that fit |
| `RegistrationOrder.TakenIffCompatible` | libs/ophan-router/src/tree.rs:119-388 | a list is taken as a whole exactly when no two of its patterns exclude each other, and its table then holds all of it |
| `RegistrationOrder.RegisteredInAnyOrder` | libs/ophan-router/src/tree.rs:565-582 | if one order of some registrations is accepted throughout, so is every other, with the same table and the same answer to every path |
| `RouteRuns.Reinsert` | libs/ophan-router/src/router.rs:130-138 | a whole-segment pattern just removed can always be put back, and no other route moves |
| `RouteExamples.EmptiedRootExample` | libs/ophan-router/src/tree.rs:127-132 | one route in and out again, and the wildcard inserted next is stored behind the text left on the root |
| `RouteExamples.CommitExample` | libs/ophan-router/src/tree.rs:875-893 | two routes with suffixes and a path that one of them fits and the lookup does not find |
| `RouteExamples.LeftoverExample` | libs/ophan-router/src/tree.rs:327-338 | one route in and out again leaves no route, and a catch-all inserted next is refused |
| `PatternSyntax.ScanWildcard` | libs/ophan-router/src/tree.rs:1039-1083 | the scan gives the first wildcard of the text or the error of the first bad brace |
| `PatternSyntax.NormalizeParams` | libs/ophan-router/src/tree.rs:964-1006 | the loop gives the tokens and names of the text |
| `PatternSyntax.NormalizeReads` | libs/ophan-router/src/tree.rs:964-1006 | an accepted text is what its tokens and names spell |
| `PatternSyntax.RenderReads` | libs/ophan-router/src/tree.rs:964-1006 | every well-named pattern with at most 25 parameters is accepted and read back |
| `MethodSets.WithoutIsExact` | libs/ophan-net/src/http/method.rs:311-320 | on standard methods, removal is set difference |
| `MethodSets.WithoutCustomIff` | libs/ophan-net/src/http/method.rs:311-320 | on custom methods, removal is set difference exactly under a stated condition on the two sets |
| `MethodSets.WithoutCustomExample` | libs/ophan-net/src/http/method.rs:311-320 | any method without GET accepts no custom method |
| `MethodSets.IntersectsIsExact` | libs/ophan-net/src/http/method.rs:324-333 | two sets intersect exactly when some request is accepted by both |
| `RouteSlots.RouteSlot.FindEntry` | libs/ophan-router/src/vhost.rs:37-42 | the first entry that accepts the request |
| `RouteSlots.RouteSlot.Push` | libs/ophan-router/src/vhost.rs:57-85 | the new slot, or the entry back and nothing changed |
| `RouteSlots.PushImplicit` | libs/ophan-router/src/vhost.rs:58-66 | an implicit push takes only methods nobody routes |
| `RouteSlots.PushExplicit` | libs/ophan-router/src/vhost.rs:68-84 | an accepted explicit push takes its methods from implicit entries and from nobody else |
| `RouteSlots.RefusedIff` | libs/ophan-router/src/vhost.rs:68-70 | a push is refused if and only if it is explicit and an explicit entry accepts a request that it accepts |
| `RouteSlots.RefusedByPushes` | libs/ophan-router/src/vhost.rs:57-85 | after any attempts, a push is refused if and only if it is explicit and shares a request with an explicit push accepted before |
| `RouteSlots.SlotServesOwners` | libs/ophan-router/src/vhost.rs:37-85 | after any pushes no entry is empty, no standard method is listed twice, and find gives the explicit owner or the earliest implicit one |
| `HostRoutes.VirtualHost.InsertEntry` | libs/ophan-router/src/router.rs:130-138 | tree and answer after taking the slot out, pushing and putting it back |
| `HostRoutes.VirtualHost.AddPattern` | libs/ophan-router/src/router.rs:115-125 | a starred pattern also enters the path before it, implicitly, and ignores a refusal there |
| `HostRoutes.VirtualHost.MatchRoute` | libs/ophan-router/src/router.rs:155-162 | slot by path, entry by method, and the two errors |
| `HostRoutes.JoinStep` | libs/ophan-router/src/router.rs:130-138 | an entry for a known pattern always finds its place again; a method conflict changes no route; other names are a conflict |
| `HostRoutes.ConflictIff` | libs/ophan-router/src/router.rs:130-138 | after any attempts, a further one is a method conflict if and only if it is explicit and shares a request with an explicit one accepted for its pattern |
| `HostRoutes.BaseIsPlain` | libs/ophan-router/src/router.rs:117-122 | the path before the star fills whole segments and has the same names |
| `HostRoutes.BaseFits` | libs/ophan-router/src/router.rs:115-122 | the base of a starred pattern fits exactly the paths that the pattern fits with a slash and a rest behind them; that of the bare star is the root |
| `HostRoutes.RequestReachesOwner` | libs/ophan-router/src/router.rs:130-163 | after any entries, a request is answered from the preferred pattern by the rightful owner of its method; not found exactly when no pattern fits |
| `FlightTable.MemoryCache.constructor` | shared/cache/src/ufo.rs:146-159 | at least one shard, all empty |
| `FlightTable.MemoryCache.JoinOrLead` | shared/cache/src/ufo.rs:339-373 | tables and answer of one lookup under the lock |
| `FlightTable.MemoryCache.CompleteFlight` | shared/cache/src/ufo.rs:384-406 | the outcome recorded and the slot freed if the slot is still its own, else nothing |
| `FlightTable.LookupSlots` | shared/cache/src/ufo.rs:53-60 | a lookup removes only slots of fetches nobody holds and failures that are over |
| `FlightTable.SlotTakenIff` | shared/cache/src/ufo.rs:53-60 | a lookup that starts a fetch takes a slot exactly if it is that of its key, or one nobody holds in a crowded shard of its key |
| `FlightTable.LookupReason` | shared/cache/src/ufo.rs:339-373 | why a lookup refuses, joins, hits or leads |
| `FlightSafety.StepKeeps` | shared/cache/src/ufo.rs:322-406 | every step of every caller keeps the invariant of tables, callers, fetches and log |
| `FlightRuns.RunKeeps` | shared/cache/src/ufo.rs:322-406 | the invariant holds in every state of every run |
| `FlightRuns.OneRunningFetch` | shared/cache/src/ufo.rs:339-373 | at most one fetch of a key runs, and it has the key's slot |
| `FlightRuns.StartsWhenNeeded` | shared/cache/src/ufo.rs:340-371 | a fetch starts only without a value, a lasting failure, a held flight or a running fetch |
| `FlightRuns.RecordedOnce` | shared/cache/src/ufo.rs:389-405 | an outcome is recorded at most once, under its own key and fetch |
| `FlightRuns.DisplacedStep` | shared/cache/src/ufo.rs:339-373 | one step takes the slot of a fetch exactly if it is a lookup that must fetch, of its key or of a crowded shard's other key, while nobody awaits it |
| `FlightRuns.RecordedIffNotTaken` | shared/cache/src/ufo.rs:389-391 | the outcome of a caller that returned was recorded, exactly unless an earlier step of the run took the slot in this way |
| `FlightRuns.FreedAfterRecord` | shared/cache/src/ufo.rs:393-405 | when a slot is freed its outcome is on record and the slot was still its own |
| `FlightRuns.NoRetryTooSoon` | shared/cache/src/ufo.rs:343-348 | after a recorded failure no fetch of the key starts before the negative TTL is over |
| `FlightRuns.CachedUntilEvicted` | shared/cache/src/ufo.rs:393-405 | a recorded value is there from before the slot is freed until eviction or an outside write, and no fetch of its key starts meanwhile |
| `FlightRuns.SecondFetchIff` | shared/cache/src/ufo.rs:350-371 | exactly when a lookup of the same key starts a second fetch while an outcome waits to be recorded, and displaces it |
| `FlightRuns.DisplacedForever` | shared/cache/src/ufo.rs:389-391 | a displaced outcome is recorded in no later state |
| `FlightRuns.SecondFetchExample` | shared/cache/src/ufo.rs:375-391 | a run in which a key is fetched twice and the first value is not cached |
| `ChunkReading.ChunkReader.Read` | libs/ophan-sec/src/l7/body.rs:133-163 | one read gives as much of what is left as fits, and leaves the rest of the buffer alone |
| `ChunkReading.ChunkReader.Drain` | libs/ophan-sec/src/l7/body.rs:133-163 | reads of any non-zero sizes, one after the other, give overlap and chunk exactly once |
| `BodyScan.AnyOccursInTail` | libs/ophan-sec/src/l7/body.rs:283 | the last bytes, one fewer than the longest literal, are enough to see every literal that ends later |
| `BodyMatching.BodySession.UpdateOverlap` | libs/ophan-sec/src/l7/body.rs:422-448 | the in-place update leaves the tail of overlap and chunk |
| `BodyMatching.BodySession.Feed` | libs/ophan-sec/src/l7/body.rs:394-501 | the session and the action after one chunk |
| `BodyMatching.BodySession.Finish` | libs/ophan-sec/src/l7/body.rs:549-573 | the end-of-input match, or clean |
| `BodyMatching.BodySession.Reset` | libs/ophan-sec/src/l7/body.rs:538-544 | a session like a new one, with its regex switch kept |
| `BodyRuns.StreamTracks` | libs/ophan-sec/src/l7/body.rs:394-501 | after any chunks the session has stopped exactly when what it saw stops it, and else knows the tail and the automaton state of all of it |
| `BodyRuns.ChunksDoNotMatter` | libs/ophan-sec/src/l7/body.rs:394-573 | however a body is cut, the verdict is that of scanning all of it, and of feeding it in one piece |
| `BodyRuns.OverlapIsTail` | libs/ophan-sec/src/l7/body.rs:422-448 | the overlap is the last bytes of the stream, as many as the longest literal can reach back |
| `BodyRuns.BlockIsTraced` | libs/ophan-sec/src/l7/body.rs:402-415 | a blocked body names a literal that occurs in it or a pattern its automaton run matched |
| `FlatTries.PartitionPoint` | ophan/src/middlewares/rewrites.rs:95-97 | binary search finds the place of a byte and the child under it |
| `FlatTries.GrownForm` | ophan/src/middlewares/rewrites.rs:103-108 | a new edge keeps children strictly sorted and pointing forward, one key per node |
| `FlatTries.FlatTrie.Insert` | ophan/src/middlewares/rewrites.rs:88-116 | the vector holds the first rule of every key inserted so far |
| `FlatTries.FlatTrie.FindBest` | ophan/src/middlewares/rewrites.rs:123-149 | the earliest inserted key that starts the text, with its length |
| `RewriteRules.TriePicks` | ophan/src/middlewares/rewrites.rs:309-352 | searching a trie picks the lowest-numbered matching prefix or suffix rule |
| `RewriteRules.ChosenIsLowestIff` | ophan/src/middlewares/rewrites.rs:192-253 | the rule applied is the lowest-numbered match exactly unless that is an exact rule replaced by a later one |
| `RewriteRules.DistinctExactIsLowest` | ophan/src/middlewares/rewrites.rs:192-253 | with distinct exact patterns it is the lowest-numbered match |
| `RewriteRules.ReplacedExactExample` | ophan/src/middlewares/rewrites.rs:227-229 | three rules for which it is not |
| `RewriteRules.EarlierPrefixExample` | ophan/src/middlewares/rewrites.rs:309-330 | a shorter prefix that comes first wins over a longer one that matches too |
| `RewriteEngines.NewEngine` | ophan/src/middlewares/rewrites.rs:192-253 | an engine for exactly the configured rules in order, or failure exactly when a regex does not compile |
| `RewriteEngines.ExactPicks` | ophan/src/middlewares/rewrites.rs:300-307 | the exact table gives the last exact rule of a path |
| `RewriteEngines.RegexPicks` | ophan/src/middlewares/rewrites.rs:399-406 | the first match of the list is the lowest-numbered matching regex |
| `RewriteEngines.RewriteEngine.MatchRegex` | ophan/src/middlewares/rewrites.rs:399-406 | the first regex of the list that matches |
| `RewriteEngines.RewriteEngine.BestCandidate` | ophan/src/middlewares/rewrites.rs:289-394 | with or without early exits, what the lowest live matching rule makes of the path |
| `RewriteEngines.RewriteEngine.Apply` | ophan/src/middlewares/rewrites.rs:272-282 | the fast way gives the specified answer |
| `RewriteEngines.RewriteEngine.ApplyHold` | ophan/src/middlewares/rewrites.rs:258-267 | the full way gives the same answer |
| `RewriteMeaning.RuleTurns` | ophan/src/middlewares/rewrites.rs:217-235 | a rule matches and makes exactly what its text says: `p*` swaps the front, `*s` the end, an ordinary text the whole path, and the rest of the path stays |
| `RewriteMeaning.RestStays` | ophan/src/middlewares/rewrites.rs:367-393 | a chosen prefix rule gives its replacement and the rest, a suffix rule the front and its replacement, an exact rule its replacement; without a match the path stays |
| `RewriteMeaning.OutcomeAnswers` | ophan/src/middlewares/rewrites.rs:289-394 | the answer is that of the first setting that applies and is not replaced, and the path itself only if none applies |
| `RewriteMeaning.OneAnswer` | ophan/src/middlewares/rewrites.rs:289-394 | the settings leave one answer only |
| `RewriteMeaning.AppliedAnswers` | ophan/src/middlewares/rewrites.rs:258-282 | an answer is the engine's if and only if the configuration as written gives it, strips first, up to the slash policy |
| `RewriteMeaning.AlwaysEndsInSlash` | ophan/src/middlewares/rewrites.rs:442-453 | under `always` every answer but that to the empty path ends in a slash |
| `RewriteMeaning.NeverEndsInSlashIff` | ophan/src/middlewares/rewrites.rs:454-467 | under `never` an answer ends in a slash exactly if it was the root or ended in two |
| `RewriteMeaning.NeverExample` | ophan/src/middlewares/rewrites.rs:454-467 | a path that keeps a slash under `never` |
| `RewriteMeaning.AlwaysExample` | ophan/src/middlewares/rewrites.rs:445-453 | a path that a rule empties and `always` makes the root |
| `RewriteText.ClassifiedText` | ophan/src/middlewares/rewrites.rs:217-235 | a rule read from well-formed text is well formed, its star taken off |
| `RewriteText.CutsOnBoundary` | ophan/src/middlewares/rewrites.rs:309-351 | every prefix or suffix cut of well-formed text falls on a character boundary |
| `RewriteText.OutcomeText` | ophan/src/middlewares/rewrites.rs:367-393 | the answer to well-formed text is well formed, if the regexes' answers are |
| `ClientHash.HashIp` | shared/flatkit/src/net/mod.rs:79-99 | the hash of every address is below 2^32, on any target |
| `ClientHash.HashTellsApart` | shared/flatkit/src/net/mod.rs:81-85 | no two IPv4 addresses have the same hash, on any target |
| `Backends.NextBackend` | ophan/src/balancer/mod.rs:106-222 | the pick of the strategy, and a ticket taken only where one is used |
| `Backends.SelectBackend` | ophan/src/balancer/mod.rs:82-104 | the chosen backend counts one more connection and request, no other counter moves, and each of the three errors where it is due |
| `Backends.TicketCell.Next` | ophan/src/balancer/upstream.rs:74-83 | consecutive tickets that wrap at the word size |
| `Backends.Backend.ReportCheck` | ophan/src/balancer/backend.rs:260-274 | streaks and health after one check |
| `Balancer.PickSound` | ophan/src/balancer/mod.rs:106-222 | whatever is picked is in range and healthy |
| `Balancer.RoundRobinFirst` | ophan/src/balancer/mod.rs:140-163 | the first healthy backend in cyclic order from the ticket; none only if all are unhealthy |
| `Balancer.LeastFindsOne` | ophan/src/balancer/mod.rs:191-220 | fails exactly when all are unhealthy |
| `SelectionRuns.LeastPicks` | ophan/src/balancer/mod.rs:191-220 | of two places half a list apart: the one with no more connections if both are healthy, the first on a tie; the healthy one if one is; else the lowest healthy place |
| `SelectionRuns.TwoPlaces` | ophan/src/balancer/mod.rs:195-196 | the two places differ unless the sum wraps, and in a list of two always |
| `SelectionRuns.LeastIsFewestIff` | ophan/src/balancer/mod.rs:191-220 | however connections are spread, the pick has the fewest of all healthy backends if and only if no two are healthy but the two compared |
| `SelectionRuns.LeastOfTwo` | ophan/src/balancer/mod.rs:191-220 | of two backends the pick has the fewest connections, at every ticket |
| `SelectionRuns.BusierExample` | ophan/src/balancer/mod.rs:195-211 | three healthy backends of which an idle one is passed over |
| `BalancerRuns.IpHashFirst` | ophan/src/balancer/mod.rs:121-138 | with 64-bit words, for every address and up to 2^64 - 2^32 backends, the first healthy one in cyclic order from the place of the hash; none only if all are unhealthy |
| `BalancerRuns.IpHashFindsIff` | ophan/src/balancer/mod.rs:121-138 | with 32-bit or 64-bit words, finds a healthy backend in every state of health exactly when the probes of the address do not wrap or the count divides the word size |
| `BalancerRuns.IpHashMissExample` | ophan/src/balancer/mod.rs:121-138 | with 32-bit words, a client address and three backends for which the healthy one is missed |
| `BalancerRuns.RoundRobinFairIff` | ophan/src/balancer/mod.rs:140-149 | k times as many tickets as healthy backends pick each exactly k times, if and only if the count divides the word size, or the tickets do not wrap, or they wrap once at the end of a round |
| `SelectionRuns.AnswerAt` | ophan/src/balancer/upstream.rs:74-83 | the i-th of consecutive selections draws the i-th ticket from the start |
| `SelectionRuns.SelectionsFairIff` | ophan/src/balancer/mod.rs:140-149 | k times as many consecutive selections as healthy backends answer each exactly k times, under exactly the same condition |
| `BalancerRuns.HealthFollowsStreaks` | ophan/src/balancer/backend.rs:260-274 | health is what the last streak that reached its threshold set, over any checks |
| `Lifecycle.RequestContext.UpstreamPeer` | ophan/src/gateway/proxy.rs:317-338 | the choice of a try, made after the held backend is given back and charged, its error if there is none, and all counters |
| `Lifecycle.RequestContext.Logging` | ophan/src/gateway/proxy.rs:531-538 | the held backend given back, charged for an upstream error |
| `LifecycleObjects.SelectStep` | ophan/src/gateway/proxy.rs:317-338 | on objects that mirror a state, the selecting hook leaves objects that mirror the next state of the selecting step |
| `LifecycleObjects.FinishStep` | ophan/src/gateway/proxy.rs:531-538 | and the logging hook those of the finishing step |
| `LifecycleRuns.StepKeeps` | ophan/src/gateway/proxy.rs:317-338 | begin, select, finish, check and reload keep counters and requests in step |
| `LifecycleRuns.SelectByOthers` | ophan/src/gateway/proxy.rs:317-338 | a selection answers from the upstream the request began with, by strategy, health and the number of other live requests at each backend; what the request held before plays no part |
| `LifecycleRuns.StepKeepsRequest` | ophan/src/gateway/proxy.rs:317-338 | no step changes the upstreams of a live request, and a backend it is newly given is healthy and of its upstream |
| `LifecycleRuns.HeldIsOffered` | ophan/src/gateway/proxy.rs:317-338 | in every state of every run, reloads included, a request holds nothing or a backend of the upstream it began with |
| `LifecycleRuns.CountersAgree` | ophan/src/balancer/backend.rs:280-303 | in every state of every run active equals the live holders, and failed plus active is at most total |
| `LifecycleRuns.NeverUnderflows` | ophan/src/balancer/backend.rs:284-287 | a backend that is given back has a positive count |
| `LifecycleRuns.TotalsCount` | ophan/src/balancer/backend.rs:280-303 | in every state of every run, total is the number of selections that chose the backend and failed the number of its tries that were charged |
| `LifecycleRuns.ReloadCarries` | ophan/src/state.rs:142-190 | a server keeps its backend and counters exactly when upstream name, address and protocol stay; others start at zero |
| `LifecycleRuns.ReloadNames` | ophan/src/state.rs:142-190 | after a reload upstreams have the names, strategies and numbers of servers configured; old backends keep their health, new ones start healthy |
| `ReloadAgain.ReloadServes` | ophan/src/state.rs:142-190 | each place of each upstream has a backend for the server configured there |
| `ReloadAgain.ReloadTwiceIff` | ophan/src/state.rs:140-190 | loading a configuration again changes nothing if and only if the first upstream by each name lists each server, and the server was known before or is listed there for the first time |
| `ReloadAgain.ReloadTwiceExample` | ophan/src/state.rs:159-166 | a server listed twice gets two backends, and does not settle |
| `PathNormalize.DecodeUnreserved` | libs/ophan-net/src/http/utils.rs:82-118 | the decoded text; the way back to the input is never taken |
| `PathSyntax.DecodeIsText` | libs/ophan-net/src/http/utils.rs:82-118 | decoding keeps UTF-8 well formed |
| `EscapeMeaning.DecodeSpells` | libs/ophan-net/src/http/utils.rs:82-118 | of any text, exactly the escapes of unreserved characters become the characters, other escapes are written in upper case and all else stays |
| `PathNormalize.NormalizePath` | libs/ophan-net/src/http/utils.rs:39-74 | the normal path where it differs and the path looks suspicious, else nothing |
| `PathNormalize.ShortcutIsSafe` | libs/ophan-net/src/http/utils.rs:42-47 | a path from the root that does not look suspicious is one the algorithm leaves alone |
| `PathNormalize.ResultIsClean` | libs/ophan-net/src/http/utils.rs:52-71 | the result has no empty inner segment and no dot segment |
| `PathResolution.UpTakesSegment` | libs/ophan-net/src/http/utils.rs:52-71 | `..` goes and takes the segment before it along, inside a path and at its end |
| `PathResolution.DotsGo` | libs/ophan-net/src/http/utils.rs:52-71 | `.` and an empty segment go, and leave the directory at the end of a path |
| `PathResolution.RootHasNoParent` | libs/ophan-net/src/http/utils.rs:55-57 | `..` at the root goes alone |
| `PathResolution.NormalPathStays` | libs/ophan-net/src/http/utils.rs:39-74 | a path of names with reduced escapes is left as it is |
| `PathResolution.FullSpellsKept` | libs/ophan-net/src/http/utils.rs:39-71 | the normal path spells, in order, exactly the names of the decoded path that no `..` behind them climbs past, and closes with a slash where the decoded path ends in a directory or nothing is left |
| `PathNormalize.NormalizingIsIdempotent` | libs/ophan-net/src/http/utils.rs:39-118 | normalizing again changes nothing if every percent sign starts an escape |
| `PathNormalize.IdempotentIff` | libs/ophan-net/src/http/utils.rs:39-118 | normalizing again changes nothing if and only if no segment left of the path holds an escape that can be reduced |
| `PathNormalize.SecondPassExample` | libs/ophan-net/src/http/utils.rs:91-111 | a path that two passes change twice |
| `AddressPrinter.WriteSegment` | ophan/src/gateway/forwarding.rs:106-129 | one group without leading zeros, written from its last digit, and nothing else in the buffer |
| `AddressPrinter.WriteGroups` | ophan/src/gateway/forwarding.rs:132-142 | groups with colons between them |
| `AddressPrinter.WriteIpv4` | ophan/src/gateway/forwarding.rs:80-99 | four octets in decimal with periods between them |
| `AddressPrinter.FindRun` | ophan/src/gateway/forwarding.rs:156-169 | start and length of the run the search ends with |
| `AddressPrinter.WriteIpv6` | ophan/src/gateway/forwarding.rs:146-180 | the buffer starts with the text of the address and keeps the rest |
| `AddressText.RunsAreLeftmostLongest` | ophan/src/gateway/forwarding.rs:156-169 | the search ends with the leftmost of the longest runs of zeros |
| `AddressReads.AddressReadsBack` | ophan/src/gateway/forwarding.rs:146-180 | the text of every address reads back to it, by section 2.2 of RFC 4291 |
| `AddressReads.AddressFits` | ophan/src/gateway/forwarding.rs:146-180 | 39 bytes are enough, 45 are there |
| `AddressReads.CompressesLeftmostLongest` | ophan/src/gateway/forwarding.rs:171-179 | compressed is the leftmost longest run of two or more zero groups, by section 4.2 of RFC 5952 |
| `AddressReads.GroupForm` | ophan/src/gateway/forwarding.rs:106-129 | a group is a lower-case number without leading zeros that reads as the group |
| `AddressReads.AddressForm` | ophan/src/gateway/forwarding.rs:146-180 | a mapped address is ::ffff: and a dotted IPv4 address that reads as its last groups; any other is lower-case digits and colons |

## Left out

- Updates in place of tree nodes: insertion and removal in the radix tree are functions that give a new tree; only the reordering of children, the search, the slots and the hosts are imperative. Ownership makes the two the same in the source, aliasing cannot be seen.
- Escaped braces in patterns, conflict messages, and walking a tree with a visitor.
- Host tables, SNI, trailing slashes of requested paths, the path-to-regex pattern syntax: one tree per host and normalized patterns are taken as given.
- RouteSlots.SlotServesOwners: speaks of standard methods; removal is not exact for custom ones, as `MethodSets.WithoutCustomIff` says.
- HostRoutes.RequestReachesOwner: for whole-segment patterns and standard methods.
- HostRoutes.JoinStep: for whole-segment patterns.
- HostRoutes.ConflictIff: for whole-segment patterns.
- RouteRuns.LookupIsBest: for trees without static suffixes behind parameters; `RouteRuns.LookupIsOffered` covers the others.
- RouteRuns.OrderIsIrrelevant: for trees without static suffixes; with them, nodes that outlive their routes take part in the choice of a suffix.
- RouteRuns.AcceptedIffFree: for whole-segment patterns and trees nothing was removed from; `RouteRuns.AcceptedIffUnblocked` and `PatternWalk.AcceptedIffUnhindered` cover the others.
- RouteRuns.AcceptedIffUnblocked: for whole-segment patterns; `PatternWalk.AcceptedIffUnhindered` covers all.
- TreeOutcome.InsertAtOutcome: says which errors are possible; `PatternWalk.AcceptedIffUnhindered` says when there is none.
- RegistrationOrder.TakenIffCompatible: for whole-segment patterns; with text beside parameters acceptance depends on the order, as `AcceptedRoutes.FarSegmentExample` shows.
- A refused insertion of an invalid pattern can leave nodes behind that break the shape; it changes no route (`InsertAtProof.InsertAtAdds`).
- Flight identifiers that wrap at 64 bits; a write to the cache from outside between the check and the start of a fetch counts as coming after the start.
- Expiry of cached values and rejection by the cache policy are eviction steps at any time.
- Empty literals in body rules; the lazily built automaton and its cache, which make one deterministic partial function here.
- Trimming of rewrite rules, borrowing instead of copying, and rewriting the query string.
- Panics on overflow in debug builds: the sum of a ticket and half a list wraps, as in a release build.
- Counters of requests that pass 2^64, backend weights, name resolution and timeouts.
- LifecycleRuns.CountersAgree: between steps; a selection's two counter updates are one step.
- A request whose route names no upstream: the hooks are only modelled for routes that do.
- IPv4 client addresses, header values and the rest of forwarding.
