# Verified models of the Mihomo core

This project models the self-contained data structures, graph algorithms and small protocols of the
Mihomo proxy core and its OpenHarmony bridge, and proves what they promise. `dafny verify
dfyconfig.toml` checks everything.

| files | what they model |
|---|---|
| `Graphs` | walks, cycles, and sets closed under predecessors or successors; shared by the next two |
| `ProxyGroupSort` | the in-place dependency sort of proxy groups and the loop locator behind a failed sort |
| `ReferenceChecks` | the two recursive cycle checks: dialer-proxy references and SUB-RULE references |
| `GroupBuilding` | building groups in sorted order, the Unwrap walks, and rule matching |
| `Bits`, `DequeCost`, `Deque` | the ring-buffer deque: masked indices, capacity policy and its amortised cost, the class |
| `ArcPolicy`, `ArcEviction`, `Arc` | the Adaptive Replacement Cache as functions on four lists, what a request gives up, and as shared entries changed in place |
| `LruPolicy`, `LruSurvival`, `LruCache` | the LRU cache as a sequence of items, how long a key is found again, and as a map and a list changed in place |
| `Lists` | `Option`, and lists without repetitions, for the caches and the pool |
| `ProtectHook` | the socket-protect hook of the bridge: one step per critical section |
| `DotPool` | the connection pool of the DNS-over-TLS client under concurrent exchanges |
| `ProxyPipeline`, `ProxyOrder`, `GroupCache` | how a group makes its proxy list, who is in it where, and the version-keyed cache of it while providers change |
| `LoadBalance`, `RoundRobin` | jump consistent hashing, and round robin over the proxies alive |
| `Murmur` | streaming murmur3 |
| `SocksAddress` | the SOCKS address codec, section 5 of RFC 1928 |

Code that works in place is a class or an array method here, proved to compute a function of its old
state; what the program promises is then proved about that function, over every run. The two caches,
the deque and the digest are built that way. Protocols (the protect hook, the connection pool, the
group cache) are state machines whose runs are sequences of steps in any order. Go's random map
iteration is an arbitrary choice (`:|`). Regular expressions, health checks, rule matchers, hashing
of connection metadata and clock readings are parameters. A run-time panic is a precondition, except
in the SOCKS parser and in rotating a deque, where callers can run into it: there it is the result `None`
or a flag.

## Where the code does not do what its documentation, comments or names suggest

The model follows the code. Each of these has a concrete case, as a lemma or a method, and a statement
that says exactly when the promise holds.

- The sort's locator says that only loops remain in its graph and reports "loop is detected in
  ProxyGroup" with their names (`core/mihomo/config/utils.go:98-144`). It reports exactly the names with
  a loop behind them and a loop ahead of them (`ReportedIffBetweenCycles`); one of them may be on no
  loop at all (`ReportedButOnNoCycle`).
- The sort does not follow `empty-fallback`: a sorted configuration can name a fallback group that is
  built too late (`FallbackGroupTooLate`; `BuildGroups` says when building succeeds).
- `Len` of the ARC is documented as the number of cached entries (`core/mihomo/common/arc/arc.go:138-145`),
  but dropping a ghost counts it down too (`LenUndercounts`). It equals the number of live entries exactly
  when no ghost was dropped since the last Clear, and never exceeds it (`LenAgainstLive`).
- `CopyInSlice` and `shrinkToFit` leave `tail` one past the end when the elements fill the buffer
  exactly. The class carries that state along (`Overrun`) and says what each operation does in it. Reading,
  `Set`, `Swap`, `PopFront`, `PopBack`, `PushFront`, `Remove` and `Grow` still work, and `PopBack`, a
  resize or clearing a non-empty deque puts `tail` right. `PushBack` works as long as the deque is full,
  because it grows first; after a `PopFront` it stores one past the end (`Deque.StoreInRange`,
  `ExactFillThenPop`). Rotating by a multiple of the count does nothing. Rotating forwards stores its first
  element at `tail`, one past the end, and panics (`Deque.RotationFails`); backwards it works as long as
  there is a free position, and without one every step replaces the last element by the zero value in
  front (`Deque.RotationLoses`, `FullStepBackLoses`). `Deque.RotationWorksIff` says when neither happens,
  `Deque.Rotate` what is left after each, and `LossUnnoticedIff` when the loss makes no difference.
- `shrinkToFit` does not come to an end without a base capacity unless the deque is empty or nothing is
  to be given back (`FitLoopEnds`, `Deque.ShrinkToFit`); growing and pushing once leads there
  (`GrownWithoutBase`).
- When `MihomoOhosDisableProtectHook` returns 0 the hook may be on again, when `MihomoOhosStop` returns 0
  a later start without a TUN may run callbacks that nobody enabled, and when `MihomoOhosGracefulStop`
  returns 0 a callback may still be in flight (`DisabledButOn`, `StoppedButOn`, `GracefulButBusy`;
  `OnIffLeftOn`, `HookHoldsIff`, `DisableReturnsZero`, `GracefulZeroMeansIdleIff`).
- SOCKS hosts of 253 to 255 bytes, which the length byte allows, do not survive: at 253 the low byte of
  the port is lost, at 254 and 255 the reader panics (`HostOf253LosesPort`, `HostOf254Panics`; `RoundTripIff`).
- `Close` of the DNS-over-TLS client is only a reset: an exchange still running pools its connection
  afterwards (`ClosedClientCanKeepConnection`). It empties the pool for good exactly when no exchange is
  running (`ResetEmptiesForGoodIff`).
- `GetWithExpire` of the LRU is documented not to check the age of the entry and not to update its expiry
  (`core/mihomo/common/lru/lrucache.go:117-121`), but it goes through `get`, which does both (`GetFacts`).
  The comment is right exactly when the cache has no age, or returns stale entries and does not renew them
  on a get (`AgeIgnoredIff`).
- Provider versions wrap after 2^32 updates, and a group can then return a list that its provider has not
  supplied since (`WrappedVersionIsStale`). A list that is found in the cache, and was itself read in time, is as
  new as the versions read exactly when no provider has been updated 2^32 times since the versions it is stored under
  (`HitIsFreshIff`); a list that is made is always as new (`ReturnsFreshLists`). With one provider every
  return is sure to be fresh exactly as long as it has supplied at most 2^32 lists (`FreshUpToIff`).

## Model

| member | source | states |
|---|---|---|
| ProxyGroupSort.SortProxyGroups | core/mihomo/config/utils.go:18-145 | For any groups and any map order: sorted if and only if every entry decodes, names are distinct and the group graph has no cycle; then the array is a permutation of the input with every group strictly after the groups it lists. A fault names the first faulty entry and leaves the array alone. A loop report is non-empty, without repetitions, and is the greatest set in which everybody lists and is listed by a member; the array then holds, from `kept` on, exactly the groups with no loop behind them, in order |
| ProxyGroupSort.BuildGraph | core/mihomo/config/utils.go:34-64 | In-degrees count every listing of every name, each group is attached to its node, and the first undecodable or duplicate entry is reported |
| ProxyGroupSort.TopologicalSort | core/mihomo/config/utils.go:65-96 | The queue loop ends with exactly the nodes it could not free left in the graph, each still listed by another of them; emitted groups fill the array from the end |
| ProxyGroupSort.RebuildEdges | core/mihomo/config/utils.go:100-115 | Out-degrees are member counts and `from` records every listing as often as it occurs, and no missing node is touched |
| ProxyGroupSort.LocateLoop | core/mihomo/config/utils.go:98-144 | The second peeling ends and what it leaves is the greatest set closed under predecessors and successors, each name once |
| ProxyGroupSort.CoreOfCyclic | core/mihomo/config/utils.go:98-144 | The reported set is empty if and only if there is no cycle, and contains every cycle |
| ProxyGroupSort.ReportedIffBetweenCycles | core/mihomo/config/utils.go:132-144 | A name is reported if and only if some loop leads to it and it leads to some loop |
| ProxyGroupSort.ReportedAreGroups | core/mihomo/config/utils.go:132-144 | Every reported name is a group |
| ProxyGroupSort.ReportedButOnNoCycle | core/mihomo/config/utils.go:132-144 | A configuration of three groups with a reported name that lies on no loop |
| ProxyGroupSort.LoopLeavesPartlySorted | core/mihomo/config/utils.go:72-96 | After a failed sort the end of the array holds exactly the groups with no loop behind them, in dependency order |
| DialerProxyCheck.ValidateDialerProxies | core/mihomo/config/utils.go:148-176 | Valid if and only if every dialer-proxy exists and the references have no cycle; errors name a real fault |
| DialerProxyCheck.HasCycle | core/mihomo/config/utils.go:179-203 | Ends, and is true if and only if following references from the name runs into a cycle, with a visited table that one top-level check shares among its calls |
| DialerProxyCheck.FollowReference | core/mihomo/config/utils.go:179-203 | Following the only reference of a name neither gains nor loses a cycle ahead |
| SubRuleCheck.VerifySubRules | core/mihomo/config/config.go:1041-1049 | Nil if and only if every SUB-RULE target exists and no list refers back to itself, directly or not |
| SubRuleCheck.VerifyCircularReferences | core/mihomo/config/config.go:1051-1078 | The recursion ends over a duplicate-free path; nil means no walk from the list leaves the existing lists or comes back to the path; a missing list is named with the rule that names it, and a reported chain is a walk that closes on itself |
| GroupBuilding.BuildGroups | core/mihomo/config/config.go:938-951 | All groups are built if and only if each finds its fallback and members among what was built before and its name unused; each then holds exactly the members and fallback it names, and refers strictly back. Otherwise the first group that cannot be built is reported with the first check it fails |
| GroupBuilding.ParseGroup | core/mihomo/adapter/outboundgroup/parser.go:74-158 | A group is parsed if and only if its references are known and its name is not; otherwise the first failing check is reported |
| GroupBuilding.CanBuildIff | core/mihomo/adapter/outboundgroup/parser.go:74-115 | A group can be built if and only if its fallback, COMPATIBLE unless named, and all it lists are known, with include-all the base proxies too, its own name is not, and it lists something, has providers or includes all |
| GroupBuilding.MembersOfBuilt | core/mihomo/adapter/outboundgroup/parser.go:90-111 | A built group has the members it lists and then, with include-all, the base proxies; its fallback alone when include-all finds nothing |
| GroupBuilding.LookUpMembers | core/mihomo/adapter/outboundgroup/parser.go:205-215 | All names found, in order, or the first that is missing |
| GroupBuilding.SortedMembersFound | core/mihomo/config/utils.go:25-32 | In sorted order a listed name is found exactly when it is a base proxy or a group anywhere |
| GroupBuilding.SortedConfigurationBuilds | core/mihomo/config/config.go:938-951 | A sorted configuration is built as a whole if and only if every listed name exists anywhere, every fallback is built in time, no group takes the name of a base proxy and none is empty |
| GroupBuilding.FallbackGroupTooLate | core/mihomo/adapter/outboundgroup/parser.go:74-80 | A sorted configuration whose first group cannot be built because its fallback is a later group |
| GroupBuilding.WalkMeets | core/mihomo/tunnel/tunnel.go:377-388 | The walk over Unwrap ends, whatever is selected, because every step goes to something built strictly earlier; it finds the kind asked for exactly when the walk meets it |
| GroupBuilding.MeetsIffWalk | core/mihomo/tunnel/tunnel.go:664-671 | A kind is met if and only if some walk of choices, of any length, leads to a proxy of that kind |
| GroupBuilding.Match | core/mihomo/tunnel/tunnel.go:652-686 | The first rule that matches, has an existing adapter, passes through no Pass and serves UDP when needed, as whatever is chosen at the moment does; DIRECT when there is none. Choices may change from rule to rule |
| GroupBuilding.DecidesIff | core/mihomo/tunnel/tunnel.go:656-681 | A rule decides if and only if it matches, its adapter exists, no walk from it leads to Pass and, for UDP, the question can be passed on to one who says yes |
| GroupBuilding.UdpIsThatOfTheLast | core/mihomo/adapter/outboundgroup/selector.go:37-44 | The question for UDP goes strictly back from choice to choice, and its answer is that of the last one asked; load balancing answers for itself, and a group with UDP disabled answers no |
| GroupBuilding.UdpIffServedAlong | core/mihomo/adapter/outboundgroup/selector.go:37-44 | UDP is served if and only if some walk over groups that pass the question on leads to one who says yes |
| Bits.MaskIsModulus | core/mihomo/common/deque/deque.go:9-11 | "x & (n-1)" is x mod n for a power of two, negative x included |
| Bits.MaskNeedsPowerOfTwo | core/mihomo/common/deque/deque.go:9-11 | The mask is the modulus for every position if and only if the capacity is a power of two |
| DequeCost.AmortisedBound | core/mihomo/common/deque/deque.go:621-640 | Over any run of pushes and pops from empty, resizing copies at most 2 elements a push and 1 a pop; above the base capacity the buffer stays more than a quarter full |
| DequeCost.RunCost | core/mihomo/common/deque/deque.go:621-640 | The same from any tight shape, with what is saved up for the next resize |
| DequeCost.RoomMeansNoResize | core/mihomo/common/deque/deque.go:284-313 | From any shape with room for n more elements, n pushes copy nothing and keep the capacity |
| DequeCost.CapacityChanges | core/mihomo/common/deque/deque.go:620-640 | The first push makes room for 8 or the base capacity; a push on a full buffer doubles it; a pop that leaves a quarter of more than the base halves it; nothing else changes it |
| Deques.GrowThenPush | core/mihomo/common/deque/deque.go:284-313 | After Grow with room for all items, pushing them keeps contents, order, base capacity and buffer; only Grow can copy, and no more than the elements it found |
| Deques.PushAll | core/mihomo/common/deque/deque.go:284-313 | With room for all items the pushes keep the buffer and copy nothing |
| Ring.FullWindowTurns | core/mihomo/common/deque/deque.go:449-455 | In a full ring, moving head and tail is a rotation of the contents |
| Ring.TurnForward | core/mihomo/common/deque/deque.go:469-480 | One copy into free space moves the first element behind the last |
| Ring.TurnBackward | core/mihomo/common/deque/deque.go:457-468 | One copy into free space moves the last element before the first |
| Ring.FullStepBackLoses | core/mihomo/common/deque/deque.go:457-468 | The same step without free space puts the zero value in front and drops the last element |
| Deques.LossUnnoticedIff | core/mihomo/common/deque/deque.go:457-468 | Losing k elements to k backward steps without free space gives the rotation if and only if the last k elements were the zero value |
| Deques.Deque.RotationWorksIff | core/mihomo/common/deque/deque.go:438-481 | Overrun with two elements or more, a rotation neither panics nor loses anything if and only if it is by a multiple of the count, or backwards with a free position |
| Deques.TurnedByRemainder | core/mihomo/common/deque/deque.go:438-447 | Rotating by n is rotating by Go's remainder of n, of either sign |
| Deques.FitLoopEnds | core/mihomo/common/deque/deque.go:651-655 | The doubling loop of shrinkToFit ends if and only if it starts above zero or has nothing to reach |
| Deques.GrownWithoutBase | core/mihomo/common/deque/deque.go:642-657 | A deque that has grown without a base capacity, for which that loop does not end |
| Deques.ExactFillThenPop | core/mihomo/common/deque/deque.go:375-394 | A deque filled exactly and popped at the front, whose next PushBack stores one past the end |
| Deques.Deque.StoreInRange | core/mihomo/common/deque/deque.go:65-72 | PushBack can be used if and only if it grows first or `tail` lies inside the buffer |
| Deques.Deque.PushBack | core/mihomo/common/deque/deque.go:65-72 | Contents gain the element at the back through any resize; capacity and copying follow the policy; an overrun full deque is put right |
| Deques.Deque.PushFront | core/mihomo/common/deque/deque.go:75-82 | Contents gain the element at the front, overrun or not |
| Deques.Deque.PopFront | core/mihomo/common/deque/deque.go:87-100 | Returns and removes the first element; an overrun lasts unless the buffer shrinks |
| Deques.Deque.PopBack | core/mihomo/common/deque/deque.go:128-144 | Returns and removes the last element and ends any overrun |
| Deques.Deque.Front | core/mihomo/common/deque/deque.go:172-177 | The first element |
| Deques.Deque.Back | core/mihomo/common/deque/deque.go:181-186 | The last element |
| Deques.Deque.At | core/mihomo/common/deque/deque.go:200-204 | Element i of the contents |
| Deques.Deque.Set | core/mihomo/common/deque/deque.go:209-213 | Changes element i and nothing else |
| Deques.Deque.Clear | core/mihomo/common/deque/deque.go:260-275 | Empty, capacity kept, every slot zeroed |
| Deques.Deque.Grow | core/mihomo/common/deque/deque.go:287-313 | Room for n more elements, contents unchanged; a new buffer is the first doubling that is large enough |
| Deques.Deque.Rotate | core/mihomo/common/deque/deque.go:438-481 | Contents rotated by n for every integer n, in place. Overrun, a forward rotation panics at its first store and has changed nothing; a backward one without free space shifts the contents and puts as many zero values in front |
| Deques.Deque.Insert | core/mihomo/common/deque/deque.go:522-549 | The element arrives at its place, out-of-range places meaning the ends; it enters at the nearer end, so the other index stays where it is unless the buffer grows |
| Deques.Deque.Remove | core/mihomo/common/deque/deque.go:560-578 | Removes exactly element i and returns it |
| Deques.Deque.Swap | core/mihomo/common/deque/deque.go:592-602 | Exchanges two elements |
| Deques.Deque.SetBaseCap | core/mihomo/common/deque/deque.go:582-588 | The base capacity is the first doubling of 8 that is large enough; negative means 8 |
| Deques.Deque.Resize | core/mihomo/common/deque/deque.go:662-674 | Contents survive the move, overrun or not; `tail` is right afterwards if and only if they do not fill the new buffer |
| Deques.Deque.CopyInSlice | core/mihomo/common/deque/deque.go:375-394 | The elements arrive; `tail` is right afterwards if and only if they do not fill the buffer exactly, and one past the end otherwise |
| Deques.Deque.ShrinkToFit | core/mihomo/common/deque/deque.go:642-657 | When it shrinks, to what, whether it comes to an end, and that it leaves `tail` right unless the elements fill the new buffer |
| Deques.Deque.IterPopFront | core/mihomo/common/deque/deque.go:106-123 | Hands out the front elements in order until the consumer stops and keeps the rest; whether the final shrink comes to an end |
| Arcs.Arc.constructor | core/mihomo/common/arc/arc.go:35-43 | A new cache is the empty state |
| Arcs.Arc.Clear | core/mihomo/common/arc/arc.go:45-56 | Back to the empty state |
| Arcs.Arc.SetWithExpire | core/mihomo/common/arc/arc.go:80-98 | Computes Set on the abstract state, keeps every invariant and link; no step fails |
| Arcs.Arc.Get | core/mihomo/common/arc/arc.go:113-136 | Computes Get; reports the value and expiry of a live entry, a miss otherwise |
| Arcs.Arc.ReqKnown | core/mihomo/common/arc/arc.go:147-173 | Cases I to III of the request |
| Arcs.Arc.ReqNew | core/mihomo/common/arc/arc.go:174-203 | Case IV of the request; the "not A nor B" branch is unreachable |
| Arcs.Arc.Replace | core/mihomo/common/arc/arc.go:213-227 | Demotes the right entry to the right ghost list and takes its value |
| Arcs.Arc.DelLRU | core/mihomo/common/arc/arc.go:206-211 | Forgets the last entry of the list and counts `len` down, ghost or not |
| Arcs.Arc.SetMRU | core/mihomo/common/arc/entry.go:22-32 | The entry is in front of its new list and on no other |
| ArcPolicy.RequestPossible | core/mihomo/common/arc/arc.go:147-227 | Under the invariant no Back(), division or victim of a request is missing, and the branch "not A nor B" is never taken |
| ArcPolicy.RequestSizes | core/mihomo/common/arc/arc.go:147-204 | A request keeps: 0 <= p <= c; t1 with t2, and t1 with b1, hold at most c entries; all lists at most 2c; below c entries there are no ghosts, from c on t1 with t2 is full |
| ArcPolicy.RequestServes | core/mihomo/common/arc/arc.go:147-204 | A request puts the key in front, keeps lists disjoint and equal to the map, and other items only fade |
| ArcEviction.RequestDemotes | core/mihomo/common/arc/arc.go:213-227 | When a ghost or a new key comes in with t1 and t2 full: the oldest of t1 becomes the newest ghost of b1 if and only if t1 is longer than the new target, or as long and the key was on b2; otherwise the oldest of t2 becomes that of b2. Nobody else in t1 and t2 moves |
| ArcEviction.RequestItems | core/mihomo/common/arc/arc.go:147-227 | Exactly the key that gives way loses its value, nobody does when there is room, and every other item that stays is unchanged |
| ArcEviction.RequestOnHistories | core/mihomo/common/arc/arc.go:147-204 | t1 followed by b1, and t2 followed by b2, change as if there were no target: a known key goes to the front of the second; a new one to the front of the first, whose last is forgotten at c keys, or else that of the second at 2c |
| ArcEviction.TargetMoves | core/mihomo/common/arc/arc.go:152-183 | The target moves by one, or by the quotient of the ghost lists if that is more, up on a hit in b1 and down on a hit in b2, within 0 and c; by nothing else |
| ArcEviction.TargetKeepsThree | core/mihomo/common/arc/arc.go:147-227 | A run of five operations after which the raised target has kept key 3 and given up key 1 |
| ArcPolicy.SetKeepsInv | core/mihomo/common/arc/arc.go:80-98 | Set keeps all of the invariant, stores the item live, and no other item changes but by fading |
| ArcPolicy.GetKeepsInv | core/mihomo/common/arc/arc.go:113-120 | Get keeps all of the invariant and changes no item but by fading |
| ArcPolicy.GetServesT2 | core/mihomo/common/arc/arc.go:113-120 | A found key ends up in front of t2 with its item unchanged, so a ghost is on t2 then and still a ghost |
| ArcPolicy.HitsAgreeWithMap | core/mihomo/common/arc/arc.go:80-136 | Over every run a hit reports the last value and expiry set for the key since the last Clear |
| ArcPolicy.SetThenHit | core/mihomo/common/arc/arc.go:80-136 | A Get right after a Set of the key hits, whatever came before |
| ArcPolicy.LenAgainstLive | core/mihomo/common/arc/arc.go:140-145 | Over every run `len` is at most the number of live entries, which is at most c; equal if and only if no ghost was dropped since the last Clear |
| ArcPolicy.LenUndercounts | core/mihomo/common/arc/arc.go:206-211 | A run after which `len` is 1 with two entries cached |
| LruCaches.LruCache.SetWithExpire | core/mihomo/common/lru/lrucache.go:169-187 | Computes the policy's set; the eviction callback hears exactly of what left, oldest first |
| LruCaches.LruCache.Set | core/mihomo/common/lru/lrucache.go:152-158 | As SetWithExpire, with an expiry maxAge after the clock reading, or 0 without an age |
| LruCaches.LruCache.Get | core/mihomo/common/lru/lrucache.go:206-225 | Computes the policy's get and returns the entry found |
| LruCaches.LruCache.Delete | core/mihomo/common/lru/lrucache.go:235-239 | Removes the key's entry and reports it to the callback |
| LruCaches.LruCache.MaybeDeleteOldest | core/mihomo/common/lru/lrucache.go:241-248 | Drops expired entries from the front, up to the first that is not |
| LruCaches.LruCache.Compute | core/mihomo/common/lru/lrucache.go:266-285 | A get, then a set or a delete as the function decides |
| LruCaches.LruCache.Exist | core/mihomo/common/lru/lrucache.go:136-142 | Map membership is membership in the sequence |
| LruPolicy.InsertFacts | core/mihomo/common/lru/lrucache.go:169-187 | Never more than maxSize items; overflow evicts exactly the least recently used one |
| LruPolicy.GetFacts | core/mihomo/common/lru/lrucache.go:206-225 | With ageing and no stale return a get never yields an expired item; a hit becomes the most recent; no value changes |
| LruSurvival.HitIff | core/mihomo/common/lru/lrucache.go:206-225 | A get hits if and only if the key is there and stale items are returned, or there is no age, or the item has not expired; it hands out the value found, with the expiry renewed exactly when the cache does that |
| LruSurvival.GetFindsWhatWasSet | core/mihomo/common/lru/lrucache.go:152-260 | Over runs: a get before the expiry finds the value set if and only if the key was not evicted since, when nobody set, deleted or cleared it and no clock reading passed its expiry |
| LruSurvival.FoundUnlessEvicted | core/mihomo/common/lru/lrucache.go:152-260 | The same for the item kept: its value and its last expiry, or nothing after an eviction |
| LruSurvival.EvictionTakesOthers | core/mihomo/common/lru/lrucache.go:169-187 | A key is evicted only after as many other keys have been used since it was as the cache has places |
| LruSurvival.SafeAmongFew | core/mihomo/common/lru/lrucache.go:169-187 | So a key is never evicted while fewer others have been used since |
| LruPolicy.AgeIgnoredIff | core/mihomo/common/lru/lrucache.go:117-133 | A hit leaves age and expiry out of account, as GetWithExpire promises, if and only if the cache has no age, or returns stale items without renewing them |
| LruPolicy.RunAgreesWithMap | core/mihomo/common/lru/lrucache.go:152-225 | Over every run: size bound, no key twice, and what is found is what was last set |
| LruPolicy.LargerCacheHits | core/mihomo/common/lru/lrucache.go:169-225 | Without ageing, a larger cache hits whenever a smaller one does after the same operations, with the same item |
| ProtectHook.StepKeepsInv | core/mihomo/openharmony_bridge/main.go:359-421 | Every critical section keeps: busy counts the callbacks in flight, nobody sleeps once it is zero |
| ProtectHook.BusyCountsCallbacks | core/mihomo/openharmony_bridge/main.go:359-388 | In every interleaving protectBusy is the number of hook calls between entry and exit |
| ProtectHook.WaitersCanFinish | core/mihomo/openharmony_bridge/main.go:405-421 | No wake-up is lost: with no callback in flight every waiter can run, and running ends its wait |
| ProtectHook.WaitBeginsIff | core/mihomo/openharmony_bridge/main.go:405-421 | Stop, DisableProtectHook and GracefulStop wait if and only if a callback is in flight when they begin |
| ProtectHook.WaitEndsIff | core/mihomo/openharmony_bridge/main.go:405-421 | A waiter that runs ends its wait if and only if no callback is in flight or 3000 ms, for DisableProtectHook 5000, have passed since it began; no other step ends it |
| ProtectHook.BusyWaitLasts | core/mihomo/openharmony_bridge/main.go:405-421 | A wait that ends with callbacks in flight has lasted 3000 ms, for DisableProtectHook 5000 |
| ProtectHook.StopReturnsZero | core/mihomo/openharmony_bridge/main.go:665-681 | When Stop returns 0 no callback is in flight at its last critical section and none begins until a later successful start |
| ProtectHook.StopGivesUp | core/mihomo/openharmony_bridge/main.go:665-681 | A Stop that gives up leaves callbacks in flight, but no new one begins until a later start |
| ProtectHook.DisableReturnsZero | core/mihomo/openharmony_bridge/main.go:573-583 | When DisableProtectHook returns 0 no callback is in flight; if nobody switched the hook on since it began, none begins until somebody does |
| ProtectHook.OnIffLeftOn | core/mihomo/openharmony_bridge/main.go:390-403 | The hook is on after an interval if and only if some step switched it on and no later one off |
| ProtectHook.HookHoldsIff | core/mihomo/openharmony_bridge/main.go:359-372 | A callback can begin without anybody switching the hook on if and only if the hook's own test passes |
| ProtectHook.GracefulStopReturnsZero | core/mihomo/openharmony_bridge/main.go:692-743 | After a 0 from GracefulStop nothing new begins until a later start |
| ProtectHook.GracefulStopCodes | core/mihomo/openharmony_bridge/main.go:709-743 | After -1 started is as before, after 0 and -2 nothing is; the hook is left as it was |
| ProtectHook.GracefulZeroMeansIdleIff | core/mihomo/openharmony_bridge/main.go:692-743 | With nobody switching the hook on meanwhile, a 0 from GracefulStop means that no callback is in flight in every way the run can go on if and only if its wait ended because none was |
| ProtectHook.DisabledButOn | core/mihomo/openharmony_bridge/main.go:573-583 | A run in which Disable returns 0 with the hook on |
| ProtectHook.StoppedButOn | core/mihomo/openharmony_bridge/main.go:665-681 | A run in which the hook passes after a Stop and a start although nobody enabled it in between |
| ProtectHook.GracefulButBusy | core/mihomo/openharmony_bridge/main.go:692-743 | A run in which GracefulStop returns 0 with a callback in flight |
| DotPool.StepKeepsInv | core/mihomo/dns/dot.go:39-117 | Every step of an exchange or a reset keeps conservation, single use and the bound of eight |
| DotPool.ConnectionsConserved | core/mihomo/dns/dot.go:39-117 | In every interleaving each dialled connection is in use, pooled, closing or closed, and only one of these; none serves two exchanges; at most 8 are pooled |
| DotPool.QuietMeansPooledOrClosed | core/mihomo/dns/dot.go:39-117 | With no exchange running every connection ever dialled is pooled, closing or closed |
| DotPool.EmptyUntilPutBack | core/mihomo/dns/dot.go:145-154 | After a reset the pool stays empty until an exchange puts a connection back |
| DotPool.ResetEmptiesForGoodIff | core/mihomo/dns/dot.go:145-160 | With connections reused, nothing is pooled after a reset until another exchange begins, however the run goes on, if and only if no exchange was running |
| DotPool.LastPutBackIsTakenFirst | core/mihomo/dns/dot.go:57-106 | The connection put back last is used again first; a full pool gives up the one put back longest ago |
| DotPool.FailureEndsOnlyDialled | core/mihomo/dns/dot.go:57-94 | A failed exchange had either taken the connection put back last and goes on to try again, or dialled its own and is over; the connection is closed either way |
| DotPool.ClosedClientCanKeepConnection | core/mihomo/dns/dot.go:145-160 | A run in which a closed client ends up with a pooled connection |
| ProxyPipeline.BuildList | core/mihomo/adapter/outboundgroup/groupbase.go:139-225 | The loops compute the pipeline of filters, reordering and exclusions |
| ProxyPipeline.PassesSorted | core/mihomo/adapter/outboundgroup/groupbase.go:139-190 | One pass per filter gives names ordered by first matching filter |
| ProxyPipeline.PipelineOrdered | core/mihomo/adapter/outboundgroup/groupbase.go:139-225 | With several providers and filters: no name twice, ordered by first matching filter, whatever was read |
| ProxyPipeline.PipelineMembers | core/mihomo/adapter/outboundgroup/groupbase.go:139-225 | Whoever is in the list was in a list read from some provider, matched by the filter of that pass if the provider is filtered, and is not excluded by name or type |
| ProxyPipeline.PipelineNames | core/mihomo/adapter/outboundgroup/groupbase.go:139-225 | Without an exclusion by type a name is in the list if and only if some provider supplies it, through a matching filter where it is filtered, and it is not excluded |
| ProxyPipeline.PassesMatched | core/mihomo/adapter/outboundgroup/groupbase.go:147-160 | The passes keep only proxies matched in their own pass, and each name so matched |
| ProxyOrder.PipelineInOrder | core/mihomo/adapter/outboundgroup/groupbase.go:139-194 | Without exclusions the list is what the providers contribute, one after another: whole lists, or for each filter in turn the first match of each new name, in the order read; with several providers and filters once more by first matching filter, unmatched names last |
| ProxyOrder.PassesPick | core/mihomo/adapter/outboundgroup/groupbase.go:151-165 | Pass f keeps exactly the proxies whose name it is the first to match, at their first match, in order |
| ProxyOrder.ExcludesByName | core/mihomo/adapter/outboundgroup/groupbase.go:196-209 | Exactly the proxies whose name matches no exclusion stay, in their order |
| ProxyOrder.ExcludesByType | core/mihomo/adapter/outboundgroup/groupbase.go:211-224 | Exactly the proxies that are not of an excluded type stay, in their order |
| GroupCache.StepKeepsInv | core/mihomo/adapter/outboundgroup/groupbase.go:122-235 | Every step, provider updates included, keeps the cache made from lists no older than the versions it is stored under |
| GroupCache.ReturnsFreshLists | core/mihomo/adapter/outboundgroup/groupbase.go:122-235 | In every interleaving a returned list is the pipeline over lists no older than the versions the call read, or the fallback when that is empty, unless it is taken from the cache 2^32 updates of a provider after the versions it is stored under |
| GroupCache.HitIsFreshIff | core/mihomo/adapter/outboundgroup/groupbase.go:122-137 | A cached list, itself read within 2^32 updates of its versions, comes from lists no older than the versions a hit has read if and only if no provider was updated 2^32 times in between |
| GroupCache.FreshUpToIff | core/mihomo/adapter/provider/provider.go:103-112 | With one provider, every return of every run is fresh while the provider has had at most n lists if and only if n is at most 2^32 |
| GroupCache.ReturnsOrderedLists | core/mihomo/adapter/outboundgroup/groupbase.go:122-235 | With several providers and filters every returned list, wrapped versions or not, is duplicate-free and ordered by first matching filter |
| GroupCache.WrappedVersionIsStale | core/mihomo/adapter/provider/provider.go:103-112 | A run in which the only provider supplies one list more than there are versions and a call then returns the cached list, made from no lists as new as the version it read |
| JumpHashing.JumpHash | core/mihomo/adapter/outboundgroup/loadbalance.go:74-84 | Ends because the jump strictly increases, stays in 64 bits, and returns the key's bucket; 0 when there are none |
| JumpHashing.JumpIsQuotient | core/mihomo/adapter/outboundgroup/loadbalance.go:80 | With exact division the truncated real jump is an integer quotient |
| JumpHashing.OneBucket | core/mihomo/adapter/outboundgroup/loadbalance.go:74-84 | Every key has exactly one bucket and it is one of the n |
| JumpHashing.BucketOnlyMovesToNew | core/mihomo/adapter/outboundgroup/loadbalance.go:74-84 | With more buckets a key stays or moves to a new one |
| JumpHashing.OneMoreBucket | core/mihomo/adapter/outboundgroup/loadbalance.go:74-84 | With one more bucket a key stays or moves to that one |
| JumpHashing.KnownBuckets | core/mihomo/adapter/outboundgroup/loadbalance.go:74-84 | Three keys and their buckets: 42 of 57 in 43, 3735883980 of 666 in 361, 256 of 1024 in 520 |
| JumpHashing.TryIsBucket | core/mihomo/adapter/outboundgroup/loadbalance.go:166-173 | Try i goes to the bucket of the hash plus i |
| JumpHashing.ConsistentHashing | core/mihomo/adapter/outboundgroup/loadbalance.go:161-183 | Picks the first alive among the buckets of the key and its four successors, else the first proxy alive in the list, else the first proxy |
| JumpHashing.AddingAProxyMovesLittle | core/mihomo/adapter/outboundgroup/loadbalance.go:161-183 | Adding a proxy that is alive moves a key that one of the five tries serves to the new proxy or not at all |
| RoundRobin.Strategy.Pick | core/mihomo/adapter/outboundgroup/loadbalance.go:132-159 | Picks the first proxy alive from the position on; moves on only when touching |
| RoundRobin.EachAliveOnce | core/mihomo/adapter/outboundgroup/loadbalance.go:132-159 | From any position, as many touching calls as there are proxies alive pick each of them exactly once |
| RoundRobin.PicksFollowLap | core/mihomo/adapter/outboundgroup/loadbalance.go:132-159 | Touching calls pick the rest of the lap in order |
| Murmur3.Digest.Write | core/mihomo/common/murmur3/murmur.go:19-44 | One write appends to the stream although the pending bytes live in the buffer it overwrites |
| Murmur3.Digest.Sum32 | core/mihomo/common/murmur3/murmur32.go:69-97 | The sum of the state, which stays unchanged |
| Murmur3.Digest.Reset | core/mihomo/common/murmur3/murmur.go:46-50 | Back to the start with the same seed |
| Murmur3.Bmix | core/mihomo/common/murmur3/murmur32.go:50-67 | Mixes every whole block in order and returns the rest |
| Murmur3.MixPauses | core/mihomo/common/murmur3/murmur.go:19-44 | Mixing may pause anywhere if the pending bytes are put in front of what follows |
| Murmur3.StreamingIsOneShot | core/mihomo/common/murmur3/murmur.go:19-44 | However the input is cut into writes the digest ends up as after one write of all of it |
| Murmur3.StreamedSum | core/mihomo/common/murmur3/murmur32.go:69-144 | The sum of a digest fed in pieces is the one-shot hash of the whole |
| Murmur3.Sum32WithSeed | core/mihomo/common/murmur3/murmur32.go:101-144 | Computes the one-shot hash |
| Murmur3.KnownShortSums | core/mihomo/common/murmur3/murmur32.go:101-144 | The published sums of nothing with three seeds and of one, two and three bytes |
| Murmur3.KnownBlockSums | core/mihomo/common/murmur3/murmur32.go:101-144 | The published sums of one block, with and without a seed |
| SocksAddress.ParseSocksAddr | core/mihomo/adapter/inbound/util.go:14-32 | The reader computes the parse, a panic on a bad index included |
| SocksAddress.RoundTripIff | core/mihomo/adapter/outbound/util.go:15-33 | Reading a written address gives back host or address and port if and only if the host has no trailing dot and at most 252 bytes (253 when the low port byte is 3), or the address is not an IPv4 address in IPv6 clothing and has no zone |
| SocksAddress.WireFormat | core/mihomo/adapter/outbound/util.go:15-33 | The bytes written: type 3, length and host; type 1 and four bytes; type 4 and sixteen; then the port, high byte first |
| SocksAddress.HostOf253LosesPort | core/mihomo/adapter/inbound/util.go:17-21 | At 253 bytes the low byte of the port reads as 3 |
| SocksAddress.HostOf254Panics | core/mihomo/adapter/inbound/util.go:17-21 | At 254 and 255 bytes the reader panics |
| SocksAddress.SerializeInjective | core/mihomo/adapter/outbound/util.go:15-33 | Two surviving destinations written the same way are the same |

## Left out

- Protocol constructors and dialers, TLS, QUIC, DoH and DoQ transports, listeners, system calls, YAML and URL decoding: input and output over libraries that are not part of this model.
- Deque.Copy, CopyOutSlice, AppendToSlice, Iter, RIter, Index and RIndex: loops that read the elements without changing the deque; `Copy` shares the defect of `CopyInSlice`.
- IterPopBack: the mirror image of `IterPopFront`.
- Capacities beyond the 64-bit range of Go's int: deque sizes are unbounded here.
- Deques.Deque.ShrinkToFit: where the original would loop forever the method returns with `ends` false, see `FitLoopEnds`; `IterPopFront` likewise.
- Arcs.Arc.SetMRU: removal finds the entry in its list by search; the handles into the linked lists, and the mutex around each operation, are not modelled.
- LruCaches.LruCache.Delete: list removal by search, as above.
- LruCache.CloneTo and GetOrStore: the first shares entries between two caches, the second is a get and a set.
- ARC with c < 1: the program does not check its size; the model asks for at least 1.
- ParseProxyGroup beyond references: types, filters, intervals, provider lookups and other options that can also fail a group; provider names taken from the configuration.
- GroupBuilding.ParseGroup: only references and names; `hasProviders` and the base proxies that include-all adds are inputs, and the other checks that can refuse a group are left out.
- GroupBuilding.BuildGroups: the same, so a group that it builds may still be refused for its type, providers or status ranges.
- Tunnel modes other than rule matching, and metadata resolution.
- JumpHashing.JumpHash: division is exact where the program divides in double precision; near an integer the two can differ in the last bit before truncation.
- Sticky sessions: they need the LRU cache, random numbers and a clock at once.
- GroupCache.ReturnsFreshLists: promises nothing about a cached list found again after 2^32 updates; `HitIsFreshIff` is exact there. A group without providers is not modelled.
- Health-check touching, failure counting and URL tests of groups.
- ProtectHook steps leave out the last error text, the traffic writer and the loading of the configuration itself; a start or reload that fails changes nothing that is modelled. The wait's timer and the passing of time are steps that may happen at any moment.
- Murmur: only the 32-bit digest, with the little-endian byte order of its loads.
- SocksAddress.ParseSocksAddr: a slice of the message stops at its length, where the program could read on to the capacity of its buffer.
- DotPool: TLS details, truncation and retry over TCP; an exchange that returns early because its context ended while its goroutine goes on is an exchange that has not returned yet.
