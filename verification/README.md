# Verified model of the DNS Lattice resolver core

DNS Lattice is a split-DNS forwarding resolver. This project models its stateful core and proves what that core
promises, for every input, every run and every interleaving:

- **Answer store** (`ShardModel`, `ShardInvariant`, `ShardRuns`, `ShardLookups`, `ShardEviction`, `ShardAdmission`,
  `LostInserts`, `ShardLinks`, `Shard`, `StoreModel`, `Store`): the S3-FIFO shard with its slab, two intrusive doubly
  linked queues, hash index, expiry index, free list and ghost ring. A shard is first a value with one function per
  operation; the class with slots and links is proved to compute exactly those functions. On top: the byte budget in
  every reachable state, the bound on eviction work, agreement with a plain last-insert-wins map (exact while nothing
  is evicted), scan resistance over whole runs, and exactly when a new entry outlives its own insert.
- **Flushes** (`Flush`, `FlushProgress`, `FlushRefinement`): epochs and shard locks as interleaved steps of any number
  of queries and flushes, what a flush achieves, and the proof that every run of real shards is a run of that protocol.
- **Coalescing** (`Flights`, `Resolve`, `ResolveCalls`, `Backoff`, `BackoffRuns`): leaders, followers, cancellation and
  hand-over as a state machine; resolution with its two lookups on top of it, and when two calls for one key can be
  open at once; recheck windows of stale entries; cached failures with doubling backoff.
- **Fake IP pool** (`FakeIp`, `FakeIpRecency`, `FakeIpPool`, `FakeIpSnapshots`, `FakeIpFamily`): the abstract list of
  mappings in order of use, least recently used eviction over whole runs, snapshots across time, and the class with
  forward and reverse maps and recency counters that refines the list.
- **Wire codec** (`WireNames`, `Messages`, `MessageNames`, `MessageRoundTrip`, `WireLayout`, `MessageCodec`, `Edns`):
  sections 4.1.1 to 4.1.4 of RFC 1035 and section 6.1 of RFC 6891, as functions, with round trips in both directions
  and the layout in numbers, and as the source's loops over a growing buffer and a moving cursor.
- **Keys, lifetimes, routing** (`Names`, `Records`, `CacheKey`, `Lifetimes`, `StoredAnswers`, `Matcher`): injective
  cache keys, subtree purges on wire bytes, which answers are stored and for exactly how long (section 5 of RFC 2308),
  rule precedence.

`dafny verify dfyconfig.toml` checks the whole project.

Time is a natural number of nanoseconds, a hash is an arbitrary function of the key, a lock is a pair of steps, and an
answer's estimated heap size is an arbitrary number carried with it.

Five places where the code does less than a first reading, or its own text, suggests. Each has a lemma at a failing
input and an if-and-only-if for all inputs:

- The comment on `decode_name` (crates/dns-lattice-model/src/message.rs:544-546) says that a pointer to a strictly
  earlier offset rules out loops. It does not: a pointer may target an earlier label of the run it ends
  (`WireNames.PointerIntoOwnRun`, and `MessageNames.LoopingQuery` for a whole query). The loop ends exactly when its
  walk never comes back to an offset (`WireNames.EndsIff`, `MessageNames.DecodeEndsIff`). The decoding functions return
  `Diverges` on the other inputs, so they are total.
- `Shard::insert` can return `true` for an entry its own eviction loop has already removed (`LostInserts.LostFromSmall`,
  `LostInserts.LostFromMain`). `ShardAdmission.InsertStoredIff` says exactly when.
- The text of the coalescing module (crates/dns-lattice/src/cache/flight.rs:3) says that concurrent misses for one key
  share an upstream query. Not while another key with the same hash has the flight: then calls for the one key can
  overlap (`ResolveCalls.CollidingKeysOverlap`), and only then (`ResolveCalls.OverlapIff`).
- A Fake IP range that is the whole address space is never considered full, so allocation does not end when all its
  addresses are taken (`FakeIp.CrowdedLoops`), and only then (`FakeIp.LoopsIff`).
- A message value need not survive the wire: an `Other` code that has a name, or a type field that disagrees with the
  data, comes back changed (`MessageRoundTrip.NumberedOpcodeChanges`, `MessageRoundTrip.WrongTypeChanges`). Exactly the
  canonical messages survive (`MessageRoundTrip.RoundTripIff`).

## Model

| member | source | states |
|---|---|---|
| ShardRuns.RunWithinBudget | crates/dns-lattice/src/cache/store.rs:427-722 | After any run of get, insert, forget, remove and clear, the shard invariant holds and its bytes, ghosts included, are within the budget |
| ShardRuns.ApplyInv | crates/dns-lattice/src/cache/store.rs:558-673 | Each operation keeps the invariant and ends within the budget |
| ShardRuns.EvictionWork | crates/dns-lattice/src/cache/store.rs:676-721 | The eviction loop takes at most four turns per live slot and stops above the budget only with both queues empty |
| ShardModel.RoomStepWorks | crates/dns-lattice/src/cache/store.rs:676-721 | Every turn of the eviction loop lowers live slots plus the sum of their frequencies |
| ShardRuns.LastInsertWins | crates/dns-lattice/src/cache/store.rs:558-644 | After any run a lookup finds nothing or the answer of the last insert for that exact key, whatever the hash collisions |
| ShardRuns.RunWithin | crates/dns-lattice/src/cache/store.rs:558-673 | Everything the shard holds after a run is in the plain map driven by the same operations |
| ShardRuns.ApplyCovers | crates/dns-lattice/src/cache/store.rs:558-673 | Only an insert that has to evict, or finds no slot, makes the shard hold less than the plain map |
| ShardRuns.PlainIsLastInsert | crates/dns-lattice/src/cache/store.rs:590-598 | The plain map holds, per hash, the last insert's key and answer |
| ShardRuns.InsertNodes | crates/dns-lattice/src/cache/store.rs:590-644 | What an insert leaves is older nodes of other hashes and possibly the new one |
| ShardEviction.ScanResistance | crates/dns-lattice/src/cache/store.rs:590-721 | If the entries in use, the small target and a full ghost ring fit the budget, any scan of new keys, however long, leaves every entry in use stored |
| ShardEviction.ExpiredFirst | crates/dns-lattice/src/cache/store.rs:676-689 | If an expired node survives the eviction loop, every node it removed had expired too, and no later |
| ShardEviction.UnexpiredKeptIff | crates/dns-lattice/src/cache/store.rs:676-689 | The eviction loop spares every unexpired node if and only if the shard fits its budget without the expired ones |
| ShardEviction.UnexpiredLeaveLast | crates/dns-lattice/src/cache/store.rs:676-689 | Once an unexpired node has left, no expired node is left |
| ShardAdmission.InsertStoredIff | crates/dns-lattice/src/cache/store.rs:590-721 | An insert that reports success has stored its entry if and only if what the eviction loop would leave beside it fits the budget; otherwise nothing is stored under its hash |
| ShardAdmission.SmallFate | crates/dns-lattice/src/cache/store.rs:692-707 | An unexpired new entry over the small target stays in Small if and only if it, the unexpired Main, the hit nodes of Small and the ghosts of the others fit the budget |
| ShardAdmission.MainFate | crates/dns-lattice/src/cache/store.rs:692-721 | An unexpired new entry in Main stays if and only if it, the trimmed Small with its promoted nodes and ghosts, and the hit nodes before it fit the budget |
| ShardAdmission.ExpiredFate | crates/dns-lattice/src/cache/store.rs:676-684 | An entry that has expired already stays if and only if the shard fits its budget once the nodes that expire before it are gone |
| ShardAdmission.InsertSurvives | crates/dns-lattice/src/cache/store.rs:590-721 | A key new to the shard, of at most the small target and not past its drop time, is always stored when its insert returns |
| ShardAdmission.AdmittedThenEvicted | crates/dns-lattice/src/cache/store.rs:599-644 | Above the small target, a full shard with an empty Small queue reports success and stores nothing |
| ShardAdmission.AdmittedToMainThenEvicted | crates/dns-lattice/src/cache/store.rs:603-644 | A remembered or reused key of any cost is reported as stored and is not, when Main is all in use and the shard is full |
| LostInserts.LostFromSmall | crates/dns-lattice/src/cache/store.rs:590-644 | After a run from the empty shard with real keys and any hash that tells them apart, an unseen key of the size of all the others is reported as stored and nothing is stored under its hash |
| LostInserts.LostFromMain | crates/dns-lattice/src/cache/store.rs:590-644 | After the same run a remembered key, of that size or any smaller one, is reported as stored and nothing is stored under its hash |
| LostInserts.Reached | crates/dns-lattice/src/cache/store.rs:558-644 | Which shard that run reaches: eight keys in use in Main, one remembered, the budget used up |
| ShardRuns.AdmittedIff | crates/dns-lattice/src/cache/store.rs:599-635 | An entry is admitted if and only if it is not oversized and there is a slot for it |
| ShardLookups.LookupHit | crates/dns-lattice/src/cache/store.rs:558-574 | A lookup of a stored, unexpired entry finds its answer, counts one hit on it up to three and changes no other node, queue or ghost |
| ShardLookups.LookupExpired | crates/dns-lattice/src/cache/store.rs:562-570 | A lookup of an expired entry finds nothing and drops that entry alone; its hash is remembered if and only if the entry had been hit |
| ShardLookups.LookupMiss | crates/dns-lattice/src/cache/store.rs:558-562 | A lookup of anything not stored finds nothing and changes nothing |
| ShardLookups.UncrowdedIsPlain | crates/dns-lattice/src/cache/store.rs:558-673 | After any run in which no insert has to evict, every lookup gives exactly what the plain map gives |
| ShardLookups.FoundUntilStale | crates/dns-lattice/src/cache/store.rs:558-644 | In such a run an entry that is not oversized is found by every lookup until its drop time, unless it is replaced, removed or forgotten |
| ShardLookups.StoreIsPlain | crates/dns-lattice/src/cache/store.rs:773-840 | The same for the whole store: as long as the shard of the hash evicts nothing, a lookup gives exactly what one plain map of the whole run gives |
| ShardLookups.StoreFoundUntilStale | crates/dns-lattice/src/cache/store.rs:773-840 | An entry of the store is found until its drop time while its shard evicts nothing |
| ShardLookups.ForgetExact | crates/dns-lattice/src/cache/store.rs:578-588 | Forgetting takes out the entry of that exact key if it is a failure, reports exactly that, and touches nothing else |
| ShardLookups.PushGhostRemembers | crates/dns-lattice/src/cache/store.rs:542-556 | A pushed hash is remembered, and a full ring forgets its oldest entry for it, that one alone |
| ShardLookups.EvictedRemembered | crates/dns-lattice/src/cache/store.rs:692-721 | What one eviction removes is the unhit head of its queue; from Small its hash is remembered, from Main no ghost changes |
| ShardLookups.AdmittedQueue | crates/dns-lattice/src/cache/store.rs:590-635 | A new entry joins Main if and only if its key was stored and hit or promoted, or its hash was remembered; its hash is then no longer remembered |
| ShardLookups.SecondChance | crates/dns-lattice/src/cache/store.rs:590-721 | An entry evicted unread from Small joins Main when it is inserted again |
| ShardLookups.RunNumbered | crates/dns-lattice/src/cache/store.rs:542-556 | In every reachable shard ghosts are numbered in the order they were pushed |
| ShardModel.EarliestFirst | crates/dns-lattice/src/cache/store.rs:676-684 | The expiry index gives the earliest drop time first, and of several the lowest slot |
| ShardInvariant.RemoveSlotInv | crates/dns-lattice/src/cache/store.rs:529-540 | Removing a live slot keeps the invariant: exactly that node leaves, its bytes and its index are given back |
| ShardInvariant.PushGhostInv | crates/dns-lattice/src/cache/store.rs:542-556 | Remembering a hash keeps the invariant (ring within capacity, every remembered hash in it), no node changes, and at most one ghost is added |
| ShardInvariant.EvictOneInv | crates/dns-lattice/src/cache/store.rs:692-721 | One eviction step keeps the invariant and adds no node |
| ShardInvariant.MakeRoomInv | crates/dns-lattice/src/cache/store.rs:676-689 | The eviction loop keeps the invariant, adds nothing and ends within the budget |
| ShardInvariant.GetInv | crates/dns-lattice/src/cache/store.rs:558-574 | A lookup keeps the invariant and adds neither nodes nor bytes |
| ShardInvariant.ForgetInv | crates/dns-lattice/src/cache/store.rs:578-588 | Forgetting a failure keeps the invariant and adds nothing |
| ShardInvariant.InsertInv | crates/dns-lattice/src/cache/store.rs:590-644 | An insert keeps the invariant and ends within the budget |
| ShardInvariant.RemoveMatchingInv | crates/dns-lattice/src/cache/store.rs:658-673 | A sweep keeps the invariant and removes exactly the matching nodes |
| ShardLinks.RemoveWired | crates/dns-lattice/src/cache/store.rs:507-540 | Unlinking and freeing a slot keeps both doubly linked lists, the hash index and the expiry index exactly on the live slots |
| ShardLinks.RequeueWired | crates/dns-lattice/src/cache/store.rs:699-714 | Moving a slot to the back of Main with a new frequency keeps all the links and indices |
| ShardLinks.FillWired | crates/dns-lattice/src/cache/store.rs:610-639 | Filling an empty or new slot, indexing it and appending it keeps slab, lists and indices consistent and adds exactly that node at the back |
| ShardClass.Shard.constructor | crates/dns-lattice/src/cache/store.rs:446-462 | A new shard is the empty shard of its budget |
| ShardClass.Shard.PushBack | crates/dns-lattice/src/cache/store.rs:487-505 | Appends a loose slot to a queue, with its links, ends and byte count |
| ShardClass.Shard.Unlink | crates/dns-lattice/src/cache/store.rs:507-526 | Takes a slot out of its queue, with its links, ends and byte count |
| ShardClass.Shard.RemoveSlot | crates/dns-lattice/src/cache/store.rs:529-540 | The object stays valid and its value becomes the specified removal |
| ShardClass.Shard.Requeue | crates/dns-lattice/src/cache/store.rs:699-714 | The slot ends at the back of Main with the given frequency |
| ShardClass.Shard.PushGhost | crates/dns-lattice/src/cache/store.rs:542-556 | The trimming loop computes the specified ghost ring |
| ShardClass.Shard.Get | crates/dns-lattice/src/cache/store.rs:558-574 | Lookup through the hash index and the slab computes the specified lookup |
| ShardClass.Shard.ForgetFailure | crates/dns-lattice/src/cache/store.rs:578-588 | Computes the specified removal of a failure |
| ShardClass.Shard.EvictOne | crates/dns-lattice/src/cache/store.rs:692-721 | Computes the specified eviction step from the heads of the linked lists |
| ShardClass.Shard.MakeRoom | crates/dns-lattice/src/cache/store.rs:676-689 | The eviction loop terminates and computes the specified eviction |
| ShardClass.Shard.Displace | crates/dns-lattice/src/cache/store.rs:595-598 | Removes whatever the hash maps to and tells whether the key was in use |
| ShardClass.Shard.Place | crates/dns-lattice/src/cache/store.rs:610-639 | Puts a node into a free or new slot and the chosen queue |
| ShardClass.Shard.Insert | crates/dns-lattice/src/cache/store.rs:590-644 | Computes the specified insert, eviction included |
| ShardClass.Shard.Clear | crates/dns-lattice/src/cache/store.rs:648-655 | The shard becomes empty; returns how many entries it held |
| ShardClass.Shard.RemoveMatching | crates/dns-lattice/src/cache/store.rs:658-673 | The sweep over the slab computes the specified removal and counts it |
| StoreModel.StoreLastInsertWins | crates/dns-lattice/src/cache/store.rs:782-855 | After any run of the whole store a lookup finds nothing or the answer of the last insert for that exact key |
| StoreModel.StoreWithinBudget | crates/dns-lattice/src/cache/store.rs:752-855 | After any run the shards together hold at most what the store was given |
| StoreModel.ShardOfRemainder | crates/dns-lattice/src/cache/store.rs:773-776 | Masking the high bits of a hash selects a shard: it is their remainder by the number of shards |
| StoreModel.ConfiguredShards | crates/dns-lattice/src/cache/store.rs:752-754 | A configured number of shards is rounded up to the least power of two |
| StoreModel.AutomaticShards | crates/dns-lattice/src/cache/store.rs:728-740 | The automatic number is at most 64 and leaves every shard 256 KiB, and no larger power of two within four times the parallelism does |
| StoreModel.AutomaticShardsAtMost | crates/dns-lattice/src/cache/store.rs:730-735 | The automatic number is at most the least power of two that is four times the parallelism |
| StoreModel.ShardCountPower | crates/dns-lattice/src/cache/store.rs:752-759 | However it is configured, the number of shards is a power of two |
| StoreModel.NextPowerIsLeast | crates/dns-lattice/src/cache/store.rs:754 | The count is the least power of two that is large enough |
| StoreClass.DefaultShardCount | crates/dns-lattice/src/cache/store.rs:730-740 | The halving loop gives the automatic count |
| StoreClass.Store.WithinMaxBytes | crates/dns-lattice/src/cache/store.rs:464-466 | The bytes of all shards together are at most what the store was given |
| StoreClass.Store.constructor | crates/dns-lattice/src/cache/store.rs:752-766 | As many empty shards as configured or chosen, with equal budgets |
| StoreClass.Store.Select | crates/dns-lattice/src/cache/store.rs:773-776 | The shard of a hash is the remainder of its high bits |
| StoreClass.Store.Get | crates/dns-lattice/src/cache/store.rs:782-784 | Looks the key up in the shard its hash selects and in no other |
| StoreClass.Store.InsertIf | crates/dns-lattice/src/cache/store.rs:810-820 | Stores in the selected shard when allowed; otherwise changes nothing |
| StoreClass.Store.ForgetFailure | crates/dns-lattice/src/cache/store.rs:788-790 | Forgets a failure in the selected shard |
| StoreClass.Store.RemoveWhere | crates/dns-lattice/src/cache/store.rs:850-855 | Sweeps every shard: leaves exactly what does not match and counts the rest |
| StoreClass.Store.Clear | crates/dns-lattice/src/cache/store.rs:824-826 | Empties every shard and counts what it held |
| StoreClass.Store.Purge | crates/dns-lattice/src/cache/store.rs:830-839 | Leaves exactly the nodes not stored for the name and type, and counts the rest; a name that does not fit changes nothing |
| StoreClass.Store.PurgeSubtree | crates/dns-lattice/src/cache/store.rs:843-848 | Leaves exactly the nodes not at or below the zone, and counts the rest; a zone that does not fit changes nothing |
| CacheKey.KeyInjective | crates/dns-lattice/src/cache/store.rs:193-223 | Two keys are equal if and only if group, type code, class code, RD, DO and case-folded name are |
| CacheKey.WireInjective | crates/dns-lattice/src/cache/store.rs:236-245 | Uncompressed wire names determine their labels |
| CacheKey.BelowIsSuffix | crates/dns-lattice/src/cache/store.rs:259-272 | Walking a wire name finds the zone if and only if the zone's labels end the name's labels |
| CacheKey.KeyLayout | crates/dns-lattice/src/cache/store.rs:178-229 | A query has a key if and only if its name fits the wire; where the key holds what: group, type, class, RD and DO as the two low bits of a byte, then the case-folded name |
| CacheKey.SubtreeIsEndsWith | crates/dns-lattice/src/cache/store.rs:257-272 | The subtree test on wire bytes agrees with suffix matching of names without case |
| CacheKey.PurgeSubtreeExact | crates/dns-lattice/src/cache/store.rs:843-848 | A subtree purge matches a query's key if and only if the query's name is the zone or below it |
| CacheKey.PurgeExact | crates/dns-lattice/src/cache/store.rs:830-839 | A purge matches a query's key if and only if the name is the same and the type, when given, too |
| CacheKey.InSubtree | crates/dns-lattice/src/cache/store.rs:259-272 | The walking loop decides membership in the subtree |
| CacheKey.BuildKey | crates/dns-lattice/src/cache/store.rs:193-223 | Filling the fixed buffer byte by byte gives the key, or nothing for a name over the wire limits |
| FlushProtocol.FlushIsComplete | crates/dns-lattice/src/engine.rs:712-734 | In every interleaving, once a flush has returned no stored entry it matches came from an upstream call that read the epoch before the flush's bump |
| FlushProtocol.RefusedIffFlushed | crates/dns-lattice/src/cache/store.rs:810-820 | A query is refused its insert if and only if a flush began after it read the epoch |
| FlushProtocol.RunInv | crates/dns-lattice/src/engine.rs:1007-1009 | Locks, epochs and swept shards satisfy the protocol invariant in every reachable state |
| FlushRefinement.InsertIsStep | crates/dns-lattice/src/engine.rs:1057-1066 | An allowed insert into a real shard, eviction included, is a step of the flush protocol |
| FlushRefinement.SweepIsStep | crates/dns-lattice/src/cache/store.rs:850-855 | Sweeping a real shard has exactly the effect of the protocol's sweep |
| FlushProgress.FlushReturns | crates/dns-lattice/src/cache/store.rs:850-855 | A flush nobody holds up returns, and has removed from the shards still to sweep exactly what it matches |
| FlushProgress.LocksAreReturned | crates/dns-lattice/src/cache/store.rs:810-855 | In every reachable state whoever holds a shard's lock can take a step that gives it back, or the one before that |
| FlushRefinement.OtherStepsLose | crates/dns-lattice/src/cache/store.rs:558-588 | Lookups and forgotten failures only lose entries, which the protocol allows at any time |
| FlushRefinement.Simulates | crates/dns-lattice/src/engine.rs:712-734 | Every run of real shards under locks and epochs is a run of the flush protocol |
| FlushRefinement.RealFlushIsComplete | crates/dns-lattice/src/engine.rs:712-734 | In every run of real shards, once a flush has returned no live node it matches came from an upstream call that read the epoch before the bump |
| FlightProtocol.NoFollowerStranded | crates/dns-lattice/src/cache/flight.rs:91-109 | In every reachable state a follower's flight is closed and the follower sees how, or it is still led by someone who has yet to close it |
| FlightProtocol.OneLeaderPerHash | crates/dns-lattice/src/cache/flight.rs:136-167 | At most one registered leader is in charge of a hash |
| FlightProtocol.UnregistersOnlyItself | crates/dns-lattice/src/cache/flight.rs:170-178 | Unregistering removes the caller's own registration and no other |
| FlightProtocol.RunInv | crates/dns-lattice/src/cache/flight.rs:136-233 | The registry, the guards and the cells satisfy the protocol invariant in every reachable state |
| FlightsClass.Flights.JoinOrLead | crates/dns-lattice/src/cache/flight.rs:136-167 | On a free hash the caller leads a new flight and it is registered; with its key registered it follows that flight; with another key registered it leads a private one; the registry changes in the first case only |
| FlightsClass.Flights.Unsubscribe | crates/dns-lattice/src/cache/flight.rs:86-93 | A dropped follower's receiver unsubscribes |
| FlightsClass.Flights.Wait | crates/dns-lattice/src/cache/flight.rs:91-109 | A follower of a closed flight takes its outcome, or is told to join again |
| FlightsClass.Flights.HandOver | crates/dns-lattice/src/cache/flight.rs:200-204 | The leader gives its guard to a task and follows its own flight |
| FlightsClass.Flights.Unregister | crates/dns-lattice/src/cache/flight.rs:170-178 | Takes the protocol's unregistering step |
| FlightsClass.Flights.Finish | crates/dns-lattice/src/cache/flight.rs:211-220 | Unregisters, then publishes: every follower of the flight sees the outcome |
| FlightsClass.Flights.Drop | crates/dns-lattice/src/cache/flight.rs:223-233 | Unregisters, then abandons: the flight's cell says so |
| ResolveCalls.OneCallPerKey | crates/dns-lattice/src/engine.rs:541-582 | In every run whose keys do not collide, no two upstream calls for one key are open at once, whoever makes them |
| ResolveCalls.CollidingKeysOverlap | crates/dns-lattice/src/cache/flight.rs:142-148 | For any two keys that collide there is a run in which two calls for one of them are open at once |
| ResolveCalls.OverlapIff | crates/dns-lattice/src/cache/flight.rs:136-167 | Two calls for one key can be open at once if and only if two of the keys asked for share a hash |
| ResolveCalls.NeverStuck | crates/dns-lattice/src/engine.rs:541-582 | In every reachable state every query can take its own next step, or waits for a flight whose leader can take its own |
| ResolveCalls.RecheckExact | crates/dns-lattice/src/engine.rs:798-833 | After any run an expired answer is served without a refresh if and only if some failed refresh of that very entry put the next one off past now |
| Resolve.ClassifyCases | crates/dns-lattice/src/engine.rs:798-833 | Each of the outcomes of a look, as an if-and-only-if on the entry's kind and times |
| FlightProtocol.NonePrivateNext | crates/dns-lattice/src/cache/flight.rs:136-167 | While no two keys in use share a hash, every step leaves all leader guards registered ones |
| Resolve.CallsNeverOverlap | crates/dns-lattice/src/engine.rs:541-582 | In every run, upstream calls by registered leaders of one key never overlap |
| Resolve.CallsOnlyWhenNeeded | crates/dns-lattice/src/engine.rs:584-688 | Once a registered leader has stored an entry, a later one of that key is on its way to an upstream call or in one only if that entry has left the store or had expired when it looked |
| Resolve.LooksOnlyWhenNeeded | crates/dns-lattice/src/engine.rs:584-624 | A leader whose look lets it go on looked when the last stored entry of its key had left the store or expired |
| Resolve.RunInv | crates/dns-lattice/src/engine.rs:541-688 | Queries, flights and store satisfy the invariant in every reachable state |
| Backoff.BackoffOfStreak | crates/dns-lattice/src/engine.rs:964-1012 | After any history of one key, a failure is held if and only if its streak is not zero, with exactly the capped doubling of the streak, its window and its retention |
| Backoff.KthFailure | crates/dns-lattice/src/cache/mod.rs:229-244 | The k-th consecutive failure, each recorded while the one before was retained, backs off min(longest, initial * 2^(k-1)) |
| Backoff.NoCallInsideWindow | crates/dns-lattice/src/engine.rs:604-609 | In every run, no registered leader whose key's last failure is still stored looked inside its window and called upstream |
| BackoffRuns.RunBackoff | crates/dns-lattice/src/engine.rs:964-1012 | In every run of the resolution protocol, a stored failure that is the k-th of its series has exactly the capped doubling, window and retention of that number |
| BackoffRuns.NoCallLookedInside | crates/dns-lattice/src/engine.rs:584-624 | In every run, no query in an upstream call, registered or not, looked inside the window of what it found |
| BackoffRuns.ReturnedRight | crates/dns-lattice/src/engine.rs:987-1006 | A failure recorded after a retained one gets the next number of the series, otherwise the first |
| Lifetimes.HitTtls | crates/dns-lattice/src/engine.rs:1359-1371 | While an entry is fresh, each record of a hit has the stored TTL less the whole seconds gone by and at least one; nothing else of the answer but id, RD, AA and questions changes |
| Lifetimes.LivesNoLongerThanItsRecords | crates/dns-lattice/src/engine.rs:1714-1730 | An entry lives at most as long as any TTL stored in it |
| Lifetimes.NegativeTtl | crates/dns-lattice/src/engine.rs:1697-1708 | Clamping first and taking the minimum later gives the clamped minimum of what was received |
| Lifetimes.StoredWithinBounds | crates/dns-lattice/src/engine.rs:1693-1695 | Every stored TTL is within the bounds of the entry's class |
| StoredAnswers.StoredIff | crates/dns-lattice/src/engine.rs:1665-1731 | An answer is stored if and only if it answers a standard query, is whole, has a cached response code and no extended one, and has a lifetime that is not zero after clamping |
| StoredAnswers.PositiveLifetime | crates/dns-lattice/src/engine.rs:1692-1721 | A positive answer lives exactly as long as the least clamped TTL of its received records, OPT apart, which one of them has |
| StoredAnswers.NegativeLifetime | crates/dns-lattice/src/engine.rs:1696-1721 | A negative answer lives exactly as long as the lesser of that and the clamped minimum of SOA TTL and MINIMUM, or of the configured lifetime without an SOA |
| StoredAnswers.StoredMessage | crates/dns-lattice/src/engine.rs:1688-1713 | The stored copy is the received message without OPT records, record by record with clamped TTLs and nothing else changed; a negative one has the negative TTL in its first SOA |
| Lifetimes.AlignedEdns | crates/dns-lattice/src/engine.rs:1320-1332 | Every answer to a query with EDNS goes out with its own OPT record or a fresh one, every answer to a query without goes out with none, and no other record changes |
| Lifetimes.HitFloor | crates/dns-lattice/src/engine.rs:1359-1371 | No hit carries a TTL of zero, however long ago its entry was stored |
| Lifetimes.HitEdns | crates/dns-lattice/src/engine.rs:1320-1332 | A hit carries no OPT record if its query has none or a malformed one, else a fresh one with the query's DO bit |
| Lifetimes.ClampTtls | crates/dns-lattice/src/engine.rs:1693-1695 | The clamping loop over a section's records |
| Lifetimes.CountDownTtls | crates/dns-lattice/src/engine.rs:1367-1369 | The countdown loop over a section's records |
| Lifetimes.FindSoa | crates/dns-lattice/src/engine.rs:1697-1703 | Finds the first record with SOA data |
| Lifetimes.FindLeastTtl | crates/dns-lattice/src/engine.rs:1714 | Finds the least TTL that is a lifetime |
| Lifetimes.Normalise | crates/dns-lattice/src/engine.rs:1689-1695 | Removes OPT records and clamps every section |
| Lifetimes.CacheAnswer | crates/dns-lattice/src/engine.rs:1665-1731 | The step-by-step gate and normalisation computes the specified entry |
| Lifetimes.ServeHit | crates/dns-lattice/src/engine.rs:1359-1371 | The step-by-step projection computes the specified response |
| WireNames.EndsIff | crates/dns-lattice-model/src/message.rs:547-590 | The name decoder's loop ends if and only if its walk never comes back to an offset |
| WireNames.DescendingRunsEnd | crates/dns-lattice-model/src/message.rs:544-590 | It ends whenever each followed pointer targets an offset below the start of the run that led to it |
| WireNames.PointerIntoRunDiverges | crates/dns-lattice-model/src/message.rs:567-571 | The source's check is not enough: a run of labels that ends in a pointer to one of its own offsets makes the loop endless |
| WireNames.PointerIntoOwnRun | crates/dns-lattice-model/src/message.rs:567-571 | Four bytes on which the loop is endless |
| WireNames.EndPosition | crates/dns-lattice-model/src/message.rs:563-566 | Decoding leaves the position just after the first pointer, or after the root byte if there was none |
| WireNames.NameRoundTrip | crates/dns-lattice-model/src/message.rs:547-612 | Decoding an encoded name gives it back and stops right after it |
| WireNames.DecodedNameWellformed | crates/dns-lattice-model/src/message.rs:576-595 | A decoded name has labels of 1 to 63 bytes and at most 255 bytes, and the position moves forward inside the buffer |
| WireNames.ReadName | crates/dns-lattice-model/src/message.rs:547-596 | The decoding loop, on input where it ends, computes the specified name and position |
| MessageNames.DecodeEndsIff | crates/dns-lattice-model/src/message.rs:286-314 | Decoding a message does not end if and only if some name it comes to is a walk that comes back to an offset |
| MessageNames.FirstNameLoops | crates/dns-lattice-model/src/message.rs:286-293 | A message with a question whose name loops is never decoded |
| MessageNames.LoopingQuery | crates/dns-lattice-model/src/message.rs:286-293 | A query of sixteen bytes on which the decoder does not end |
| MessageRoundTrip.RoundTrip | crates/dns-lattice-model/src/message.rs:286-347 | Decoding an encoded canonical message gives it back |
| MessageRoundTrip.RoundTripIff | crates/dns-lattice-model/src/message.rs:286-347 | Among the messages that encode, decoding gives back exactly the canonical ones |
| MessageRoundTrip.DecodedIsCanonical | crates/dns-lattice-model/src/message.rs:286-314 | Whatever decodes is canonical |
| MessageRoundTrip.CanonicalEncodes | crates/dns-lattice-model/src/message.rs:324-347 | A canonical message encodes or is too long; no other error is possible |
| MessageRoundTrip.ReencodingSettles | crates/dns-lattice-model/src/message.rs:286-347 | What decodes from any bytes encodes and decodes to itself again, or is too long to encode |
| MessageRoundTrip.NumberedOpcodeChanges | crates/dns-lattice-model/src/message.rs:154-163 | A numbered opcode that has a name encodes and comes back by its name |
| MessageRoundTrip.WrongTypeChanges | crates/dns-lattice-model/src/message.rs:528-542 | A type that disagrees with the data encodes and comes back as the type of the data |
| MessageRoundTrip.FlagsRoundTrip | crates/dns-lattice-model/src/message.rs:427-474 | The flag word gives back the header if and only if opcode and rcode are canonical |
| MessageRoundTrip.RDataAt | crates/dns-lattice-model/src/record.rs:169-310 | Decoding encoded canonical record data gives it back and stops right after it |
| MessageRoundTrip.DecodedRData | crates/dns-lattice-model/src/record.rs:212-321 | Decoded record data is canonical, of the type asked for and of exactly the declared length |
| MessageRoundTrip.StringsEncode | crates/dns-lattice-model/src/record.rs:174-182 | Text encodes if and only if every string has at most 255 bytes |
| MessageRoundTrip.RecordAt | crates/dns-lattice-model/src/message.rs:494-542 | Decoding an encoded canonical record gives it back and stops right after it |
| MessageRoundTrip.DecodedRecord | crates/dns-lattice-model/src/message.rs:494-526 | A decoded record is canonical: class 0 and the TTL's high bit only on OPT |
| MessageRoundTrip.QuestionAt | crates/dns-lattice-model/src/message.rs:476-492 | Decoding an encoded canonical question gives it back and stops right after it |
| MessageCodec.Writer.Name | crates/dns-lattice-model/src/message.rs:601-612 | Appends the encoding of a name, or fails as specified with what was written before untouched |
| MessageCodec.Writer.Strings | crates/dns-lattice-model/src/record.rs:174-182 | Appends the encoding of text strings, or fails as specified |
| MessageCodec.Writer.RData | crates/dns-lattice-model/src/record.rs:169-210 | Appends the encoding of record data, or fails as specified |
| MessageCodec.Writer.Question | crates/dns-lattice-model/src/message.rs:487-492 | Appends the encoding of a question, or fails as specified |
| MessageCodec.Writer.Record | crates/dns-lattice-model/src/message.rs:528-542 | Writing a placeholder and patching the length over it appends the encoding of the record |
| MessageCodec.Writer.Message | crates/dns-lattice-model/src/message.rs:324-347 | Appends the encoding of a message within 65535 bytes of buffer, or fails as specified |
| MessageCodec.Reader.Name | crates/dns-lattice-model/src/message.rs:547-596 | Reads the specified name and moves the cursor to the specified position |
| MessageCodec.Reader.CheckedName | crates/dns-lattice-model/src/record.rs:313-321 | Reads a name that has to fill the declared length |
| MessageCodec.Reader.Strings | crates/dns-lattice-model/src/record.rs:250-266 | The loop over text strings reads the specified strings |
| MessageCodec.Reader.Mx | crates/dns-lattice-model/src/record.rs:267-279 | Reads a preference and a name of exactly the declared length |
| MessageCodec.Reader.Soa | crates/dns-lattice-model/src/record.rs:280-302 | Reads two names and five integers of exactly the declared length |
| MessageCodec.Reader.RData | crates/dns-lattice-model/src/record.rs:212-310 | Reads the specified record data or fails as specified |
| MessageCodec.Reader.Question | crates/dns-lattice-model/src/message.rs:476-485 | Reads the specified question or fails as specified |
| MessageCodec.Reader.Record | crates/dns-lattice-model/src/message.rs:494-526 | Reads the specified record or fails as specified |
| MessageCodec.Reader.Questions | crates/dns-lattice-model/src/message.rs:290-293 | The loop over a section reads the specified questions |
| MessageCodec.Reader.Records | crates/dns-lattice-model/src/message.rs:294-305 | The loop over a section reads the specified records |
| MessageCodec.ReadMessage | crates/dns-lattice-model/src/message.rs:286-314 | The decoder with its cursor computes the specified message |
| EdnsRecords.SetThenRead | crates/dns-lattice-model/src/message.rs:366-420 | Reading EDNS after setting it gives exactly what was set, for any message and any option list |
| EdnsRecords.SetKeepsOthers | crates/dns-lattice-model/src/message.rs:414-420 | Setting EDNS keeps the other additional records in order; a second setting replaces the first |
| EdnsRecords.SurvivesTheWire | crates/dns-lattice-model/src/message.rs:386-412 | EDNS set on a canonical message is read back from the decoded encoding |
| EdnsRecords.OptionsRoundTrip | crates/dns-lattice-model/src/edns.rs:140-182 | Parsing printed options gives them back |
| EdnsRecords.ParsedOptionsPrint | crates/dns-lattice-model/src/edns.rs:146-162 | Printing parsed options gives the bytes back; the one error is a length mismatch |
| EdnsRecords.RecordRoundTrip | crates/dns-lattice-model/src/edns.rs:140-197 | Reading a built OPT record gives the parameters back |
| EdnsRecords.RebuiltRecord | crates/dns-lattice-model/src/edns.rs:164-197 | Building from a parsed canonical OPT record gives it back if and only if its reserved bits are zero, and otherwise clears just those |
| EdnsRecords.ReadOptions | crates/dns-lattice-model/src/edns.rs:146-162 | The option parsing loop |
| EdnsRecords.WriteOptions | crates/dns-lattice-model/src/edns.rs:176-182 | The option printing loop |
| EdnsRecords.ReadEdns | crates/dns-lattice-model/src/message.rs:366-379 | The search for the one OPT record; two are an error |
| EdnsRecords.ReplaceEdns | crates/dns-lattice-model/src/message.rs:414-420 | Drops every OPT record and appends the new one |
| FakeIp.AllocateInv | crates/dns-lattice/src/fakeip.rs:558-607 | Allocation keeps names and addresses distinct and in range, and gives an address in the range |
| FakeIp.AllocateOrder | crates/dns-lattice/src/fakeip.rs:580-607 | A name without a live mapping gets the first free address in circular order from its candidate, at the back of the live mappings in their order, less the front one in a full range |
| FakeIp.AllocateReuses | crates/dns-lattice/src/fakeip.rs:558-579 | A name with a live mapping gets it again, moved to the back with address and expiry unchanged |
| FakeIp.LookupHit | crates/dns-lattice/src/fakeip.rs:609-625 | A lookup of a live mapping's address gives its name and remaining lifetime and moves it to the back, everything else in its order |
| FakeIp.LookupMiss | crates/dns-lattice/src/fakeip.rs:609-617 | A lookup of any other address gives nothing and only drops what has expired |
| FakeIp.LookedUpIsKept | crates/dns-lattice/src/fakeip.rs:609-709 | A mapping that was just looked up survives the next allocation if another mapping is live |
| FakeIpRecency.LruOverRuns | crates/dns-lattice/src/fakeip.rs:558-709 | After any run from an empty pool, an allocation drops a live mapping only from a full range, and every other live mapping has been given out or looked up since the dropped one was |
| FakeIpRecency.RunByUse | crates/dns-lattice/src/fakeip.rs:558-709 | After any run the mappings are in the order of their last use |
| FakeIp.DropsOnlyLru | crates/dns-lattice/src/fakeip.rs:579-584 | A live mapping is dropped only when the range is full of live mappings, and then it is the least recently used |
| FakeIp.LoopsIff | crates/dns-lattice/src/fakeip.rs:579-592 | Allocation fails to end if and only if the range is the whole address space, full of live mappings of other names |
| FakeIp.CrowdedLoops | crates/dns-lattice/src/fakeip.rs:507-509 | On the whole IPv4 space with every address mapped, allocating one more name does not end |
| FakeIp.ProbeFindsFirstFree | crates/dns-lattice/src/fakeip.rs:585-592 | Probing ends within the size of the range on the first free address in circular order whenever there is one |
| FakeIp.CandidateInRange | crates/dns-lattice/src/fakeip.rs:506-541 | For both families the candidate is the start plus the hash modulo the range size, without overflow |
| FakeIp.FullIff | crates/dns-lattice/src/fakeip.rs:517-519 | No address is free if and only if there are as many mappings as addresses; there are never more |
| FakeIp.AllocateThenLookup | crates/dns-lattice/src/fakeip.rs:558-625 | An allocated address looks up to its name and remaining lifetime until it expires, and to nothing from then on |
| FakeIp.LookupInv | crates/dns-lattice/src/fakeip.rs:609-625 | A lookup keeps names and addresses distinct and in range |
| FakeIpPool.RestoreSnapshot | crates/dns-lattice/src/fakeip.rs:167-267 | Restoring a snapshot at any later instant succeeds and gives the pool less what has expired: same addresses, spellings, expiry instants and order |
| FakeIpPool.RestoredIsIndistinguishable | crates/dns-lattice/src/fakeip.rs:199-267 | After any run, snapshot and restore, every later sequence of operations gets the same addresses, names and lifetimes from both pools; the restored one is the original purged at that instant |
| FakeIpPool.SameRepliesIff | crates/dns-lattice/src/fakeip.rs:167-267 | The restored pool gives the same replies with the numbers purged as well if and only if no mapping expired between snapshot and restoration |
| FakeIpPool.RunInv | crates/dns-lattice/src/fakeip.rs:273-404 | Every run with a monotone clock keeps both families sound and no mapping outlives its lifetime |
| FakeIpSnapshots.SnapshotRestoresIff | crates/dns-lattice/src/fakeip.rs:211-267 | A snapshot is restored if and only if it is not from the future, its settings are valid and its mappings fit them and do not clash; what comes back is what remains, in order |
| FakeIpSnapshots.RestoresIff | crates/dns-lattice/src/fakeip.rs:225-262 | Saved mappings are accepted if and only if each is within the lifetime, the clock and a range, and no two that remain share a name or an address |
| FakeIpSnapshots.SnapshotHolds | crates/dns-lattice/src/fakeip.rs:166-190 | A snapshot holds the instant, the ranges, the lifetime and every live mapping, IPv4 before IPv6, each least recently used first, with its remaining lifetime |
| FakeIpPool.RestoreAllInv | crates/dns-lattice/src/fakeip.rs:211-267 | Whatever snapshot is accepted gives a sound pool |
| FakeIpPool.BuildInv | crates/dns-lattice/src/fakeip.rs:452-466 | Which configurations are refused and why; a built pool is sound and has the ranges and lifetime asked for |
| FakeIpFamily.FindLeast | crates/dns-lattice/src/fakeip.rs:694-700 | Finds the mapping of least recency, then of least allocation number |
| FakeIpFamily.FamilyState.constructor | crates/dns-lattice/src/fakeip.rs:544-556 | A family over a valid range starts empty |
| FakeIpFamily.FamilyState.PurgeExpired | crates/dns-lattice/src/fakeip.rs:635-647 | Removes exactly what has expired from both maps and counts it |
| FakeIpFamily.FamilyState.EvictLru | crates/dns-lattice/src/fakeip.rs:694-703 | Removes the front of the list of mappings from both maps |
| FakeIpFamily.FamilyState.AllocateWithTtl | crates/dns-lattice/src/fakeip.rs:558-607 | On maps and counters computes the specified allocation; requires that the probing loop ends |
| FakeIpFamily.FamilyState.FindFree | crates/dns-lattice/src/fakeip.rs:585-592 | The probing loop terminates on the specified address |
| FakeIpFamily.FamilyState.LookupWithTtl | crates/dns-lattice/src/fakeip.rs:609-625 | On maps and counters computes the specified lookup |
| FakeIpFamily.FamilyState.Save | crates/dns-lattice/src/fakeip.rs:649-668 | Sorting by recency gives the mappings in order of use, with their remaining lifetimes |
| FakeIpFamily.FamilyState.Restore | crates/dns-lattice/src/fakeip.rs:670-688 | Puts a mapping back at the end of the list; refuses a known name or address |
| FakeIpFamily.RestoreMapping | crates/dns-lattice/src/fakeip.rs:235-258 | One saved mapping into the family it belongs to, or an invalid snapshot |
| FakeIpFamily.RestorePool | crates/dns-lattice/src/fakeip.rs:211-267 | The restoring loop computes the specified pool or reports an invalid snapshot |
| Matcher.ResolvedIsHead | crates/dns-lattice-model/src/matcher.rs:126-152 | Resolving gives the head of the stable descending sort of all matching rules, and nothing when no rule matches |
| Matcher.ReorderingKeepsResult | crates/dns-lattice-model/src/matcher.rs:124-139 | Reordering rules without swapping equally specific matching ones never changes the result |
| Matcher.ReorderingKeepsOrder | crates/dns-lattice-model/src/matcher.rs:143-152 | Nor does it change the order of all matching rules |
| Matcher.StableSortUnique | crates/dns-lattice-model/src/matcher.rs:150 | A descending order that keeps equals in order is unique |
| Matcher.DomainMatcher.Insert | crates/dns-lattice-model/src/matcher.rs:120-122 | Appends a rule |
| Matcher.DomainMatcher.Resolve | crates/dns-lattice-model/src/matcher.rs:126-139 | Gives the value of the first matching exact rule; failing that, of the first matching suffix rule of most labels; failing that, of the first matching wildcard rule of most labels; and nothing if and only if no rule matches |
| Matcher.DomainMatcher.ResolveAll | crates/dns-lattice-model/src/matcher.rs:143-152 | Gives exactly the matching rules: exact ones, then suffixes, then wildcards, within a kind by falling label count, and those of one kind and count in insertion order |
| Matcher.WildcardNeverItself | crates/dns-lattice-model/src/matcher.rs:78-86 | A wildcard matches exactly what a suffix of the same name matches, except that name itself |
| Names.SameNameIff | crates/dns-lattice-model/src/message.rs:73-103 | Names are equal if and only if they agree label by label but for the case of ASCII letters |
| WireLayout.HeaderBytes | crates/dns-lattice-model/src/message.rs:427-474 | What each of the twelve header bytes says: id, flags by bit, and the four section counts, high byte first |
| WireLayout.AssignedNumbers | crates/dns-lattice-model/src/record.rs:20-99 | The numbers of the record types, classes, operation codes and response codes |
| WireLayout.QuestionBytes | crates/dns-lattice-model/src/message.rs:476-492 | A question is its name, two bytes of type and two of class |
| WireLayout.FixedBytes | crates/dns-lattice-model/src/message.rs:494-542 | The ten bytes between a record's name and its data: type, class, TTL and length, high byte first |
| WireLayout.SoaBytes | crates/dns-lattice-model/src/message.rs:494-542 | An SOA's data ends in serial, refresh, retry, expire and minimum, in that order |
| WireLayout.OptBytes | crates/dns-lattice-model/src/edns.rs:175-205 | An OPT record on the wire: root name, type 41, payload size, extended code, version, DO bit, options |
| WireLayout.OptionLayout | crates/dns-lattice-model/src/edns.rs:174-181 | An option on the wire: code, length and data |
| WireLayout.EncodeParts | crates/dns-lattice-model/src/message.rs:317-350 | A message is its header, questions, answers, authorities and additionals in that order, or an error above 65535 bytes |
| WireLayout.ExampleQueryBytes | crates/dns-lattice-model/src/message.rs:427-542 | One whole query, for every id, byte by byte |
| WireLayout.CompressedName | crates/dns-lattice-model/src/message.rs:547-612 | A compressed name decodes to its own labels followed by the name at the pointer's target, or to an error if that is too long, and reading goes on after the pointer |

## Left out

- WireNames.ReadName: requires input on which the source's loop ends; on the other inputs the source never returns.
- MessageCodec.ReadMessage: likewise requires that every name the decoder comes to has an end; `MessageNames.DecodeEndsIff` says that this is exact.
- MessageCodec.Reader.Name: likewise.
- FakeIpFamily.FamilyState.AllocateWithTtl: likewise requires that the probing loop ends; `FakeIp.LoopsIff` says when it does.
- Backoff.BackoffOfStreak: is about the history of one key, one query at a time; `BackoffRuns.RunBackoff` is about runs of the resolution protocol.
- Backoff.NoCallInsideWindow: is about registered leaders and what is in the store now; `BackoffRuns.NoCallLookedInside` is about every caller and what it saw.
- CacheKey.SubtreeIsEndsWith: requires non-empty labels in the name, which parsing and decoding both guarantee.
- CacheKey.PurgeSubtreeExact: likewise.
- FakeIpPool.RestoredIsIndistinguishable: leaves out the numbers purged, which `FakeIpPool.SameRepliesIff` covers exactly; and assumes a monotone clock.
- Error payloads (offsets, lengths, texts): errors are told apart by kind, and no control flow in the source depends on more.
- Wrap-around of 64-bit counters (ghost sequence, cache epoch, recency, allocation number): they are unbounded here, so the results hold for runs of fewer than 2^64 steps.
- Overflow of instants: modelled only for Fake IP lifetimes, where the source checks it and returns an error.
- Lifetime counters, statistics and observability events: they are written and never read back, so no result above can depend on them.
- The estimate of an entry's heap size: an answer carries an arbitrary weight, so the store's results hold for any estimate.
- Prefetch, which leads a flight without the second lookup: the results on upstream calls are about resolution with prefetch off.
- The rewriting of a stale reply (its fixed TTL and Extended DNS Error) and answers synthesised for Fake IP names: both are made from a stored entry or a mapping after the decisions proved here.
- Memory orderings weaker than sequential consistency, and poisoned locks: a lock or an atomic access is one step here.
- The asynchronous runtime: a timeout, a cancelled future and a dropped task are steps that may happen at any time.
- Upstream transports, hooks and the split-DNS policy wrapper: an upstream call returns anything, and the policy only picks the group that is part of the cache key.
- Presentation-form parsing of names and patterns: names enter the model as label lists, and the label limits it enforces are the ones `WireNames` states.
- Iteration order of the source's hash maps and its sorting algorithms: any order, and any stable sort, give the results proved here.
