# ddup in Dafny

A model of the parts of ddup, a Redis-compatible server in C, whose correctness is not visible from any one
function, with proofs of what they promise. `dafny verify dfyconfig.toml` checks everything.

| files | part of the server |
|---|---|
| `RobinHood*.dfy` | the hash table with incremental rehash |
| `LuaHeap` `LuaMark` `LuaGcState` `LuaPropagate` `LuaSweep` `LuaPrecise` `LuaCycle` `LuaLink` `LuaMutator` `LuaAlloc` `LuaCollector` | the incremental collector of the embedded Lua |
| `LuaNodes` `LuaInsert` `LuaSizes` `LuaEntries` `LuaCount` `LuaTable` | the tables of the embedded Lua |
| `Basics` `Bytes` `SlotBitmap` `ClusterNode` `ClusterClaims` `ClusterOrder` `ClusterReports` `ClusterVerdict` `ClusterSignature` `ClusterDb` | the cluster configuration of one member |
| `RedbusCodec` `Redbus` `RedbusFrames` `RedbusRoundTrip` | the cluster bus: frames and their handling |
| `Election` `ElectionSteps` `ElectionRounds` | elections over all members |
| `SlotText` `SlotRender` | slot ranges as text |
| `GlobLanguage` `AclMatch` `GlobMatch` | the two pattern matchers |
| `Migrate` `Reshard` | moving keys and slots between servers |
| `Sha1Spec` `Sha1` | streaming SHA-1 against FIPS 180-4 |

Code that updates state is a class or a method with loops, proved against functions and predicates on values; the
laws are lemmas about these. A clause that holds of the old state before a call and of the new one after it is an
invariant of every run of such calls.

## Where the code does not do what is expected of it

Each is stated with its exact condition, and with a witness where one is named.

- While a rehash is in flight, a stored key can be invisible to lookup, and a store on it then adds a second copy.
  This happens exactly for the keys of old-array buckets past the window whose home bucket lies below it or whose
  probe path wraps (`RobinHoodWindow.LostIffHidden`, `RobinHoodWindow.LoseAKey`). Removing such a key after storing
  it again uncovers the first copy (`RobinHoodWindow.RemovedKeyReturns`). A key overwritten in the old array is lost
  to the very next lookup exactly if the batch of that lookup hides its bucket (`RobinHoodWindow.StoreThenLookup`).
- The slot text parser does not reset the right-hand number of a range before reading it, so `5-7` is read as 5 to 57.
  Text round trips hold exactly for bitmaps in which every run of two slots or more starts at 0 or ends at 16383
  (`SlotRender.TextRoundTrip`, `SlotRender.FiveToSeven`). The header comment says that the text is parsed
  back into the bitmap; the model follows the code.
- The access-rule matcher tries a literal match before a star, so a star byte in a key can hide a match. It is
  complete for every pattern exactly when the key has no star byte (`AclMatch.ExactlyWithoutStars`, `AclMatch.Missed`).
- The batch loop of a slot move repeats for ever on a key that cannot be dumped and does not expire
  (`Reshard.NeverEmpties`). With healthy exchanges it ends exactly when every key of the slot can be dumped, within
  as many rounds as there are keys and one more (`Reshard.MoveKeys`).
- A replica counts acks against the masters that serve when the election closes, but keeps acks of masters that have
  stopped serving since, so it can be promoted without a majority (`ElectionRounds.StaleWin`). There is a majority
  exactly when the acks of masters that still serve are more than half by themselves, so the test is right whenever
  no ack is stale (`ElectionSteps.CountedMajority`, `ElectionSteps.CloseElection`).
- A winner is promoted with the epoch after its current one and not with that of its election. It is safe from sharing
  its config epoch with a winner promoted in time, in every run, exactly when its current epoch still is that of its
  election; for every later current epoch there is a run in which the two collide (`Election.ConfigsDistinct`,
  `Election.ConfigsCollide`).
- CLUSTER FORGET moves the nodes behind the forgotten one up, but not the acks of an election, which are kept by
  position. They keep standing for the same masters exactly when none is of the node or of one behind it
  (`ElectionSteps.ForgetNode`).
- A negated character class at the end of the string steps past it, so that `[^a]*` matches the empty string and a
  pattern that goes on with a literal looks at what is behind. The matcher is right exactly when the string matches or
  no way through the pattern leads there with a rest that does not fail (`GlobMatch.Glob`, `GlobMatch.EmptyMatches`).
- A promoted replica's epoch is above all others only if the 64-bit epoch counter does not wrap
  (`ClusterDb.Db.FailoverPromote`).
- A taken frame is rejected after the fact when its answer cannot be built: a PING, a MEET, or a request that a vote
  is due to. The first two have then changed the table, the last has raised the current epoch exactly if its own is
  higher; every other rejected frame leaves no trace (`RedbusFrames.HandleFrame`, `RedbusRoundTrip.Greet`).

## What stands for the outside world

Hash functions, main positions of table keys and the slot of a key are arbitrary functions. Clocks, the growth of
reply buffers, the keys that have expired or cannot be dumped, and what a connection delivers are parameters, so every
statement holds for all of them. Reply lines are non-empty and truthful: a positive one means the command took effect.

## Model

| member | source | states |
|---|---|---|
| `RobinHoodProbe.InsertEntry` | src/core/rhtable.c:142-163 | Insertion with swaps adds exactly the new record to the multiset of records, keeps psl equal to the cyclic distance from home and the next psl at most one larger, and ends because a non-full array has an empty bucket ahead |
| `RobinHoodProbe.FindIn` | src/core/rhtable.c:166-182 | For any emptied prefix w, lookup finds a matching entry if and only if one has a cyclic probe path, home bucket to slot, that meets no bucket below w: the early stop loses nothing else. Of several matches it finds the least displaced |
| `RobinHoodProbe.DeleteAt` | src/core/rhtable.c:185-201 | Backward shift removes exactly the record at i, keeps all others, and keeps placement and grading (also for an array with an emptied prefix) |
| `RobinHoodSlots.HomeIsMod` | src/core/rhtable.c:145-149 | The home bucket used by the model is the hash modulo the capacity |
| `RobinHoodSlots.CleanIff` | src/core/rhtable.c:170-180 | A probe path is clear of the emptied buckets if and only if the home bucket is not below the window and the path does not wrap |
| `RobinHoodSlots.PathFull` | src/core/rhtable.c:142-163 | In a fully graded array no empty bucket lies between the home of an entry and its slot, for any hash |
| `RobinHoodTable.GrowthLimitIs85Percent` | src/core/rhtable.c:66-70 | The overflow-free split arithmetic is floor(85 % of the capacity), below the capacity, and doubling the capacity at least doubles it |
| `RobinHoodTable.RhTable.constructor` | src/core/rhtable.c:100-112 | An empty table of sixteen buckets with no migration |
| `RobinHoodTable.RhTable.MigrateSomeSlow` | src/core/rhtable.c:204-225 | One batch keeps the multiset of all records, size and limit, finishes exactly when at most sixteen entries were left, moves exactly the records of the buckets up to the new window, and leaves findable exactly the keys that were visible before it; the defensive break cannot be taken |
| `RobinHoodTable.RhTable.Locate` | src/core/rhtable.c:336-353 | After the batch a key is located if and only if it was visible; of several copies the least displaced one of the new array comes first, and the old array only when the new one has none |
| `RobinHoodTable.RhTable.MaybeGrow` | src/core/rhtable.c:236-255 | Growth starts exactly when the table is full and idle, keeps all records, and leaves room so that a migration ends before the next growth is due |
| `RobinHoodTable.RhTable.Get` | src/core/rhtable.c:336-359 | Lookup agrees with the finite map exactly on the keys that are not lost in the migration window; of a key stored twice it returns a copy of the new array when there is one |
| `RobinHoodTable.RhTable.Set` | src/core/rhtable.c:387-436 | Result codes, sizes and records for every key; an overwrite replaces the copy that lookup reaches, an inserted key is found by the next lookup; the table stays free of duplicates, and is then map update, if and only if the key is not lost before the call |
| `RobinHoodTable.RhTable.SetEx2` | src/core/rhtable.c:438-507 | As Set for two joined value parts with metadata, with the replaced value handed back |
| `RobinHoodTable.RhTable.Del` | src/core/rhtable.c:595-618 | Removal is map removal if and only if the key is not lost; it removes one copy, that which lookup reaches, and disturbs no other record |
| `RobinHoodTable.RhTable.SeesIdle` | src/core/rhtable.c:336-359 | With no migration in flight a key is found if and only if it is stored: plain map refinement |
| `RobinHoodWindow.LostIffHidden` | src/core/rhtable.c:204-225 | The lost keys are exactly those of old-array buckets past the next window position whose home is below it or whose path wraps |
| `RobinHoodWindow.NothingLostAtTheEnd` | src/core/rhtable.c:204-225 | Once the next batch finishes the migration every stored key is found again |
| `RobinHoodWindow.StoreThenLookup` | src/core/rhtable.c:336-436 | A store and the lookup after it: an inserted key is found with its value; an overwritten one is lost at once if and only if its copy lies in a bucket of the old array that the batch of the lookup hides |
| `RobinHoodWindow.BatchCount` | src/core/rhtable.c:207-217 | A batch of k moves k entries unless the old array ends first |
| `RobinHoodWindow.LoseAKey` | src/core/rhtable.c:166-182 | Witness, for any hash and any twenty-eight distinct keys whose hashes are multiples of 64: inserting them leaves a stored key that lookup does not find |
| `RobinHoodWindow.RemovedKeyReturns` | src/core/rhtable.c:595-618 | For the same keys: storing the lost key again and removing it leaves the first copy, and the removed key is found |
| `LuaCollector.Collector.constructor` | deps/lua/lgc.c:556-560 | A state with the main thread alone satisfies the collector invariant |
| `LuaCollector.Collector.ReallyMarkObject` | deps/lua/lgc.c:69-112 | Marking an object colours it and all it must, completely or queued, disturbs no marked object, stays inside any set closed under references, and ends for cyclic graphs |
| `LuaCollector.Collector.MarkValues` | deps/lua/lgc.c:158-270 | Every listed value ends marked, by marking alone |
| `LuaCollector.Collector.PropagateMark` | deps/lua/lgc.c:277-320 | Traversing one gray object keeps the tri-colour invariant and makes progress; threads go to the second gray list |
| `LuaCollector.Collector.PropagateAll` | deps/lua/lgc.c:323-327 | The gray list is emptied, terminating, with the invariant kept |
| `LuaCollector.Collector.RemarkUpvals` | deps/lua/lgc.c:515-522 | After it every marked open upvalue has a marked value, even in a dead thread |
| `LuaCollector.Collector.MarkRoot` | deps/lua/lgc.c:501-512 | A cycle starts with the roots marked and nothing marked that is not reachable |
| `LuaCollector.Collector.AtomicMark` | deps/lua/lgc.c:525-546 | After the atomic marking everything marked has marked children and every root is marked |
| `LuaCollector.Collector.Atomic` | deps/lua/lgc.c:525-553 | The flip of white establishes the sweep invariant; if only reachable objects were marked, only reachable objects will be spared |
| `LuaCollector.Collector.SweepBucket` | deps/lua/lgc.c:572-582 | Sweeping a string bucket changes nothing about which objects are alive and what they refer to |
| `LuaCollector.Collector.SweepOpen` | deps/lua/lgc.c:407-428 | The open upvalues of a thread are freed if dead and whitened if not |
| `LuaCollector.Collector.SweepObject` | deps/lua/lgc.c:407-428 | One object, after its upvalues if it is a thread: alive objects stay with their references, nothing else comes alive |
| `LuaCollector.Collector.SweepSome` | deps/lua/lgc.c:584-594 | Up to forty objects; at the end of the list every object is current white |
| `LuaCollector.Collector.SingleStep` | deps/lua/lgc.c:556-607 | From any phase: no object reachable before the step is freed or changed in what it refers to; sweeps keep exactly the alive objects; a cycle in which only reachable objects were marked stays so; and outside the pause the step lowers a measure, so that a cycle ends |
| `LuaCollector.Collector.FullCollectionReset` | deps/lua/lgc.c:635-645 | Abandoning a mark phase to sweep everything back to white frees no reachable object |
| `LuaCollector.Collector.FullGc` | deps/lua/lgc.c:635-658 | From any phase both loops end, and afterwards an object is in the heap if and only if it was reachable at the start, with the same references |
| `LuaCollector.Collector.FinishSweep` | deps/lua/lgc.c:648-652 | A sweep under way ends, and frees no reachable object |
| `LuaCollector.Collector.FinishCycle` | deps/lua/lgc.c:654-656 | A cycle in which only reachable objects were marked ends with a heap of exactly the reachable objects |
| `LuaCycle.KeptReach` | deps/lua/lgc.c:556-607 | Steps that keep the reachable objects and their references change nothing about what is reachable |
| `LuaCycle.KeptTrans` | deps/lua/lgc.c:556-607 | What every step keeps, any number of steps keeps |
| `LuaCollector.Collector.WriteStack` | deps/lua/lgc.c:256-270 | Stack and global writes of reachable values need no barrier |
| `LuaCollector.Collector.Store` | deps/lua/lgc.c:661-682 | A store into a table, closure, prototype, userdata or closed upvalue with the forward or back barrier keeps the invariant in every phase |
| `LuaCollector.Collector.NewObject` | deps/lua/lgc.c:685-691 | A new object may be linked in any phase and is reachable afterwards; no other object changes but the running thread, which has it pushed |
| `LuaCollector.Collector.NewString` | deps/lua/lstring.c:50-72 | A new string may be interned in any phase, also into a swept bucket; no other object changes but the running thread, which has it pushed |
| `LuaCollector.Collector.FindString` | deps/lua/lstring.c:75-93 | A string found dead and not yet swept is made alive again before it is returned; no other object changes but the running thread, which has it pushed |
| `LuaCollector.Collector.SetRegistry` | deps/lua/lstate.c:75-75 | Installing the registry outside the propagation phase keeps the invariant |
| `LuaCollector.Collector.SetMetatable` | deps/lua/lapi.c:724-724 | A basic metatable may be set in any phase without a barrier, because the atomic step marks it again |
| `LuaCollector.Collector.FixString` | deps/lua/lstring.h:24-24 | A string may be fixed in any phase, and is a root from then on |
| `LuaCollector.Collector.SetRunning` | deps/lua/lgc.c:525-546 | Any reachable thread may become the running one in any phase, because the atomic step marks it |
| `LuaCollector.Collector.FindUpval` | deps/lua/lfunc.c:53-79 | The open upvalue of a stack slot is found, revived if dead, or created in list order; nothing alive dies |
| `LuaCollector.Collector.CaptureUpval` | deps/lua/lfunc.c:53-79 | A new closure captures an open upvalue without a barrier and the invariant holds; no other object changes but the running thread's list of open upvalues |
| `LuaCollector.Collector.SetUpval` | deps/lua/lgc.c:661-671 | Assignment through an open upvalue writes the one stack slot of a possibly dead thread, through a closed one the upvalue, with the barrier, and nothing else |
| `LuaCollector.Collector.CloseUpvals` | deps/lua/lfunc.c:96-112 | Closing moves the values out of the stack and links the upvalues; no open upvalue at or above the level is left |
| `LuaCollector.Collector.CloseLive` | deps/lua/lgc.c:694-709 | Linking a closed upvalue gives it the colour that keeps the invariant in each phase |
| `LuaGcState.ReachableAlive` | deps/lua/lgc.c:407-428 | Every object reachable from the roots is in the heap and is not awaiting the sweep |
| `LuaPropagate.PopKeepsTri` | deps/lua/lgc.c:277-320 | Blackening one gray object and marking its references keeps the tri-colour invariant |
| `LuaPropagate.FlipInv` | deps/lua/lgc.c:525-553 | When all marked objects have marked children, what is left white is unreachable, so the flip of white is safe |
| `LuaSweep.SweepIsExact` | deps/lua/lgc.c:584-594 | When a sweep is over the heap holds exactly the objects that were alive when it began: all garbage of that sweep is freed |
| `LuaPrecise.CycleIsExact` | deps/lua/lgc.c:556-607 | At the end of a cycle that the program does not interrupt, an object is in the heap if and only if it is reachable |
| `LuaMutator.StoreInv` | deps/lua/lgc.c:661-682 | A store whose barrier was applied keeps the collector invariant, whatever the phase and colours |
| `LuaAlloc.AddInv` | deps/lua/lgc.c:685-691 | A white object at the head of the object list keeps the invariant in every phase |
| `LuaAlloc.ResurrectInv` | deps/lua/lstring.c:75-93 | Turning a dead string back to current white keeps the invariant |
| `LuaLink.CloseInv` | deps/lua/lgc.c:694-709 | Turning an open upvalue into a linked closed one keeps the invariant |
| `LuaSizes.ComputeSizes` | deps/lua/ltable.c:189-208 | The chosen size is the largest power of two of which more than half the slots would be in use, with the exact number of keys that go there |
| `LuaSizes.CeilLog2Least` | deps/lua/ltable.c:211-219 | The logarithm used for counting is the least exponent whose power reaches the key |
| `LuaCount.CountInt` | deps/lua/ltable.c:211-219 | Counts a key in its slice exactly when it could index an array part |
| `LuaCount.NumUseArray` | deps/lua/ltable.c:222-244 | The counts of all slices and their sum are those of the slots in use |
| `LuaCount.NumUseHash` | deps/lua/ltable.c:247-260 | Adds the nodes in use to the counts, and counts them all |
| `LuaCount.RestSize` | deps/lua/ltable.c:333-349 | The keys left for the hash part are all keys minus those of the array part |
| `LuaInsert.PlaceOk` | deps/lua/ltable.c:399-429 | Putting a key into its main position keeps chains, free nodes, unique keys and reachability from main positions |
| `LuaInsert.BehindOk` | deps/lua/ltable.c:418-423 | Chaining a new key behind a node in its main position keeps the same |
| `LuaInsert.MovedOk` | deps/lua/ltable.c:409-417 | Moving a colliding node to a free one and taking its place keeps the same |
| `LuaTable.Table.constructor` | deps/lua/ltable.c:358-371 | A new table is well formed and has no values |
| `LuaTable.Table.SetNodeVector` | deps/lua/ltable.c:272-294 | A new hash part has room for the given number of keys and none in it |
| `LuaTable.Table.FindNode` | deps/lua/ltable.c:469-491 | The walk from the main position finds a key if and only if some node has it, and ends |
| `LuaTable.Table.Locate` | deps/lua/ltable.c:435-491 | A key is found in the array part, in its node, or nowhere |
| `LuaTable.Table.Get` | deps/lua/ltable.c:469-491 | Lookup returns the value of the key, nil for nil and missing keys |
| `LuaTable.Table.FreePos` | deps/lua/ltable.c:382-388 | A free node is returned unless there is none; none above lastfree is ever skipped |
| `LuaTable.Table.FindPrev` | deps/lua/ltable.c:412-412 | The node before a colliding one is found in the chain of the latter's main position |
| `LuaTable.Table.NewKey` | deps/lua/ltable.c:399-429 | A new key gets a place and no value changes; a rehash happens only when no node is free, so never inside a resize |
| `LuaTable.Table.Set` | deps/lua/ltable.c:494-505 | The place of any key but nil, entered if needed, all values unchanged |
| `LuaTable.Table.Resize` | deps/lua/ltable.c:297-324 | Whatever the new sizes, as long as the hash part has room for the keys that do not fit the array part, every key keeps its value, and re-insertion never needs another rehash |
| `LuaTable.Table.ResizeArray` | deps/lua/ltable.c:327-330 | Growing the array part keeps every value |
| `LuaTable.Table.Rehash` | deps/lua/ltable.c:333-349 | Keeps every value and leaves room for the extra key, so set, newkey and rehash recur at most once |
| `LuaTable.Table.Put` | deps/lua/ltable.c:494-505 | A store changes the value of its key and of no other; nil as a key is an error that changes nothing |
| `LuaTable.Table.UnboundSearch` | deps/lua/ltable.c:532-553 | Finds a border beyond the array part, also through the linear search |
| `LuaTable.Table.GetN` | deps/lua/ltable.c:560-576 | The length is a border: present (or zero) with its successor absent |
| `SlotBitmap.HasWith` | src/core/cluster.c:294-309 | Setting a slot changes that slot and no other, for all slots in and out of range |
| `SlotBitmap.Extensional` | src/core/cluster.c:294-309 | Bitmaps with the same slots are equal byte for byte |
| `ClusterNode.BeatsTotal` | src/core/cluster.c:513-515 | Of two nodes with distinct ids exactly one beats the other |
| `ClusterNode.BeatsTrans` | src/core/cluster.c:513-515 | The contest rule is transitive |
| `ClusterDb.Db.NodeFind` | src/core/cluster.c:145-155 | Finds the node of a valid id if and only if there is one |
| `ClusterDb.Db.NodeAdd` | src/core/cluster.c:157-178 | Returns the known node or appends one without slots, unless the id is invalid or the table full; all invariants kept |
| `ClusterDb.Db.FindMyself` | src/core/cluster.c:1188-1197 | The first node flagged as myself, if any |
| `ClusterDb.Db.MergeSlot` | src/core/cluster.c:500-527 | One claimed or dropped slot against all holders |
| `ClusterDb.Db.MergeClaims` | src/core/cluster.c:482-531 | The claimant holds exactly the claimed slots it wins, others keep what they do not yield; at most one holder per slot, epochs bounded and the cached verdict sound afterwards |
| `ClusterDb.Db.AdoptClaims` | src/core/cluster.c:427-449 | The claimant holds the claimed slots and nobody else does; invariants kept |
| `ClusterDb.Db.NextEpoch` | src/core/cluster.c:420-425 | Strictly above the old current epoch unless the 64-bit counter wraps |
| `ClusterDb.Db.FailoverPromote` | src/core/cluster.c:451-480 | Happens exactly for a replica; it takes all slots of its master; its epoch is strictly above all others if and (with other nodes) only if the epoch counter does not wrap |
| `ClusterClaims.MergeExclusive` | src/core/cluster.c:482-531 | Merging keeps at most one holder per slot |
| `ClusterClaims.AdoptExclusive` | src/core/cluster.c:427-449 | Adopting keeps at most one holder per slot |
| `ClusterClaims.TakeOverExclusive` | src/core/cluster.c:468-476 | Promotion keeps at most one holder per slot |
| `ClusterClaims.MergeKeeps` | src/core/cluster.c:482-531 | A claim below a dominating node's epoch takes no slot from it |
| `ClusterClaims.DominantKeeps` | src/core/cluster.c:482-531 | Through any run of lower claims of other nodes a promoted node keeps exactly its slots |
| `ClusterOrder.RunSettles` | src/core/cluster.c:482-531 | After any number of merges of distinct senders each slot is held by the best of its claimants so far and its first holder |
| `ClusterOrder.BestHolds` | src/core/cluster.c:482-531 | A node holds a slot at the end if and only if it is the largest (epoch, id) among claimants and first holder |
| `ClusterOrder.OrderIndependent` | src/core/cluster.c:482-531 | The same claims in two orders lead to the same table, byte for byte |
| `ClusterReports.AddReport` | src/core/cluster.c:180-199 | One entry per reporter, refreshed or added; with an invalid id, or a full list without an entry of the reporter, nothing changes |
| `ClusterReports.RemoveReport` | src/core/cluster.c:201-215 | Exactly the reporter's entry goes |
| `ClusterReports.DropExpired` | src/core/cluster.c:217-239 | Exactly the entries within the window stay, through swap removal in place |
| `ClusterDb.Db.ReportFailure` | src/core/cluster.c:180-199 | Records the report, when the reporter is valid and there is room, and touches nothing else |
| `ClusterDb.Db.ReportHeal` | src/core/cluster.c:201-215 | Takes the report back and touches nothing else |
| `ClusterDb.Db.ReportCount` | src/core/cluster.c:217-239 | Counts the reporters that still stand by their report |
| `ClusterDb.Db.MarkFail` | src/core/cluster.c:241-251 | FAIL replaces suspicion once, never for myself, with a change counted exactly then |
| `ClusterDb.Db.CountMasters` | src/core/cluster.c:268-281 | The number of masters that serve a slot |
| `ClusterDb.Db.MarkFailIfQuorum` | src/core/cluster.c:253-292 | A suspected node loses its expired reports and no others, and fails if and only if the standing ones and the own vote exceed half of the serving masters; any other node stays as it is |
| `ClusterVerdict.Recompute` | src/core/cluster.c:1234-1254 | The loops compute covered slots, serving masters, reachable ones and failed owners as cardinalities of the sets they mean |
| `ClusterVerdict.SameVerdict` | src/core/cluster.c:1234-1254 | The verdict depends on owners and flags only |
| `ClusterVerdict.AddedVerdict` | src/core/cluster.c:157-178 | A node without slots does not change the verdict |
| `ClusterDb.Db.StateIsOk` | src/core/cluster.c:1216-1266 | The answer, cached or not, is the one a fresh computation gives, after any run of the steps of this class and of bus frames, and after one change of flags that is not counted |
| `ClusterDb.Db.StateIsMinority` | src/core/cluster.c:1268-1279 | The same for the minority verdict |
| `ClusterDb.Db.Suspect` | src/server/server.c:4877-4884 | A silent node is suspected without a change being counted; a verdict cached for the table before is not used for it |
| `ClusterSignature.SignatureSees` | src/core/cluster.c:1199-1214 | A change of the flags of one node always changes the signature |
| `ClusterSignature.MixInjective` | src/core/cluster.c:1206-1209 | The mixing step, exclusive or and multiplication by the prime in 64 bits, is injective in each argument |
| `ClusterSignature.XorBits` | src/core/cluster.c:1206-1209 | The exclusive or of the model is that of every bit |
| `ClusterDb.Db.Forget` | src/core/command.c:23752-23785 | A node is forgotten exactly if it is known, not myself and without slots; the table stays well formed, and the acks of an election stay within it exactly if its last place had none |
| `ClusterDb.Db.Restore` | src/core/cluster.c:1309-1342 | The carried state replaces the whole state or, with counts out of range, nothing; the cached verdict is not trusted afterwards |
| `Bytes.GetPut` | src/core/redbus.c:13-55 | Reading back what was written gives the number modulo the width of the field |
| `Bytes.ReadBE` | src/core/redbus.c:33-55 | The accumulator loop reads a big-endian number |
| `RedbusCodec.FlagsRoundTrip` | src/core/redbus.c:61-98 | Master, slave, handshake, no-address, suspicion and failure survive the wire; myself and link state do not |
| `RedbusCodec.BuildGossipEntry` | src/core/redbus.c:149-160 | Every field of a gossip record at its offset |
| `RedbusCodec.WriteHeader` | src/core/redbus.c:175-198 | Every field of the header at its offset |
| `RedbusCodec.FindSender` | src/core/redbus.c:164-171 | Myself, or the first node if no node is myself |
| `RedbusCodec.BuildGossip` | src/core/redbus.c:222-230 | Records for the first other nodes in table order, all of them or ten |
| `RedbusCodec.BuildFrame` | src/core/redbus.c:200-241 | Header, records and both length fields agree; votes travel without records; fails exactly without nodes or without buffer growth |
| `RedbusRoundTrip.HeaderNumbers` | src/core/redbus.c:200-241 | totlen and count are the bytes and records written, and the header numbers are the sender's |
| `RedbusRoundTrip.Greet` | src/core/redbus.c:467-606 | Any PING, PONG or MEET frame built from a well-formed table is taken by a receiver with room, which then knows the sender's id, ports, address, master, mapped flags and an epoch at least the sender's; so it does when it rejects a PING or MEET because its answer cannot be built |
| `Redbus.ApplyNode` | src/core/redbus.c:325-358 | The node of the id takes over the record; refused, with nothing changed, exactly for bad ids or a full table |
| `Redbus.HandleAuthRequest` | src/core/redbus.c:366-418 | A vote is granted if and only if all the conditions hold and the ack can be built; granted epochs strictly increase and the reply is an ack for that epoch; rejected exactly when the ack of a vote to be granted cannot be built |
| `Redbus.HandleAuthAck` | src/core/redbus.c:420-443 | An ack counts exactly for a known serving master in the election under way, once per master, and the count is the size of the mask |
| `ElectionSteps.BuildAuthRequest` | src/core/redbus.c:445-465 | The request carries the election epoch and the failed master's slots and config epoch |
| `RedbusFrames.HandleGossip` | src/core/redbus.c:608-636 | An unseen node is appended while there is room; about a known one a master's suspicion is put on record and the quorum judges, its all-clear is taken back, and nothing else changes |
| `RedbusFrames.HandleAllGossip` | src/core/redbus.c:606-637 | The records take effect one after the other, each as HandleGossip says; together they change only flags, reports and failure time of nodes they speak of |
| `RedbusFrames.HandleHello` | src/core/redbus.c:574-644 | Taken if and only if all ids are valid and there is room; the sender's record, claims and epochs then are the frame's; otherwise nothing changes |
| `RedbusFrames.HandleUpdate` | src/core/redbus.c:520-545 | Claims of a known node are adopted for myself and merged for others; an invalid id changes nothing |
| `RedbusFrames.HandleFail` | src/core/redbus.c:546-558 | The named node is failed now unless it was or is myself; nothing else changes |
| `RedbusFrames.HandleFrame` | src/core/redbus.c:467-644 | For arbitrary bytes: rejected if and only if malformed, unwelcome, or in need of an answer that cannot be built; in the first two cases nothing changes, and in the third nothing changes exactly for a vote request whose epoch is not above the current one |
| `Election.VotesIncrease` | src/core/redbus.c:366-418 | A voter's granted epochs strictly increase, over all it ever granted |
| `Election.RunKeepsInv` | src/core/redbus.c:366-443 | Along every run of every member, with messages lost, repeated or late, counted votes were cast for that candidate and epoch |
| `Election.OneWinner` | src/core/redbus.c:366-443 | In every run two candidates that win one epoch with majorities of the same masters are the same candidate |
| `Election.PromotedInTime` | src/core/cluster.c:451-480 | Winners promoted in the epoch of their election, with majorities of the same masters, share a config epoch only if they are one |
| `Election.ConfigOrder` | src/core/cluster.c:451-480 | The winner of a later election has the larger config epoch unless the earlier winner had heard of that election before its promotion |
| `Election.ConfigsDistinct` | src/core/cluster.c:420-480 | For any election epoch r and current epoch c at promotion: in no run does a winner of election r, promoted at c, share its config epoch with another winner that was promoted in the epoch of its election, both with majorities of the same masters, if and only if r equals c |
| `Election.ConfigsCollide` | src/core/cluster.c:420-480 | Witness for every r below c: a run with two winners, each with the vote of the only master, elected in r and c and both promoted with config epoch c + 1 |
| `ElectionSteps.CastVote` | src/core/redbus.c:366-418 | The server's handling of a request is a vote step of the protocol |
| `ElectionSteps.TakeAck` | src/core/redbus.c:420-443 | The server's handling of an ack is a counting step of the protocol |
| `ElectionSteps.OtherFrame` | src/core/redbus.c:467-644 | Every frame that is not a vote, taken or rejected, only raises the current epoch as far as elections are concerned |
| `ElectionSteps.CountIsVoters` | src/core/redbus.c:439-442 | failover_ack_count is the number of distinct masters whose acks counted |
| `ElectionSteps.ForgetNode` | src/core/command.c:23778-23782 | Forgetting a node leaves an election as it is if and only if no ack is of the node or of one behind it; the count stays that of distinct masters if and only if the last place had no ack |
| `ElectionSteps.ForgottenVoters` | src/core/command.c:23778-23782 | The acks, kept by position, stand for the same masters if and only if none is at or above the removed position |
| `ElectionSteps.StartElection` | src/server/server.c:4952-4961 | Starting an election is a protocol step in a fresh epoch |
| `ElectionSteps.CloseElection` | src/server/server.c:4962-4987 | Promotion if and only if acks exceed half the number of other masters that serve now; a majority of these is enough, and is what it takes when no ack is of a node that has stopped serving; the promoted node then dominates all epochs |
| `ElectionSteps.FailoverCheck` | src/server/server.c:4935-4997 | The whole timer: not due, dropped unless this is a replica of a failed master, started, lost or promoted, each with its exact condition, its next deadline and the protocol step it is |
| `ElectionSteps.CountedMajority` | src/server/server.c:4964-4978 | The acked masters that still serve are a majority of the serving masters if and only if they are more than half by count; a majority always passes the server's test, and the test means a majority when no ack is stale |
| `ElectionSteps.ServersElectOne` | src/server/server.c:4964-4978 | Two servers that pass the test in one epoch, over the same masters and without stale acks, are one |
| `ElectionRounds.VoteRound` | src/core/redbus.c:366-465 | A request built by a candidate, a voter's answer and its count: the vote is granted by the voter's rule on the candidate's claim and adds the voter to the counted acks |
| `ElectionRounds.StaleWin` | src/server/server.c:4964-4978 | Witness: a master acks, another one takes its slots, and the replica is promoted with no vote of a master that serves |
| `SlotText.ReadDigits` | src/core/cluster.c:375-389 | The digit loop, with its overflow test, computes the digits appended to a start value |
| `SlotText.ReadToken` | src/core/cluster.c:353-411 | The bounds a token is read as, malformed tokens included |
| `SlotText.Parse` | src/core/cluster.c:341-418 | For any text the bitmap has exactly the slots that some token sets |
| `SlotRender.Render` | src/core/cluster.c:311-339 | The text of the maximal runs in order, as many as fit the buffer |
| `SlotRender.AccDec` | src/core/cluster.c:375-389 | Reading a rendered number after a start value appends its digits |
| `SlotRender.BoundsOfToken` | src/core/cluster.c:391-409 | A rendered range a-b is read as a to a*10^d+b, because the right side starts from the left one |
| `SlotRender.RunsAre` | src/core/cluster.c:311-339 | The rendered ranges are exactly the maximal runs of the bitmap |
| `SlotRender.TextRoundTrip` | src/core/cluster.c:311-418 | Parsing the whole text gives the bitmap back if and only if every run of two slots or more starts at 0 or ends at the last slot |
| `SlotRender.NothingOutside` | src/core/cluster.c:311-418 | A text of some runs sets no slot outside the bitmap if and only if each of these runs is read back as it is |
| `SlotRender.RenderAndParse` | src/core/cluster.c:311-418 | Both statements for the program itself, for any buffer size |
| `SlotRender.FiveToSeven` | src/core/cluster.c:391-391 | Witness: the text of slots 5 to 7 is read as 5 to 57 |
| `AclMatch.MatchPattern` | src/core/acl.c:274-287 | The loop terminates; what it reports is a match, and on keys without a star it reports every match |
| `AclMatch.Sound` | src/core/acl.c:274-287 | Every reported match is a match of the pattern language, for every key |
| `AclMatch.Complete` | src/core/acl.c:274-287 | On keys without a star the matcher is exactly the pattern language |
| `AclMatch.NewStar` | src/core/acl.c:281-281 | A new star can do all that the remembered one could, so one remembered star is enough |
| `AclMatch.Missed` | src/core/acl.c:280-281 | Every key with a star has a pattern that matches it and is not found to match |
| `AclMatch.ExactlyWithoutStars` | src/core/acl.c:274-287 | The matcher is right for every pattern if and only if the key has no star |
| `GlobLanguage.WithoutEscapes` | src/ds/glob.c:84-97 | Without backslashes the language with escapes is the plain one |
| `GlobMatch.StarsCollapse` | src/ds/glob.c:9-26 | Several stars mean one: the rest is tried at every suffix, for matches and for runs that step past the end |
| `GlobMatch.Glob` | src/ds/glob.c:4-103 | The recursive matcher, with classes and escapes, terminates and is right if and only if the string matches or no negated class is reached at its end with a rest of the pattern that does not fail there; otherwise its verdict is what that rest gives |
| `GlobMatch.ReadClass` | src/ds/glob.c:34-73 | The class loop finds the closing bracket, what follows it, and whether the character is covered by an item, ranges and escapes included |
| `GlobMatch.FallsLast` | src/ds/glob.c:17-26 | Once an attempt at a suffix may step past the end, no shorter suffix matches unless this one does: the order of attempts hides no match |
| `GlobMatch.FallsBehindNegation` | src/ds/glob.c:74-82 | Without a negated class no run steps past the end |
| `GlobMatch.EmptyMatches` | src/ds/glob.c:74-82 | Witness: [^a]* is found to match the empty string |
| `GlobMatch.BothAgree` | src/core/acl.c:274-287 | On patterns without classes and escapes the iterative match implies the recursive one, and on keys without stars they agree |
| `Migrate.BuildPipe` | src/core/migrate.c:187-211 | One item with the current value for each listed live key that can be dumped; expired keys are removed first |
| `Migrate.Execute` | src/core/migrate.c:225-240 | The target after executing any prefix, with one truthful reply per command: positive exactly when the command took effect |
| `Migrate.ReadReplies` | src/core/migrate.c:226-239 | The confirmed items are exactly the leading pairs of positive lines |
| `Migrate.AfterKeeps` | src/core/migrate.c:225-240 | An item that was stored stays with its value whatever follows in the pipeline |
| `Migrate.MigrateRun` | src/core/migrate.c:165-251 | However the connection is cut, every live key is at the source or at the target with its value; exactly the confirmed prefix is deleted; it succeeds if and only if there is nothing to send or everything is executed with positive answers that all arrive |
| `Migrate.WillingDelivers` | src/core/migrate.c:213-240 | With REPLACE, a link that opens, sends, executes and answers everything delivers the whole pipeline |
| `Reshard.GetKeysInSlot` | tools/reshard_client.c:214-229 | Keys of the slot; none only if there are none |
| `Reshard.MoveKeys` | tools/reshard_client.c:213-273 | Over any number of batches, each cut anywhere, no live key is lost and no key of another slot is touched. With healthy exchanges and more rounds than keys the slot is emptied if and only if each of its keys can be dumped; a key that can be dumped in no round and does not expire keeps it from ever being emptied; the keys counted and the keys left never exceed those there were |
| `Reshard.ReshardSlot` | tools/reshard_client.c:156-294 | Ownership moves only after the source reported the slot empty, first at the source; no key is lost on any path, and once it has moved every key of the slot that has not expired is at the target with its value. With healthy exchanges it succeeds if and only if every key can be dumped, and then reports the number of keys of the slot |
| `Reshard.NeverEmpties` | tools/reshard_client.c:213-273 | Witness: one key that cannot be dumped keeps the loop going for any number of healthy rounds |
| `Reshard.TargetHasKeys` | tools/reshard_client.c:277-284 | An emptied source leaves every key of the slot that has not expired at the target with its value |
| `Sha1Spec.ChAsOr` | src/core/sha1.c:26-28 | The choice function written with or is the one of section 4.1.1 of FIPS 180-4 |
| `Sha1Spec.MajAsOr` | src/core/sha1.c:32-34 | The same for the majority function |
| `Sha1Spec.FoldAppend` | src/core/sha1.c:84-88 | Whole blocks in front may be hashed first |
| `Sha1.Schedule` | src/core/sha1.c:15-19 | The table holds the message schedule of section 6.1.2 |
| `Sha1.CompressBlock` | src/core/sha1.c:11-51 | The in-place rounds compute the block function of section 6.1.2 |
| `Sha1.Context.constructor` | src/core/sha1.c:53-62 | The initial hash value of section 5.3.1 |
| `Sha1.Context.Update` | src/core/sha1.c:64-93 | After any pieces of any lengths the context is the hash of the whole blocks fed and the open rest |
| `Sha1.Context.FinalHex` | src/core/sha1.c:95-137 | The padding loop terminates and the digest is that of the message padded as in section 5.1.1, in hexadecimal |
| `Sha1.ZerosAre` | src/core/sha1.c:103-106 | The loop adds exactly the zero bytes that the padding asks for |
| `Sha1.LengthField` | src/core/sha1.c:98-108 | The length field holds the low 64 bits of the length in bits |
| `Sha1.WriteHex` | src/core/sha1.c:128-135 | Forty digits, byte by byte, high half first |
| `Sha1.DigestChunks` | src/core/sha1.c:64-137 | Every chunking of a message gives the digest of the message |
| `Sha1.HexDigest` | src/core/sha1.c:139-145 | The one-call digest |

## Left out

- GlobMatch.Glob: what a run makes of the memory behind the string is one verdict, Past; so is the count down from the largest length that a star followed by more pattern starts there.
- LuaTable.Table.ResizeArray: only growth is modelled, which is all its callers ask for.
- LuaTable.Table.Resize: a hash part too small for the keys that stay outside the array part is excluded, as by its callers.
- LuaTable.Table.SetNodeVector: the "table overflow" error for more than 2^26 nodes is not modelled.
- LuaTable.Table.constructor: array parts of more than 2^26 slots are excluded.
- LuaTable.Table.UnboundSearch: its positions are mathematical integers, so wrap-around of the linear search past the largest int is not modelled.
- LuaCollector.Collector.SingleStep: weak tables, finalizers, string table resizing and memory accounting are not modelled; the finalizer phase only ends the cycle.
- LuaCollector.Collector.AtomicMark: the separation of userdata with finalizers and the clearing of weak tables, which end the same source function, are not modelled.
- LuaCollector.Collector.Atomic: userdata with finalizers are not marked to be kept for them.
- LuaCollector.Collector.NewString: the string table is not resized when it is crowded.
- LuaCollector.Collector.FullGc: finalizers, weak tables and the new threshold are not modelled.
- LuaCollector.Collector.constructor: the state has no registry until SetRegistry installs one.
- LuaCollector.Collector.SetRegistry: excludes the propagation phase; opening a state, which installs the registry, happens in the pause.
- LuaCollector.Collector.FullCollectionReset: gives up precision for its cycle, as the code does.
- ClusterDb.Db.StateIsOk: cluster_changes is a mathematical integer, so a wrap after 2^64 changes is not modelled.
- ClusterDb.Db.StateIsOk: after two or more changes of flags that are not counted, between two evaluations, only the signature hash tells the tables apart, and that it does is not promised.
- Migrate.BuildPipe: the remaining time to live of a key is not part of its value here, and failure to grow the pipeline buffer, which ends the transfer before anything is sent, is not modelled.
- Lua numbers that are not integers, and NaN: keys are nil, integers or opaque.
- Dead keys left in table nodes by the collector, and table traversal with luaH_next.
- Table flags, metatables and allocation failure in the Lua table.
- rh_scan, rh_random_entry, rh_each, rh_touch and rh_get_touch: readers that add no harder law.
- Allocation failure and capacity overflow in the hash table.
- The ddup-format bus codec in cluster_bus_handle_frame; its merges are those of ClusterDb.Db.MergeClaims.
- cluster_nodes_parse_line and node files: a well-formed starting table is assumed.
- redbus_build_publish and redbus_build_fail: the same header with other payloads.
- Elections assume that only members send acks in their own name, that an ack reaches only the candidate that asked for it (the frame names no addressee; the server sends it on the connection of the request), that no member restores an older state, and that none forgets a node while acks of it or of nodes behind it are counted (`ElectionSteps.ForgetNode`).
- The rest of the server: commands, persistence, listpacks, skip lists, tiers, sockets, TLS and configuration.
