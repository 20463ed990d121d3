# Verified model of the article caches

This project models, in Dafny, the caches of an NNTP proxy that remember which providers
are missing which messages and the articles that were fetched, and proves what they
promise.  `dafny verify dfyconfig.toml` checks all of it.

## What is modelled

**The availability index.**  A message that a provider answered with 430 is recorded in a
ring of *generations*.  A generation is an array of *blocks* with two slots each; a slot
keeps a hash, a tag, the exact message key and a bitmap of provider slots.  The ring
rotates lazily: whatever touches it first performs all missed rotations in one capped
jump.  The index is cut into lock *shards*, and a latch lets lookups skip everything until
the first fact is recorded.

- `Generation`, `FilterState` (`FilterState.dfy`) and `AvailabilityIndex`
  (`AvailabilityIndex.dfy`) are classes that update arrays and fields in place, as the
  proxy does.  Their methods are proved against functions on values: a ring by position
  (`Rings`), a window by age (`Rotation`, `Snapshots`), and the whole index (`Index`,
  `Restoring`).
- `Retention` and `IdlePolling` are about every run of one shard, `Projection` and
  `Polling` lift them to the index, `Sharding` and `Resharding` compare shard counts,
  `Latch` covers every interleaving of insertions and lookups, `Exactness` covers saving
  and loading without expiry, `Loading` and `Resuming` with expiry.  `Placement` says which
  block a hash belongs to, bit by bit.
- `Worlds` puts any number of proxies together that save to and load from files of bytes,
  with any provider tables, geometries and shard counts; `Savable`, `Confusion`, `Counting`,
  `Handover`, `Longest`, `Placement` and `Resuming` prove what such histories can and cannot do.

**The payload caches.**  `MemoryCache.ArticleCache` and `HybridCache.HybridArticleCache`
implement the same rules over different representations.  Both are classes over a map.
Each keeps a ghost log of its operations and is proved to tell, at every lookup, what the
reference function `Lookups.History` tells of that log; `CachesAgree.SideBySide` runs both
on one sequence of operations.  `Keeping` says what an ingest keeps and how long it is
found.  `Lives` follows the entries of the hybrid cache on disk
over restarts.

**Codecs and the registry.**  `SnapshotCodec` (format ANEGSIM7), `DiskCodec` (NPC9, and
reading NPC6 to NPC8), `Registry` and `Slots` (ANEGREG2 and what restarts do to provider
slots), `Responses` and `Captures` (status lines and payloads for the responses of
sections 6.2.1 to 6.2.4 of RFC 3977).  `Accepting` shows that the three readers accept
nothing but what the writers produce.

Clock readings, hashes, freshly drawn epochs and the UTF-8 test are parameters.  Clock
readings do not go back and stay below the largest representable one; hashes are any
function; a drawn epoch differs from earlier ones.  `usize` has 64 bits.  A provider
bitmap is the sequence of its 64 bits, `Words.BitsOfWord` and `Words.WordOfBits` connect
it with the machine word.

## Main results

- **Retention.**  Without loads an index of G generations and rotation interval I answers a
  recorded miss for at least (G-1)\*I and less than G\*I + (G-1)\*(I-1), and the second
  bound is tight.
  The module comment at `src/cache/availability_index.rs:12-14` says that the configured
  retention does not increase; the code re-anchors its schedule at the first insert after
  a rotation.  `IndexTtlRespectedIff` shows exactly when the claim holds for an index that
  never loads a snapshot.  Over any number of restarts, with files from proxies of any
  geometry, a miss is remembered for less than G\*I + (G-1)\*(I-1), or the time to live plus
  min(G-1, 2)\*(I-1) if that is more, and every age below that occurs (`NoMissIsInvented`,
  `MemoryIs`, `MemoryIsExact`).  With restarts the documented claim therefore holds only if
  G\*I does not exceed the time to live and G or I is 1 (`TtlKeptIff`);
  `RestartOutlivesTtl` is a geometry that keeps its time to live until it loads a file.
- **Conservation.**  What took a slot since a proxy was last booted or loaded is still held
  or counted as evicted, in every history (`HistoryConserves`).
- **Reads are unobservable**, although every read rotates and rotation jumps, over
  histories that insert and load.
- **Sharding is unobservable** without expiry, for answers, entry and eviction counts, over
  histories that load.
- **Provenance.**  No lookup reports a miss that was not recorded for exactly this key and
  provider, over any mix of insertions, saves and loads through bytes.  This is false in
  one situation: `canonicalize_host` (`src/cache/availability_identity.rs:52-54`) removes
  one trailing dot, so an identity that still ends in a dot is read back as another
  identity.  `ExactIffUnconfused` and `SlotsStayIff` give the exact conditions, `Confused`
  and `DottedMoves` the histories that go wrong, `RightUpToDots` and `BitsKeepTheirRoot`
  what holds regardless.
- **Save then load is exact** without expiry, through the bytes of the file and after any
  history (`FileIsExact`); with expiry it never freshens evidence, from any point of a
  history to any later one (`SavedTimesNeverGrow`).
- **A load is exact with expiry**, too, as long as no block gets three different names of
  one age class (`LoadHoldsIff`).  What a lookup reports at the load is then everything
  that is young enough, except in a shard where all that was loaded is in the last age
  class and some of it is as old as G\*I: the first lookup rotates all of it away
  (`LoadAnswersIff`, `OlderCompanionHides`).  A proxy whose generations are younger than
  the time to live and than G\*I can be restarted without any lookup noticing
  (`RunRestartsSeamlessly`, `RestartIsSeamless`).
- **The readers accept exactly what the writers write**: snapshots, registries and disk
  entries (`AcceptedIff`, `RegistryAcceptedIff`, `EntryAcceptedIff`).
- **The latch is safe**: every interleaving is linearizable to an index without latch, and
  what each lookup returns is what that index answers at its place.
- **The two payload caches agree** on every sequence of operations, and what the hybrid
  cache reports over restarts is about the server now in the slot (`ReportedMissWasSeen`).
- **Payload progress.**  An update of an unexpired entry loses an answerable request kind
  exactly if an article with two empty sections meets a nonempty HEAD or BODY; it refuses
  a new one exactly in the mirror case (`NewAnswersIff`).  While an entry does not expire it
  holds nothing worse than the best that was ingested (`BestIsKept`).
- **Serving an article reproduces the received bytes** exactly if the payload has a blank
  line and is more than that line, or is empty (`ServedAsReceivedIff`).  Taking in what was
  served gives what was stored (`ArticleServedAgain`, `SectionsServedAgain`).

## Model

| member | source | states |
|---|---|---|
| `FilterStates.MatchingSlots` | src/cache/availability_index.rs:1209-1222 | the slots of a block whose hash and tag both match, and no others |
| `FilterStates.Generation.Clear` | src/cache/availability_index.rs:110-121 | every slot and key is gone, the start is 0, and the returned number is what was occupied |
| `FilterStates.Generation.LookupMissingBits` | src/cache/availability_index.rs:127-150 | the union of the bitmaps of exactly those slots that match hash, tag and key |
| `FilterStates.Generation.FindExact` | src/cache/availability_index.rs:167-176 | the first slot holding exactly this fingerprint and key, or none |
| `FilterStates.Generation.InsertMissingBits` | src/cache/availability_index.rs:152-195 | merge into the exact slot, else first vacant slot, else the victim; the outcome says which |
| `FilterStates.Generation.Entries` | src/cache/availability_index.rs:528-548 | the held slots with a nonempty bitmap, block by block and slot by slot, stamped with the start |
| `Blocks.InsertSaysOnly` | src/cache/availability_index.rs:152-195 | an insertion adds no fact but the given bits of the given key |
| `Blocks.InsertFinds` | src/cache/availability_index.rs:152-195 | an inserted fact is found at once |
| `Blocks.InsertKeeps` | src/cache/availability_index.rs:152-195 | an insertion loses facts about its victim only |
| `Placement.FullBlockKeepsOne` | src/cache/availability_index.rs:1205-1207 | a full block keeps its first key if bit 48 of the new hash is set, otherwise its second |
| `Placement.BlockIsMixed` | src/cache/availability_index.rs:1200-1203 | exactly one word is the hash with its lower half flipped where its upper half has a bit, and the block is that word modulo the number of blocks |
| `Placement.EveryBlockIsUsed` | src/cache/availability_index.rs:1200-1203 | every block of every budget is the block of some nonzero hash |
| `Blocks.InsertGenCounts` | src/cache/availability_index.rs:458-461 | the occupancy counter stays the number of held slots |
| `FilterStates.FilterState.constructor` | src/cache/availability_index.rs:281-298 | a ring of cleared generations, at least one, nothing scheduled |
| `FilterStates.FilterState.Reset` | src/cache/availability_index.rs:322-329 | all generations cleared, position 0 current, nothing live or scheduled |
| `FilterStates.FilterState.AdvanceBy` | src/cache/availability_index.rs:395-400 | the rotation loop: the ring after that many advances and clearings, and how many slots they dropped |
| `FilterStates.FilterState.RotateIfNeeded` | src/cache/availability_index.rs:369-405 | read by age, the ring becomes the rotated window, and the count is what the rotation drops |
| `FilterStates.FilterState.EnsureCurrentGenerationStarted` | src/cache/availability_index.rs:331-343 | stamps an unstarted current generation and re-anchors the schedule, otherwise changes nothing |
| `FilterStates.FilterState.InsertMissingBits` | src/cache/availability_index.rs:440-469 | the window after rotating, starting and inserting, and the evictions counted |
| `FilterStates.FilterState.LookupMissingBits` | src/cache/availability_index.rs:407-438 | the answer is the union over all generations of the rotated window although only live ones are read and the loop may stop early |
| `FilterStates.FilterState.OccupiedSlots` | src/cache/availability_index.rs:316-320 | the occupied slots of the live generations are all occupied slots |
| `FilterStates.FilterState.RestoreEntry` | src/cache/availability_index.rs:471-522 | the window with the entry in the generation of its age, backdated, or unchanged if the entry is skipped; Loading says of whole loads, without this step, which entries count |
| `FilterStates.FilterState.ReanchorCurrentGeneration` | src/cache/availability_index.rs:345-367 | the newest started generation becomes current and sets the schedule, on any ring; on a restored ring the window is turned accordingly and what is not live stays cleared |
| `FilterStates.FilterState.SnapshotEntries` | src/cache/availability_index.rs:524-553 | the entries of all generations by age, after rotating |
| `Rings.PositionIsModular` | src/cache/availability_index.rs:310-314 | the modular position of an age is the position reached by stepping back |
| `Rings.RotateRefines` | src/cache/availability_index.rs:369-405 | the ring advanced position by position is, by age, the window shifted at once; generations that are not live stay cleared |
| `Rings.RecordRefines` | src/cache/availability_index.rs:440-469 | inserting at the current position is inserting at age 0 |
| `Rings.RestoreRefines` | src/cache/availability_index.rs:471-522 | restoring at a position is restoring at an age |
| `Rings.ReanchorRefines` | src/cache/availability_index.rs:354-367 | making another position current turns the window and keeps what is not live cleared |
| `Rotation.GatherMeans` | src/cache/availability_index.rs:422-432 | a bit is gathered exactly if some generation holds it under this fingerprint and key |
| `Rotation.RotateConserves` | src/cache/availability_index.rs:369-405 | what a rotation clears is exactly what the counters lose |
| `Rotation.Conservation` | src/cache/availability_index.rs:369-469 | one shard, from any counted state, new or restored, in every run: insertions that took a slot = growth of occupied slots + counted evictions; each counter is its number of held slots; an unstarted generation is cleared |
| `IdlePolling.JumpIsStepwise` | src/cache/availability_index.rs:390-403 | the capped jump leaves the window that one rotation per interval leaves, up to the schedule of a window with nothing in it |
| `IdlePolling.SimilarActs` | src/cache/availability_index.rs:369-469 | windows that agree once every missed rotation is made up answer alike and record alike |
| `Polling.ReadsAreUnobservable` | src/cache/availability_index.rs:225-553 | whole index, from any state: two histories that insert and load the same agree on every later answer, on the entries of every later save and on entry and eviction counts, whatever lookups, counts and snapshots are mixed in |
| `Retention.RotateCatchesUp` | src/cache/availability_index.rs:390-404 | after a rotation the schedule lies ahead or nothing is left |
| `Retention.ScheduledRotate` | src/cache/availability_index.rs:369-405 | rotation keeps the bound on the schedule of every generation |
| `Retention.ScheduledRecord` | src/cache/availability_index.rs:331-343 | the first insert after a rotation re-anchors the schedule within the bound |
| `Retention.AnswerWasNoted` | src/cache/availability_index.rs:407-469 | in every run a slot is answered only if a miss of exactly this key by this slot was recorded, recently enough for its generation |
| `Retention.RetentionUpperBound` | src/cache/availability_index.rs:331-469 | no miss is answered G*I + (G-1)*(I-1) or more after it was recorded, in any run |
| `Retention.AnsweredAt` | src/cache/availability_index.rs:331-343 | for every age below that bound, as far as the clock goes, a run in which a miss is answered at that age |
| `Retention.BoundIsTight` | src/cache/availability_index.rs:331-343 | for every G and I a run in which a miss is still answered one millisecond before that bound |
| `Retention.TtlRespectedIff` | src/cache/availability_index.rs:12-14 | one shard that never loads: every run stays within the time to live exactly when the bound does or the clock cannot run that long |
| `Retention.RetentionLowerBound` | src/cache/availability_index.rs:369-469 | whatever the shard held before, a miss not overwritten in its own generation is answered up to (G-1)*I later, through any lazy or jumped rotations |
| `Index.GeometryFor` | src/cache/availability_index.rs:742-785 | the partition never exceeds the byte budget, has at least one generation and one shard, and no more shards than blocks |
| `Index.BudgetIsUsed` | src/cache/availability_index.rs:742-785 | one more block in each generation would exceed the budget, and generations and shards are as many as asked for wherever each can have a block, otherwise as many as can |
| `Index.HomeAndSeat` | src/cache/availability_index.rs:787-792 | shard and local block are remainder and quotient by the shard count |
| `Index.BlockInBounds` | src/cache/availability_index.rs:787-801 | every global block lands inside its shard's allocation |
| `Index.BlockFromShard` | src/cache/availability_index.rs:787-801 | every block of every shard is the image of a global block |
| `Index.ShardsCoverBudget` | src/cache/availability_index.rs:763-770 | the shards together have exactly the blocks of the budget |
| `AvailabilityIndexes.AvailabilityIndex.constructor` | src/cache/availability_index.rs:742-785 | an empty index over the computed geometry |
| `AvailabilityIndexes.AvailabilityIndex.InsertMissing` | src/cache/availability_index.rs:1000-1008 | the whole index after an insertion: one shard changes, in the block that BlockIsMixed describes by the bits of the hash, and the latch is set; ignored inputs change nothing |
| `AvailabilityIndexes.AvailabilityIndex.Lookup` | src/cache/availability_index.rs:987-998 | the answer and the whole index after a lookup; nothing is touched before the latch is set |
| `AvailabilityIndexes.AvailabilityIndex.EntryCount` | src/cache/availability_index.rs:935-946 | every shard rotated, and the number of facts all shards then hold |
| `AvailabilityIndexes.AvailabilityIndex.SnapshotEntries` | src/cache/availability_index.rs:921-932 | every shard rotated, and the entries of all shards in order |
| `AvailabilityIndexes.RemapBits` | src/cache/availability_index.rs:237-243 | the translation of a stored bitmap between provider tables, provider by provider |
| `AvailabilityIndexes.AvailabilityIndex.RestoreInto` | src/cache/availability_index.rs:225-267 | the whole index after sorting, clearing, translating, restoring, re-anchoring and setting the latch; LoadHoldsIff and LoadAnswersIff say the same of the entries alone |
| `Sharding.NoteBlocks` | src/cache/availability_index.rs:787-801 | an insertion changes exactly the block of its hash, as BlockIsMixed describes it, whatever the shard count |
| `Sharding.NoteCounts` | src/cache/availability_index.rs:935-984 | entry and eviction totals grow by what the one block says |
| `Resharding.PutBackBlocks` | src/cache/availability_index.rs:471-522 | without expiry a restored entry changes exactly its global block, whatever the shard count |
| `Resharding.ShardCountIsUnobservable` | src/cache/availability_index.rs:742-810 | without expiry and with equal budgets every history of operations and loads gives the same answers, entries and evictions for every two shard counts |
| `Projection.ShardsRunAlone` | src/cache/availability_index.rs:803-810 | a run of the index from any state is, shard by shard, the run of that shard on the operations that reach it |
| `Counting.IndexConserves` | src/cache/availability_index.rs:935-984 | whole index, from any counted state, every run: insertions that took a slot = growth of entries + evictions over all shards, and every counter stays true |
| `Counting.RestoreConserves` | src/cache/availability_index.rs:471-522 | one restored entry: a taken slot is one more occupied or one counted eviction, and the counters stay true |
| `Counting.LoadConserves` | src/cache/availability_index.rs:225-267 | a load, whatever was there before: restores that took a slot = entries + evictions, and every counter is its number of held slots |
| `Counting.HistoryConserves` | src/cache/availability_index.rs:225-267 | every proxy of every history of boots, operations, saves and loads: what took a slot since it was last booted or loaded = entries + evictions, and every counter is true |
| `Projection.IndexRetention` | src/cache/availability_index.rs:331-469 | whole index: the upper retention bound, for every shard count |
| `Projection.IndexBoundIsTight` | src/cache/availability_index.rs:331-343 | whole index: the bound is attained, for every geometry with blocks and every hash |
| `Projection.IndexTtlRespectedIff` | src/cache/availability_index.rs:12-14 | whole index, every geometry, without loads: no answer is older than the time to live, in every run, exactly if G*I + (G-1)*(I-1) does not exceed it, it is zero, the clock cannot run that long, or there are no blocks |
| `Projection.IndexRemembers` | src/cache/availability_index.rs:369-469 | whole index, whatever it held before: the lower retention bound |
| `Latch.Linearizable` | src/cache/availability_index.rs:574-583 | from any index that holds nothing while its latch is not set, under every interleaving, the operations that took effect are in one order, each once, with what it did and answers, every finished one among them, and every lookup of the order answered what an index without latch answers there |
| `Latch.LookupReturns` | src/cache/availability_index.rs:987-998 | what a lookup returns is what the index without latch answers, at the place of that lookup in the order, for the key the lookup was called with |
| `Latch.InsertTakesEffect` | src/cache/availability_index.rs:1000-1008 | a finished insertion has a place in the order, with the key and the bits it was called with |
| `Latch.RealTime` | src/cache/availability_index.rs:987-1008 | that order respects real time |
| `Latch.FinishedInsertIsSeen` | src/cache/availability_index.rs:987-1008 | a lookup that reads the latch after some insertion has finished takes the lock |
| `Counting.LatchIsSound` | src/cache/availability_index.rs:574-583 | in every history of boots, operations, saves and loads a proxy holds nothing while its latch is not set |
| `Restoring.RemapMeans` | src/cache/availability_index.rs:237-243 | a slot is set after translation exactly if some stored bit names the provider of that slot |
| `Restarts.RestoreNeverFreshens` | src/cache/availability_index.rs:478-502 | an entry as old as the time to live is dropped; any other lands in a generation that starts no later than the entry, and no generation starts later than before |
| `Restarts.RestoreBacked` | src/cache/availability_index.rs:471-522 | restored facts keep provider and time, and so do all others |
| `Restarts.ReanchorBacked` | src/cache/availability_index.rs:354-367 | re-anchoring keeps providers and times |
| `Restarts.TimedRecord` | src/cache/availability_index.rs:331-343 | recording keeps every generation, restored ones included, scheduled to go in time |
| `Restarts.TimedReanchor` | src/cache/availability_index.rs:345-367 | after a restart every restored generation is scheduled to go within its reach; one of the widest age class within the time to live plus I-1 for each of up to two rotations |
| `Health.HealthyStep` | src/cache/availability_index.rs:440-469 | every operation keeps the evidence and schedule invariant of the whole index |
| `Health.HealthyLoad` | src/cache/availability_index.rs:225-267 | loading keeps it, whatever the provider tables and geometries |
| `Worlds.NoMissIsInvented` | src/cache/availability_index.rs:844-892 | any history of proxies saving and loading through bytes: a slot is reported only if a miss of this key by this provider was recorded, and with expiry recently enough |
| `Worlds.SavedTimesNeverGrow` | src/cache/availability_index.rs:225-553 | any history, any point in it: whatever a proxy holds, a file says or a save would write at the end is dated no later than the same miss of the same provider was held or said at that point, or was recorded since |
| `Worlds.CycleNeverFreshens` | src/cache/availability_index.rs:225-267 | load, run, save: every saved fact was in the loaded snapshot for the same provider under a time no earlier than the saved one, or was recorded since |
| `Worlds.NeverYoungerThanRecorded` | src/cache/availability_index.rs:471-522 | nothing is ever held or readable under a later time than it was recorded at |
| `Worlds.MemoryIs` | src/cache/availability_index.rs:742-761 | the bound over restarts is G*I + (G-1)*(I-1), or the time to live plus min(G-1, 2)*(I-1) if that is more |
| `Handover.HandedOver` | src/cache/availability_index.rs:225-267 | a proxy of any geometry with at least two generations that loads two facts and hears of the message once more still answers the older one |
| `Longest.RememberedThatLong` | src/cache/availability_index.rs:225-367 | for every age below the bound a history, through the bytes of a file where needed, in which a miss is reported at that age |
| `Longest.MemoryIsExact` | src/cache/availability_index.rs:742-761 | every report of every history is younger than a given age exactly if the bound does not exceed that age or the clock cannot run that long |
| `Longest.TtlKeptIff` | src/cache/availability_index.rs:12-14 | over every history of boots, operations, saves and loads, every geometry: no report is as old as the time to live exactly if G*I does not exceed it and G or I is 1, it is zero, the clock cannot run that long, or there are no blocks |
| `Longest.RestartOutlivesTtl` | src/cache/availability_index.rs:12-14 | an index of three generations and 8 ms that keeps its time to live on its own, and a history with one save and one load in which it does not |
| `Longest.RecordedIsRemembered` | src/cache/availability_index.rs:369-469 | after any history, what a proxy records and does not overwrite in its own generation is reported up to (G-1)*I later |
| `Placement.OthersApartIsRemembered` | src/cache/availability_index.rs:1000-1008 | after any history, what a proxy records is reported up to (G-1)*I later if everything else it then records has a hash whose mixed word differs modulo the number of blocks |
| `Loading.LoadHoldsIff` | src/cache/availability_index.rs:225-267 | every sane geometry with blocks, any tables, any entries of which no three different names share a block and an age class: the loaded index holds the fact of a key and a provider exactly if an entry of the key with a nonzero hash, younger than the time to live, has a bit of that provider |
| `Loading.LoadAnswersIff` | src/cache/availability_index.rs:225-405 | what a lookup reports at the time of such a load: exactly the providers named by such an entry under the fingerprint of the key, unless everything loaded into the shard is in the last age class and something is as old as G*I |
| `Loading.RotatesBack` | src/cache/availability_index.rs:345-405 | rotating a re-anchored window to the time of the load restores the generations as they were filled, or clears them all if the newest is as old as G*I |
| `Loading.LoadedAlone` | src/cache/availability_index.rs:225-405 | an entry loaded alone is reported at the load exactly while it is younger than the time to live and than G*I |
| `Loading.OlderCompanionHides` | src/cache/availability_index.rs:345-405 | two entries: the younger is reported when loaded alone and not when the older one is loaded with it |
| `Resuming.WrittenByIndex` | src/cache/availability_index.rs:524-553 | a save writes exactly the held slots with a nonempty bitmap, each with the start of its generation |
| `Resuming.HistoryPlaces` | src/cache/availability_index.rs:787-801 | in every history every fact of every proxy sits in the shard and block of its hash |
| `Resuming.ResumedReportsIff` | src/cache/availability_index.rs:225-267 | save, then load into any index under any tables, with expiry: reported is exactly what the saved generations younger than the time to live knew of the same provider, unless everything loaded into the shard is stale |
| `Resuming.SpreadIsRoomy` | src/cache/availability_index.rs:471-522 | a snapshot whose generations fall into different age classes has room in every index with as many blocks, whatever the shard counts |
| `Resuming.SpacedRun` | src/cache/availability_index.rs:331-405 | in every run the generations of a shard start at least one interval apart, and the next rotation waits for all of them |
| `Resuming.RestartIsSeamless` | src/cache/availability_index.rs:225-267 | after any history: saved and loaded at one moment into any geometry with as many blocks, every lookup reports what it reported before, if the started generations are in different age classes and younger than the time to live and than G*I |
| `Resuming.RunRestartsSeamlessly` | src/cache/availability_index.rs:225-405 | the same for every run of a proxy that has not loaded, if only its started generations are younger than the time to live and than G*I |
| `Worlds.RightUpToDots` | src/cache/availability_identity.rs:37-54 | up to trailing dots of host names reports are always right |
| `Confusion.Confused` | src/cache/availability_identity.rs:52-54 | a host read back as another one: that one is reported although it never missed anything |
| `Confusion.ExactIffUnconfused` | src/cache/availability_identity.rs:37-54 | every report is exact in every history exactly if no known host is read back as another known host |
| `Exactness.SortIsStable` | src/cache/availability_index.rs:226 | sorting by time keeps the order of the entries of one block |
| `Exactness.RefillRebuilds` | src/cache/availability_index.rs:471-522 | the entries of a block rebuild it slot for slot |
| `Exactness.NothingIsReplaced` | src/cache/availability_index.rs:251-253 | restoring a snapshot into the same geometry replaces nothing |
| `Exactness.SaveLoadIsExact` | src/cache/availability_index.rs:225-267 | without expiry an index of the same geometry and table, whatever it held, becomes a twin of the saved one and stays so: same windows, same answers, same evictions from then on |
| `Exactness.TidyLoad` | src/cache/availability_index.rs:225-267 | a load of observations under any table leaves every block in the shape that saves and loads reproduce |
| `Index.NoBlocksNoAnswers` | src/cache/availability_index.rs:415-420 | an index without blocks answers nothing |
| `SnapshotCodec.Save` | src/cache/availability_index.rs:874-892 | the bytes of a snapshot, or failure on a key of a bad length |
| `SnapshotCodec.Load` | src/cache/availability_index.rs:1011-1088 | the cursor loop parses exactly what the format describes; legacy formats and failures included |
| `SnapshotCodec.ParseOfSaved` | src/cache/availability_index.rs:877-1088 | parsing written bytes gives back all entries over the identities of the written hosts, and fails exactly if a host, key or bitmap is not acceptable or an identity occurs twice |
| `Accepting.AcceptedIff` | src/cache/availability_index.rs:844-892 | bytes are read as a snapshot exactly if they are, to the last byte, what a save of some readable snapshot writes |
| `SnapshotCodec.RoundTripIff` | src/cache/availability_index.rs:1011-1134 | the round trip is exact exactly if no identity ends in a dot |
| `Savable.SavesAreReadable` | src/cache/availability_index.rs:857-892 | every save of every history of recording, saving and loading can be written and read, if the recorded keys fit the format |
| `Savable.SaveReadsBackIff` | src/cache/availability_index.rs:1011-1134 | over every such history what is read back is exactly what was saved, hosts and entries, exactly if no identity of the saving proxy ends in a dot |
| `Savable.FileIsExact` | src/cache/availability_index.rs:844-892 | through the bytes, at the end of any such history: without expiry a proxy that loads what another of the same table and geometry saves becomes its twin and stays so |
| `SnapshotCodec.SuffixIsRefused` | src/cache/availability_index.rs:1080-1082 | anything after a complete snapshot makes it unreadable |
| `Words.BitsOfWord` | src/cache/availability_index.rs:1175-1181 | a bitmap and its wire word determine each other |
| `Identities.CanonOfIdentity` | src/cache/availability_identity.rs:52-54 | taking the identity of an identity changes it exactly if it ends in a dot |
| `Identities.OneIdentityIff` | src/cache/availability_identity.rs:52-54 | two names have one identity exactly if they differ at most in letter case and one trailing dot |
| `Registry.OneSlotIff` | src/cache/availability_identity.rs:151-183 | two servers share a slot exactly if their names differ at most in letter case and one trailing dot |
| `Registry.FromServers` | src/cache/availability_identity.rs:151-183 | a layout exists exactly for at most 64 different hosts; every server has the slot of its identity, the mask is the set of these slots |
| `Registry.LoadRegistry` | src/cache/availability_identity.rs:298-326 | the loop parses exactly the registry format and refuses repeated identities |
| `Registry.ReadOfPublished` | src/cache/availability_identity.rs:298-347 | a published registry is read back with its epoch over the identities of the written hosts, or not at all |
| `Slots.FromRegistry` | src/cache/availability_identity.rs:186-234 | a start reads, extends and publishes the registry and gives every server the slot of its identity; what fails leaves the file as it was |
| `Slots.StartsIff` | src/cache/availability_identity.rs:186-234 | a start succeeds exactly if the hosts of a readable registry and of the servers are at most 64, and none is new to it or none exceeds the length that can be written; it keeps the epoch of that registry or draws one |
| `Accepting.RegistryAcceptedIff` | src/cache/availability_identity.rs:298-326 | a registry file is read exactly if it is, to the last byte, what publishing some acceptable table writes |
| `Slots.StartIsOrderly` | src/cache/availability_identity.rs:186-234 | a start keeps every earlier slot of its epoch |
| `Slots.BitsKeepTheirHost` | src/cache/availability_identity.rs:186-347 | over any restarts, server lists and losses of the registry a stored bit names the same provider when it is read |
| `Slots.SlotKeepsItsHost` | src/cache/availability_identity.rs:186-234 | a slot of one layout is the same provider in every later layout of the same epoch |
| `Slots.MissesKeepTheirHost` | src/cache/hybrid.rs:347-377 | the same for a miss told by a stored entry of the hybrid cache |
| `Lives.Perform` | src/cache/hybrid.rs:347-407 | every operation of the cache is a lawful turn of a history over restarts, and a lookup returns what the disk tells under the epoch in use |
| `Lives.ReportedMissWasSeen` | src/cache/hybrid.rs:347-407 | over any starts, server lists, registry losses, operations and dropped entries a lookup reports a slot only if the server now in it answered 430 for this key less than one base time to live ago |
| `Slots.BitsKeepTheirRoot` | src/cache/availability_identity.rs:52-54 | up to trailing dots this needs no assumption on the hosts |
| `Slots.DottedMoves` | src/cache/availability_identity.rs:186-234 | an identity that ends in a dot gets another slot at the second start, under the same epoch |
| `Slots.SlotsStayIff` | src/cache/availability_identity.rs:186-234 | slots keep their identity in every history exactly if no configured server has an identity that ends in a dot |
| `Ttl.HigherTierLivesLonger` | src/cache/ttl.rs:117-125 | a higher tier never lives shorter, saturation and cap included |
| `Ttl.TierDoubles` | src/cache/ttl.rs:117-125 | up to tier 63 one tier more is twice the time to live, at most the largest word; above it nothing changes |
| `Keeping.FoundIff` | src/cache/ttl.rs:117-125 | an entry not updated since is found exactly while its age is below the base time to live doubled min(tier, 63) times, and below the largest word |
| `Keeping.IngestFoundIff` | src/cache/article.rs:1124-1187 | the same counted from the ingest that stored it, with the tier of that ingest |
| `Keeping.LongerIsKept` | src/cache/article.rs:867-876 | neither side a servable article, sections not complementary: the longer payload is kept, with its own status, tier and time; at equal length the new one exactly if it answers every request of the old one and one more |
| `Keeping.SectionReplacesNone` | src/cache/article.rs:1148-1187 | a nonempty HEAD or BODY takes the place of an entry without a section |
| `Keeping.CompleteIsKept` | src/cache/article.rs:1160-1180 | an article under code 220 with at least one byte takes the place of anything else, and of another such one only if it is longer |
| `Keeping.SectionsCombine` | src/cache/article.rs:685-727 | HEAD and BODY make an article of these two sections, dated now, with the higher tier, and with a number exactly if the two sides do not disagree on it |
| `Keeping.NewAnswersIff` | src/cache/article.rs:1148-1187 | an ingest refuses an answer of the new payload exactly if that is an article with two empty sections and a nonempty HEAD or BODY is stored |
| `Keeping.BestIsKept` | src/cache/article.rs:1148-1187 | every run in which the entry does not expire: what is found in the end is no worse, servable article before others and then by length, than anything ingested from a provider without a live 430 |
| `Keeping.SuccessRenews` | src/cache/article.rs:1189-1238 | a status or STAT success renews an entry, and changes status, payload and tier only where no section and no STAT answer is held |
| `Payloads.LosesIff` | src/cache/article.rs:869-876 | an ingest loses a request kind exactly if an article with both sections empty meets a nonempty HEAD or BODY |
| `Payloads.CompleteStays` | src/cache/article.rs:1165-1182 | an ingest keeps a complete article complete |
| `Payloads.AnswerBits` | src/cache/article.rs:307-320 | the bit set agrees with the request kinds a payload can answer |
| `Lookups.FreshLater` | src/cache/article.rs:410-421 | what has expired stays expired: looking twice is looking once |
| `Lookups.ReportedMissIsRecent` | src/cache/article.rs:1148-1261 | every missing bit of a lookup was recorded as 430 for this key and slot less than one base time to live ago |
| `Lookups.MissOutweighsSuccess` | src/cache/article.rs:1154-1157 | a positive update from a slot with a live 430 changes nothing |
| `Lookups.MissesSurvive` | src/cache/article.rs:1148-1261 | no update of an unexpired entry forgets or refreshes another slot's miss |
| `Lookups.ProgressIff` | src/cache/article.rs:1148-1252 | an update of an unexpired entry loses a request kind only in the one losing case |
| `Lookups.CompleteThroughout` | src/cache/article.rs:1148-1252 | over any run on an unexpired entry a complete article stays complete |
| `Lookups.AnswersGrow` | src/cache/article.rs:1148-1252 | over any run on an unexpired entry without the losing case every request kind stays answerable |
| `Lookups.SubstantialNeverLoses` | src/cache/article.rs:1148-1252 | if the stored payload and every ingested ARTICLE, HEAD and BODY hold at least one byte, the losing case never occurs in any run |
| `MemoryCache.ExpireStale` | src/cache/article.rs:410-421 | exactly the misses one base time to live old are dropped from list and bitmap |
| `MemoryCache.RecordMissing` | src/cache/article.rs:619-631 | the slot's time becomes now, no other changes, list and bitmap stay matched |
| `MemoryCache.MergeSections` | src/cache/article.rs:686-727 | HEAD and BODY become an article with the retained number and the higher tier; anything else is left alone |
| `MemoryCache.ArticleCache.Get` | src/cache/article.rs:1124-1146 | the lookup returns what the whole history of the cache tells, for as long as FoundIff says, and drops an expired entry |
| `MemoryCache.ArticleCache.Ingest` | src/cache/article.rs:1148-1187 | only this key changes, and what later lookups find is the reference update of the history: refused after a live 430, else sections merged (SectionsCombine), else the complete (CompleteIsKept) or the longer payload kept (LongerIsKept); expired misses are written back as gone |
| `MemoryCache.ArticleCache.RecordHasStatus` | src/cache/article.rs:1189-1214 | only this key changes: an entry without section or STAT takes the status and tier, any entry not refused lives on from now |
| `MemoryCache.ArticleCache.RecordStat` | src/cache/article.rs:1216-1237 | only this key changes: an entry without section becomes a STAT entry, any entry not refused lives on from now |
| `MemoryCache.ArticleCache.RecordMiss` | src/cache/article.rs:1239-1252 | only this key changes: the slot is missing as of now, payload and lifetime stay; an expired entry is replaced by a miss |
| `HybridCache.ExpireStale` | src/cache/hybrid_codec.rs:731-749 | exactly the misses one base time to live old are dropped from bitmap and times |
| `HybridCache.MergeSections` | src/cache/hybrid_codec.rs:674-715 | HEAD and BODY become an article with the retained number and the higher tier; anything else is left alone |
| `HybridCache.HybridArticleCache.Open` | src/cache/hybrid.rs:174-339 | a cache opened over the entries left on disk follows from what they tell under its epoch |
| `HybridCache.HybridArticleCache.FreshEntry` | src/cache/hybrid.rs:347-355 | an entry is read under the cache's epoch, unexpired and without expired misses |
| `HybridCache.HybridArticleCache.Get` | src/cache/hybrid.rs:369-407 | the lookup returns what the whole history of the cache tells, for as long as FoundIff says, and leaves an expired entry in place |
| `HybridCache.HybridArticleCache.Ingest` | src/cache/hybrid.rs:487-544 | only this key changes, and what later lookups find is the same reference update as for the memory cache although an unchanged entry is not written back; other response codes change nothing |
| `HybridCache.HybridArticleCache.RecordHasStatus` | src/cache/hybrid.rs:587-618 | the same reference update as for the memory cache; other response codes change nothing |
| `HybridCache.HybridArticleCache.RecordStat` | src/cache/hybrid.rs:620-641 | the same reference update as for the memory cache |
| `HybridCache.HybridArticleCache.RecordMiss` | src/cache/hybrid.rs:547-568 | the same reference update as for the memory cache |
| `CachesAgree.IntoCachedArticle` | src/cache/hybrid_codec.rs:625-643 | the converted entry tells the same as the entry on disk |
| `CachesAgree.SideBySide` | src/cache/hybrid.rs:347-641 | for every sequence of operations both caches return the same status, payload, tier, time, missing slots and miss times from every lookup |
| `Responses.StackStatusLine.PushSlice` | src/cache/article.rs:272-278 | appends exactly the part, or changes nothing if it does not fit |
| `Responses.StackStatusLine.PushU64` | src/cache/article.rs:280-293 | appends exactly the decimal digits |
| `Responses.ValueOfDigits` | src/cache/article.rs:280-293 | the digits denote the number |
| `Responses.BuildLine` | src/cache/article.rs:258-270 | a status line exists exactly if it fits 1024 bytes |
| `Responses.ResponseFor` | src/cache/article.rs:739-790 | a response exists exactly for the kinds in the answer bits whose line fits, with the number and sections of the payload and the code that CodeIsReadBack reads from the line |
| `Responses.ShortIdsFit` | src/cache/article.rs:258-270 | for message ids of at most 997 bytes the line always fits |
| `Responses.LongIdsDoNot` | src/cache/article.rs:258-270 | 997 is the largest such length |
| `Captures.CopyPayloadBytes` | src/cache/article.rs:843-865 | for every way to cut a response into chunks the copy is the slice of the joined bytes |
| `Captures.WireLenIsExact` | src/cache/article.rs:167-250 | the announced length is the number of bytes written, and what follows a section ends in a dot and CR LF |
| `Captures.ServedAsReceivedIff` | src/cache/article.rs:193-230 | a served ARTICLE has the received bytes exactly if the payload has a blank line and is more than that, or is empty |
| `Captures.ServedAgain` | src/cache/article.rs:878-913 | for every received payload, taking in again what was served gives the payload it was served from |
| `Captures.BlankLine` | src/session/multiline_framing.rs:2364-2373 | the split is at the first blank line |
| `Captures.NumberIsReadBack` | src/cache/article.rs:964-972 | the number of a served status line is read back |
| `Captures.ParsesIff` | src/cache/article.rs:964-972 | a text denotes an article number exactly if it is a string of digits, with or without a plus sign, that fits a word |
| `Captures.CodeIsReadBack` | src/cache/article.rs:739-790 | the first three digits of a served status line are 220 for ARTICLE, 221 for HEAD, 222 for BODY and 223 for STAT |
| `Captures.CapturedAnswers` | src/cache/article.rs:792-841 | a captured response answers the requests its code stands for, and none for any other code |
| `Captures.ParseFramed` | src/cache/article.rs:810-841 | what is stored of a chunked response, however it is cut into chunks |
| `Captures.SectionsServedAgain` | src/cache/article.rs:739-841 | HEAD, BODY and STAT of any payload, taken in again from the served bytes, are what was stored of it, with its number or 0 |
| `Captures.ArticleServedAgain` | src/cache/article.rs:739-841 | so is every article that was taken in from a response, whatever its bytes |
| `DiskCodec.Encode` | src/cache/hybrid_codec.rs:164-190 | the bytes of an entry, or failure on a section over 4 MiB |
| `DiskCodec.DecodeEntry` | src/cache/hybrid_codec.rs:192-288 | the sequential reader computes the decoding of all four formats, every truncated or bad field included |
| `DiskCodec.DecodeOfEncoded` | src/cache/hybrid_codec.rs:192-474 | decoding an entry written in any of the four formats, wherever it lies and whatever follows; RoundTripIff, RelabelledAsV8 and OldestFormats say what comes back |
| `DiskCodec.RoundTripIff` | src/cache/hybrid_codec.rs:164-293 | decoding leaves exactly what follows; the entry is the same exactly if its number is not the one that stands for none |
| `DiskCodec.RelabelledAsV8` | src/cache/hybrid_codec.rs:409-414 | the bytes of an entry under the previous format's name: the same entry, each nonempty section followed by CR LF, kind and number as they were |
| `DiskCodec.OldestFormats` | src/cache/hybrid_codec.rs:192-288 | an entry in one of the two oldest formats, without the times of the misses and in the first without the epoch: every miss counts as seen when the entry was written, and each nonempty section gains CR LF |
| `DiskCodec.FormatName` | src/cache/hybrid_codec.rs:27-30 | an entry begins with the name of its format, NPC6 to NPC9, in little-endian order |
| `DiskCodec.LenOnDisk` | src/cache/article.rs:681-683 | the length by which payloads are compared is what their sections take on disk |
| `Accepting.EntryAcceptedIff` | src/cache/hybrid_codec.rs:192-474 | bytes are read as an entry exactly if some entry whose sections fit was written there in one of the four formats |
| `DiskCodec.EncodedLenIsExact` | src/cache/hybrid_codec.rs:466-474 | the size estimate is the number of bytes |

## Left out

- Hashing: the hash of a key is an arbitrary function; XxHash64 itself is not modelled.
- Hit and miss counters and hit rates of the availability index, and the striped counters of misses before the latch.
- Capacity eviction, weighers, compression and the tiers of the libraries behind the payload caches; storage is an atomic map per key.
- Files: reading, writing, temporary names, atomic replacement and the save lock; only the bytes are modelled.
- Framing of responses on the connection; payloads are taken as already cut out, only their split into sections is modelled.
- `AvailabilityLayout::synthetic` and the derived layout fingerprint; the small bit operations of `ArticleAvailability` and its exhaustion test.
- Locks other than through the latch protocol: operations under one lock are atomic steps.
- Latch.Linearizable: covers insertions and lookups; entry counts and snapshots look past the latch and are approximate while writes are in flight, as the source says.
- ReanchorCurrentGeneration: that the ring keeps its invariant is promised where position 0 is current and every generation sits in its age class, which is how restoring leaves the ring; it is called nowhere else.
- SavesAreReadable: asks for keys of 1 to 250 bytes that are UTF-8; a longer key makes a save fail for as long as it is held.
- Lives: the base time to live is the same over all starts.
- IndexRemembers, RecordedIsRemembered: the condition that nothing overwrites the slot is stated on the operations of the key's shard; OthersApartIsRemembered has a sufficient one on hashes.
- LoadHoldsIff, LoadAnswersIff: say nothing of loads in which three different names share a block and an age class, where a later entry replaces an earlier one.
- RunRestartsSeamlessly: asks that the clock is not within one interval of its last reading; its condition is sufficient, the exact one is that of ResumedReportsIff.
- Save: refuses counts that do not fit their 64-bit fields, which memory cannot hold.
- Worlds: files are only written by saves; damaged files are not modelled beyond what a load refuses.
