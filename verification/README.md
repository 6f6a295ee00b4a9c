# A verified model of the Marmotta LevelDB backend

The backend stores RDF statements in LevelDB behind a gRPC service. This project models its
logic in Dafny and proves what the parts promise each other, from the bytes of a key to what a
client sees at a read:

- **Keys and scans** (`Bytes`, `Rdf`, `Wire`, `Keys`, `LevelDb`). A statement is stored under four
  16-byte hashes of its serialised components, permuted for four indexes; a pattern query is a
  byte-range scan of one index. A 64-byte key is represented by its four blocks (`Keys.Flatten`
  is the bijection); LevelDB is a map with atomic write batches and iteration in key order. All
  results hold for every hash function; collision freedom is a hypothesis only where named.
- **The store** (`Updates`, `Namespaces`, `Worlds`, `Indexes`, `Persistence`, `Schedules`, `Writers`,
  `Concurrency`, `Service`). An update stream is collected into write batches while its removals read the old
  store. `Worlds.UpdateWorld` is that behaviour, `Worlds.InOrderWorld` the promise of
  `service/sail.proto`; the exact condition under which they agree is proved, and so are the
  invariants of the six databases and what concurrent operations, reads and
  writer threads interleaved, do to them.
- **Sharding** (`Shards`, `ShardingProxy`, `Gather`, `Fanout`). The backends behind the proxy refine
  the single store; the unprotected sum in `Fanout` is analysed over all interleavings.
- **The client** (`Connection`, `ResponseStream`). The Java connection's flushing turns the deferred
  batches into in-order application; the response stream's credit protocol never overflows its queue.
- **The whole** (`Reference`, `EndToEnd`). `Reference` says what the connection's operations mean on a
  plain set of statements and a dictionary of namespaces, with no keys and no requests in them. A
  removal can be read in two ways: as documented, by `matches`, or as the store does it, ignoring the
  component a scan ignores. On proper statements without hash collisions, every read of every client
  session, directly or through the proxy and with removals of all sixteen shapes, sees the set that the
  session's operations leave under the second reading; it sees that of the first if and only if no
  removal took a statement in excess.
- **MurmurHash3_x64_128** (`Murmur`). The hash is the algorithm in plain 64-bit operators, has its
  published value, and never collides on inputs that differ within one block or in zeros at the end.

Where a class exists in the system it is a class here, and each method's contract ties it to the
function the lemmas are about.

Some properties that one might expect are false of the code. Each is kept as the code has it, with
a counterexample and the exact condition:

- Update streams are not applied in order in general. `service/sail.proto:99-101` promises it
  unconditionally; the model follows the code. A statement or a namespace added and removed again in
  one stream stays (`Updates.AddThenRemoveKeeps`, `Namespaces.AddThenRemoveKeepsNs`); a prefix rebound
  and then removed leaves its new URI behind and loses the old one's entry
  (`Namespaces.RebindThenRemoveKeepsUri`); a removal by URI takes a prefix that the stream has bound to
  another URI since (`Namespaces.StaleRemovalTakesRebound`). For streams that remove namespaces by
  prefix or all at once, which are the ones clients send, `Worlds.ClientUpdateIsInOrder` gives the exact
  condition in terms of the requests and the starting store: no statement removal follows the last
  addition of a statement it scans that was absent at the start, no namespace removal follows the last
  binding of a prefix that was free, and after the last binding of each URI the removals hit it in the
  starting store exactly if they hit it at their turn. For streams that also remove by URI, whose effect
  depends on what earlier removals left, `Worlds.UpdateIsInOrder` is the exact condition with the entry
  found at a removal's turn taken from the in-order application of the requests before it.
- A scan ignores a bound component for the shapes SO and SOC (`Service.ObjectIgnored`), OC and POC
  (`Service.ContextIgnored`: removing a triple from one context removes it from all), and only for
  those (`Keys.ScanExactness`); `matches` would repair this but is never called. Removals then take
  too much, and the result differs from the documented one exactly when `Reference.ExcessRemoval`
  holds somewhere (`Reference.ReadingsAgree`).
- A namespace lookup given both a prefix and a URI ignores the URI (`Namespaces.LookupIgnoresUri`); it
  returns the matching namespaces exactly when the prefix is not bound to another URI
  (`Namespaces.FoundIsMatching`).
- The two namespace indexes are not each other's inverse after a prefix is rebound
  (`Namespaces.RebindingBreaksInverse`); an addition keeps them so exactly when prefix and URI are free
  or bound to each other (`Namespaces.AddKeepsInverse`).
- The shards are not the single store when one key can belong to two backends: for every key hash, a
  statement without context and the same one with an empty context can be told apart by the string
  hash and then break the refinement (`Shards.IllFormedBreaksRefinement`). They are the single store
  exactly when keys decide shards (`Shards.RefinementCondition`).
- Concurrent operations can leave the indexes inconsistent: adding a statement while another operation
  removes it does, on every disk, in some order of the threads (`Writers.AddRacesRemove`). They never
  do, under any interleaving, exactly when they agree on the keys they have in common
  (`Writers.ConcurrentOperations`); operations that only add, or only remove, never do
  (`Concurrency.OneKindNeverConflicts`).
- The sum in `Fanout` can lose responses (`Fanout.OverlapLoses`); it loses none exactly when no two
  load-store windows overlap (`Fanout.NothingLostIff`).

`dafny verify dfyconfig.toml` checks the project.

## Model

| member | source | states |
|---|---|---|
| Bytes.PrefixRange | persistence/leveldb_persistence.cc:127-147 | the closed range between a prefix padded with 0x00 and with 0xFF holds exactly the strings with that prefix |
| Bytes.Compare | persistence/leveldb_persistence.cc:666-668 | the comparator's sign decides the unsigned lexicographic order, zero only for equal keys |
| Rdf.ResourceEquality | model/rdf_operators.cc:41-48 | resource equality is equality among resources with their oneof set |
| Rdf.ValueEquality | model/rdf_operators.cc:24-39 | value equality is equality of canonical forms (absent and empty datatype alike) among set values |
| Rdf.StatementEquality | model/rdf_operators.cc:50-56 | statement equality is equality of canonical forms among statements with every oneof, context included, set |
| Rdf.StatementEqualityLaws | model/rdf_operators.cc:50-56 | symmetric, transitive, reflexive exactly on statements with every oneof set |
| Rdf.EqualResourcesHashEqually | model/rdf_operators.h:174-202 | equal resources have equal std::hash |
| Rdf.HashSeesIdentifier | model/rdf_operators.h:174-202 | two resources hash alike for every string hash if and only if their URI or node identifier is the same |
| Wire.VarintRoundTrip | model/model.proto:67-72 | a length or key is read back from its varint, whatever follows |
| Wire.ParseField | model/model.proto:67-72 | a field is read back under its number |
| Wire.ResourceRoundTrip | model/model.proto:25-30 | a resource is read back from its bytes by the field numbers of its message |
| Wire.ValueRoundTrip | model/model.proto:34-62 | so is a value |
| Wire.StatementRoundTrip | model/model.proto:67-72 | so is a statement, patterns included |
| Wire.ResourceInjective | model/model.proto:25-30 | distinct resources serialise to distinct bytes |
| Wire.ValueInjective | model/model.proto:34-62 | distinct values serialise to distinct bytes |
| Wire.StatementInjective | model/model.proto:67-72 | distinct statements, patterns included, serialise to distinct bytes |
| Murmur.FmixInjective | util/murmur3.cc:59-68 | the finalisation mix is injective on 64-bit words |
| Murmur.BlockStepInjective | util/murmur3.cc:250-262 | one body round is injective in the block for a fixed state and in the state for a fixed block |
| Murmur.TailStepInjective | util/murmur3.cc:267-292 | the tail is injective in the tail bytes for a fixed state and in the state for fixed bytes |
| Murmur.FinaliseInjective | util/murmur3.cc:297-306 | finalisation is injective on states |
| Murmur.OneBlockDifference | util/murmur3.cc:233-310 | inputs of equal length, any length, differing only inside one 16-byte block (partial last block included) have different 128-bit hashes for every seed |
| Murmur.TailHigh | util/murmur3.cc:274-280 | the fall-through cases 15 to 9 assemble the little-endian word of the tail's high bytes |
| Murmur.TailLow | util/murmur3.cc:283-290 | the fall-through cases 8 to 1 assemble the word of the low bytes |
| Murmur.PaddingDiffers | util/murmur3.cc:297 | appending zero bytes within the last block changes the hash, for every input and seed: the length is mixed in |
| Murmur.HashIsTextbook | util/murmur3.cc:233-310 | for every input and seed the hash is the algorithm as one recursion over the input, in plain 64-bit operators, first word first |
| Murmur.KnownAnswer | util/murmur3.cc:233-310 | the published value for a sentence of two blocks and a tail, seed 0 |
| Murmur.Hash3 | util/murmur3.cc:233-310 | the loop, switch and finalisation compute the hash the lemmas are about |
| Keys.ReorderRoundTrip | persistence/leveldb_persistence.cc:69-75 | reordering a key for an index is a bijection |
| Keys.KeyLayout | persistence/leveldb_persistence.cc:595-613 | the bytes of the four index keys are the components' hashes in the order of the index's name |
| Keys.IndexOfShape | persistence/leveldb_persistence.cc:105-125 | the index chosen for each of the sixteen shapes |
| Keys.LeadingRun | persistence/leveldb_persistence.cc:47-62 | the leading run of the chosen index covers exactly the bound components other than the one ignored for SO, SOC, OC, POC |
| Keys.ScanRange | persistence/leveldb_persistence.cc:105-178 | a stored key lies in the scanned byte range if and only if it agrees with the pattern on those components |
| Keys.ScanExactness | persistence/leveldb_persistence.cc:105-125 | the scan is exact on all bound components for all keys if and only if the shape is one of the other twelve |
| Keys.HitsWidened | persistence/leveldb_persistence.cc:105-125 | for all sixteen shapes a scan for a pattern is an exact scan for the pattern without its ignored component |
| Keys.MatchesAreFound | persistence/leveldb_persistence.cc:258-273 | a statement that `matches` agrees in all hashes, for every hash function, if and only if both spell their datatype alike |
| Keys.ComputeKey | persistence/leveldb_persistence.cc:47-62 | the buffer becomes the hashes of the leading non-null arguments, the rest untouched |
| Keys.OrderKey | persistence/leveldb_persistence.cc:69-75 | the four block copies produce the reordered key |
| LevelDb.LastWriteWins | persistence/leveldb_persistence.cc:530-548 | a batch leaves on each key its last write |
| LevelDb.RangeScan | persistence/leveldb_persistence.cc:235-247 | Seek and Next up to the high key list, in ascending order, exactly the keys in the closed range; stopped by the callback, a prefix of that listing |
| LevelDb.AscendingPrefix | persistence/leveldb_persistence.cc:666-668 | the comparator's order is total: an ascending listing of keys that precede the others is how the listing of all begins, so a listing is determined by its keys |
| Updates.BatchedAt | persistence/leveldb_persistence.cc:515-552 | after Update a key holds its last addition, unless it was stored at the start and a later removal scans it |
| Updates.InOrderAt | service/sail.proto:99-101 | in-order application: a key holds its last addition unless any later removal scans it |
| Updates.BatchedIsInOrder | persistence/leveldb_persistence.cc:515-552 | for the statement requests of any stream, Update equals in-order application if and only if no removal follows the last addition of an initially absent statement it scans |
| Updates.RemovalsFirstIsInOrder | persistence/leveldb_persistence.cc:515-552 | streams whose removals come first are applied in order |
| Updates.AddThenRemoveKeeps | service/sail.proto:99-101 | adding and removing a statement in one stream leaves it stored, where in-order application removes it |
| Namespaces.BatchKeepsWellKeyed | persistence/leveldb_persistence.cc:564-583 | every stream keeps each namespace under its own prefix and URI |
| Namespaces.AddKeepsInverse | persistence/leveldb_persistence.cc:564-572 | an addition keeps the two indexes mutually inverse if and only if prefix and URI are both free or bound to each other |
| Namespaces.RemoveKeepsInverse | persistence/leveldb_persistence.cc:574-583 | a removal keeps them mutually inverse |
| Namespaces.RebindingBreaksInverse | persistence/leveldb_persistence.cc:564-572 | rebinding a prefix leaves the old URI entry behind |
| Namespaces.StaleRemoval | persistence/leveldb_persistence.cc:338-369 | from inverse indexes, a removal expanded against an older store deletes the same entries |
| Namespaces.RemovalsFirstNsIsInOrder | persistence/leveldb_persistence.cc:515-529 | on inverse indexes, removals-first streams are applied in order |
| Namespaces.StaleIndexesBreakOrder | persistence/leveldb_persistence.cc:574-583 | on indexes that rebinding has left stale, a removals-first stream need not be applied in order |
| Namespaces.BatchedNsAt | persistence/leveldb_persistence.cc:515-548 | after Update an entry of either index holds its last binding, unless a later removal finds it in the store the stream began with |
| Namespaces.InOrderNsAt | service/sail.proto:99-101 | in-order application: an entry holds its last binding unless a later removal finds it at its turn |
| Namespaces.BatchedNsIsInOrder | persistence/leveldb_persistence.cc:515-548 | for any indexes and any stream, Update equals in-order application of the namespace requests if and only if no removal misreads an entry: missing one bound during the stream, or deleting one rebound since |
| Namespaces.PrefixIndexInOrder | persistence/leveldb_persistence.cc:515-548 | for removals by prefix, the prefix index is that of in-order application if and only if no removal follows the last binding of an initially free prefix |
| Namespaces.UriIndexInOrder | persistence/leveldb_persistence.cc:515-548 | and the URI index if and only if the removals after the last binding of each URI hit it at the start of the stream exactly if they hit it at their turn |
| Namespaces.PrefixRemovalsInOrder | persistence/leveldb_persistence.cc:515-548 | so both indexes together, the condition speaking of the requests and the starting store alone |
| Namespaces.RebindThenRemoveKeepsUri | service/sail.proto:99-101 | rebinding a prefix and removing it in one stream leaves the new URI entry and deletes the old, where in-order application does the opposite |
| Namespaces.AddThenRemoveKeepsNs | service/sail.proto:99-101 | adding and removing a namespace in one stream leaves it stored, where in-order application removes it |
| Namespaces.StaleRemovalTakesRebound | service/sail.proto:99-101 | from inverse indexes, a removal by URI deletes a prefix the stream has rebound, where in-order application keeps it |
| Namespaces.FoundEntries | persistence/leveldb_persistence.cc:338-369 | a lookup returns exactly the matching entries of the index it reads, a URI given with a prefix being ignored |
| Namespaces.FoundIsMatching | persistence/leveldb_persistence.cc:338-369 | on inverse indexes a lookup returns exactly the stored namespaces that match, if and only if it is not given a prefix and a URI other than the one bound to it |
| Namespaces.LookupIgnoresUri | persistence/leveldb_persistence.cc:344-351 | a lookup by prefix and another URI returns a namespace that does not match |
| Worlds.UpdateIsInOrder | persistence/leveldb_persistence.cc:510-562 | for statements and namespaces together, Update equals in-order application if and only if neither kind has a late removal |
| Worlds.ClientUpdateIsInOrder | persistence/leveldb_persistence.cc:510-562 | for streams that remove namespaces by prefix, the same with a condition on the requests and the starting store alone |
| Namespaces.RunKeepsInverse | persistence/leveldb_persistence.cc:515-529 | every run of removals-first streams with bindable additions keeps the indexes mutually inverse |
| Namespaces.OneNsRemovalIsInOrder | persistence/leveldb_persistence.cc:515-529 | removals-first streams with at most one namespace removal are applied in order whatever the indexes hold |
| Namespaces.EmptyPrefixClearsAll | persistence/leveldb_persistence.cc:344-368 | removing the empty prefix empties the prefix index |
| Indexes.CommitPermutes | persistence/leveldb_persistence.cc:600-614 | committing a permuted batch to a permuted index gives the permuted result |
| Indexes.CommitKeepsConsistent | persistence/leveldb_persistence.cc:530-542 | four batches grown in step keep the indexes permutations of one another with every value under its recomputed key |
| Persistence.AnswerKeys | persistence/leveldb_persistence.cc:455-470 | an answer lists every scanned key once |
| Persistence.LevelDBPersistence.StatementKeys | persistence/leveldb_persistence.cc:591-613 | the four buffers hold the statement's four keys |
| Persistence.LevelDBPersistence.AddStatement | persistence/leveldb_persistence.cc:586-620 | the four batches grow in step by one put under the statement's key |
| Persistence.LevelDBPersistence.QueryRange | persistence/leveldb_persistence.cc:130-147 | the two buffers hold the least and greatest key of the query |
| Persistence.LevelDBPersistence.GetStatements | persistence/leveldb_persistence.cc:424-470 | returns, in key order, what the chosen index holds in the query's range, or a prefix of it up to the callback's limit; with consistent indexes these are the stored statements whose keys the pattern hits, each once |
| Persistence.LevelDBPersistence.RemoveInto | persistence/leveldb_persistence.cc:623-664 | whatever state the indexes are in, the batches grow in step by the deletion of the keys of the statements scanned; with consistent indexes these are exactly the scanned keys, and the count is their number |
| Persistence.LevelDBPersistence.WriteAll | persistence/leveldb_persistence.cc:530-542 | the indexes stay consistent and the store becomes its overlay with the batch's effect |
| Persistence.LevelDBPersistence.AddStatements | persistence/leveldb_persistence.cc:386-421 | of the statements added under one key the last is stored, no other key changes, and all are counted; consistency is kept |
| Persistence.LevelDBPersistence.RemoveStatements | persistence/leveldb_persistence.cc:473-508 | exactly the scanned keys are gone and counted; consistency is kept |
| Persistence.LevelDBPersistence.Update | persistence/leveldb_persistence.cc:510-562 | statements and namespaces become the batched result, statistics count additions and scanned removals; consistency is kept |
| Persistence.StatisticsMean | persistence/leveldb_persistence.cc:515-529 | the statistics are the numbers of additions and bindings, and of pairs of a removal and a key it scans in the starting store; removed namespaces are reported as none |
| Persistence.LevelDBPersistence.GetNamespaces | persistence/leveldb_persistence.cc:338-369 | a namespace is returned if and only if the index read (URIs if only a URI is given, else prefixes) holds it and it agrees with the prefix or else the URI asked for |
| Persistence.LevelDBPersistence.AddNamespace | persistence/leveldb_persistence.cc:564-572 | both batches bind the namespace under its prefix and its URI |
| Persistence.LevelDBPersistence.RemoveNamespace | persistence/leveldb_persistence.cc:574-583 | both batches delete the prefixes and URIs of exactly the namespaces found in the committed store |
| Persistence.LevelDBPersistence.AddNamespaces | persistence/leveldb_persistence.cc:320-336 | in both indexes, of the namespaces added under one name the last is bound, no other entry changes, and all are counted |
| Persistence.LevelDBPersistence.Size | persistence/leveldb_persistence.cc:671-680 | counting the CSPO index gives the number of stored statements |
| Schedules.ReplaysAgree | persistence/leveldb_persistence.cc:530-552 | any number of operations that agree on common keys leave the same database under any two orders of their commits |
| Schedules.Disagreement | persistence/leveldb_persistence.cc:530-552 | operations that disagree on a key have two complete schedules with different results |
| Writers.ScheduleKeepsConsistent | persistence/leveldb_persistence.cc:530-552 | any number of operations that agree on common statement keys leave the indexes consistent under every interleaving of their threads, as if run one after the other |
| Writers.ConcurrentOperations | persistence/leveldb_persistence.cc:484-500 | any number of operations leave the four indexes consistent under all interleavings if and only if they agree on the statement keys they have in common |
| Writers.AddRacesRemove | persistence/leveldb_persistence.cc:484-500 | on every disk, adding a statement in one operation and removing it in another has a complete schedule that leaves the indexes inconsistent |
| Writers.Serialisable | persistence/leveldb_persistence.cc:530-552 | all six databases, the two namespace threads included: every interleaving leaves what the operations leave one after the other, if and only if they agree on common statement keys, prefixes and URIs |
| Writers.OneOperation | persistence/leveldb_persistence.cc:397-413 | every order of one operation's threads gives the sequential commit |
| Writers.UpdateUnderThreads | persistence/leveldb_persistence.cc:530-552 | so an update stream has its batched result, statements and namespaces, under every order of its six threads |
| Writers.ScheduleKeepsWellKeyed | persistence/leveldb_persistence.cc:543-548 | at every point of every schedule each namespace sits under its own prefix and URI |
| Concurrency.RunIsSchedule | persistence/leveldb_persistence.cc:510-562 | every run of operations that read and collect while others commit is a schedule of batches grown in step |
| Concurrency.EffectsRecorded | persistence/leveldb_persistence.cc:515-529 | in every run an operation's batches have the effect of the requests it collected, removals deleting what they read |
| Concurrency.QuietCollects | persistence/leveldb_persistence.cc:515-529 | if nobody commits during its reads, that is the effect of Update's batches for its requests |
| Concurrency.AloneIsUpdate | persistence/leveldb_persistence.cc:510-562 | a complete run of one operation is Update of the requests it collected, under every order of its threads |
| Concurrency.ConcurrentRun | persistence/leveldb_persistence.cc:510-562 | at every point of every such run namespaces are well keyed, and at its end the indexes are consistent, as if the operations had committed one after the other, if the batches agree on common keys |
| Concurrency.OneKindNeverConflicts | persistence/leveldb_persistence.cc:386-421 | in particular in every run of operations that only add, or only remove, statements |
| Service.SizeCountsRepeats | persistence/leveldb_service.cc:176-189 | Size of a list is at least the number of statements in it, equal when the contexts hash differently |
| Service.ClearedDrop | persistence/leveldb_service.cc:151-169 | what Clear answers, for every list of contexts, is the drop in size |
| Service.SizeMeans | persistence/leveldb_service.cc:171-193 | what Size answers, and the proxy adds up, is that number |
| Service.ClearMeans | persistence/leveldb_service.cc:151-169 | what Clear leaves, and the proxy's backends hold parts of, is that store |
| Service.ListedMeansContext | persistence/leveldb_service.cc:158-162 | statements of a listed context are cleared, and only those if their context collides with no listed one |
| Service.ObjectIgnored | persistence/leveldb_persistence.cc:105-125 | a subject-object query, with a context or without, reports, and a removal deletes, statements with any other object |
| Service.ContextIgnored | persistence/leveldb_persistence.cc:105-125 | an object-context query, with a predicate or without, reports, and a removal deletes, statements of any other context |
| Service.InsertCounts | model/rdf_operators.h:192-202 | the hash set holds a set resource once and gains an unset one at every insertion |
| Service.LevelDBService.Clear | persistence/leveldb_service.cc:151-169 | without a list the store is emptied and its size returned; with one exactly the keys with a listed context hash are gone and the count is the drop in size, repeats included |
| Service.LevelDBService.Size | persistence/leveldb_service.cc:171-193 | without a list the number of statements; with one the number of pairs of a listed position and a stored key with that context hash |
| Service.LevelDBService.GetContexts | persistence/leveldb_service.cc:196-213 | each set context in use exactly once, an empty one once per statement carrying it |
| Service.LevelDBService.HasStatement | persistence/leveldb_sparql.cc:65-89 | true if and only if the scan meets a statement, although it stops at the first |
| Shards.UpdateRefines | sharding/sharding.cc:259-277 | if keys decide shards and each backend holds its part of a store, it holds its part of the updated store after its share of any stream |
| Shards.RefinementCondition | sharding/sharding.cc:259-277 | that refinement holds for all streams and backends if and only if keys decide shards |
| Shards.ConflictBreaksRefinement | sharding/sharding.cc:263-266 | two statements under one key on different backends are both kept by the shards |
| Shards.KeysIdentify | persistence/leveldb_persistence.cc:595-601 | without hash collisions, well-formed statements under the same key are equal |
| Shards.CollisionFreeDecides | sharding/sharding.cc:179-182 | so keys decide shards for well-formed statements |
| Shards.EmptyContextSharesKey | persistence/leveldb_persistence.cc:598-601 | an absent and an empty context give the same key but different bytes to route by |
| Shards.IllFormedBreaksRefinement | sharding/sharding.cc:263-266 | for every key hash and every statement without context there is a string hash for which adding it and its twin with an empty context breaks the refinement |
| Shards.RemoveRefines | sharding/sharding.cc:235-240 | removing on every backend removes what the single store removes |
| Shards.NamespacesReplicated | sharding/sharding.cc:267-272 | every backend's namespaces become the single store's |
| Shards.ScanCountsAddUp | sharding/sharding.cc:235-240 | the backends' removal counts add up to the single store's |
| ShardingProxy.SizeAnswersAddUp | sharding/sharding.cc:297-302 | for every list of contexts, the backends' answers to Size add up to the single store's |
| ShardingProxy.ClearAnswersAddUp | sharding/sharding.cc:290-295 | and so do their answers to Clear |
| ShardingProxy.ClearRefines | sharding/sharding.cc:290-295 | Clear on every backend leaves each its part of the cleared store |
| ShardingProxy.ReportedTotals | sharding/sharding.cc:279-284 | reported statement totals are the single store's, added namespaces are n times it |
| ShardingProxy.ShardingService.Route | sharding/sharding.cc:259-273 | the loop gives each backend, in order, the additions whose hash leaves its number as remainder and everything else |
| ShardingProxy.ShardingService.Update | sharding/sharding.cc:243-288 | the backends afterwards hold exactly the single store's result, and the totals are as above |
| ShardingProxy.ShardingService.RemoveStatements | sharding/sharding.cc:235-240 | likewise for removal, with the backends' counts as responses |
| ShardingProxy.ShardingService.GetNamespaces | sharding/sharding.cc:146-160 | the answer does not depend on the backend chosen |
| ShardingProxy.ShardingService.AddNamespaces | sharding/sharding.cc:102-133 | every backend's namespaces become the single store's, and the count reported, the first backend's, is the number sent |
| Gather.MergeConserves | sharding/sharding.cc:204-221 | at every point of every interleaving, what is written is what has been read, counted per statement |
| Gather.GatheredAnswers | sharding/sharding.cc:196-233 | under every interleaving the proxy emits the single store's statements as a multiset, never more before the end |
| Fanout.EndsAsPartialSum | sharding/sharding.cc:64-80 | in every interleaving of loads and stores the sum covers some of the responses, the last storer's included |
| Fanout.NothingLostIff | sharding/sharding.cc:64-80 | no response is lost if and only if no two load-store windows overlap |
| Fanout.FullSum | sharding/sharding.cc:64-80 | the result is the true total without overlap, and lacks a response with one |
| Fanout.OverlapLoses | sharding/sharding.cc:64-80 | two threads that both load before either stores end with the second response alone |
| Fanout.RemovedCount | sharding/sharding.cc:235-240 | the reported removal count never exceeds the true one and equals it without overlap |
| Fanout.ReportedSize | sharding/sharding.cc:297-302 | so does the reported size, for every list of contexts |
| Fanout.ReportedClear | sharding/sharding.cc:290-295 | and the reported count of Clear |
| Fanout.NoOverlapMeans | sharding/sharding.cc:64-80 | in a legal run, no store inside another thread's window means that no two windows overlap |
| Connection.StepInOrder | java/client/src/main/java/org/apache/marmotta/cmarmotta/sail/CMarmottaSailConnection.java:251-278 | every operation acts at once on the client's view, keeps the stream removals-first, and a read finds the view on the server |
| Connection.ReadsSeeAllUpdates | java/client/src/main/java/org/apache/marmotta/cmarmotta/sail/CMarmottaSailConnection.java:258-278 | at every read of every sequence of operations the server's store is all earlier operations applied one by one |
| Connection.CMarmottaSailConnection.EnsureTransaction | java/client/src/main/java/org/apache/marmotta/cmarmotta/sail/CMarmottaSailConnection.java:251-256 | opens a stream only if none is open |
| Connection.CMarmottaSailConnection.CommitInternal | java/client/src/main/java/org/apache/marmotta/cmarmotta/sail/CMarmottaSailConnection.java:266-278 | the server's store is updated by the whole stream, which is then closed |
| Connection.CMarmottaSailConnection.CommitForQuery | java/client/src/main/java/org/apache/marmotta/cmarmotta/sail/CMarmottaSailConnection.java:258-263 | the step of a read |
| Connection.CMarmottaSailConnection.AddStatement | java/client/src/main/java/org/apache/marmotta/cmarmotta/sail/CMarmottaSailConnection.java:83-98 | the step of an addition, one request per context |
| Connection.CMarmottaSailConnection.RemoveStatements | java/client/src/main/java/org/apache/marmotta/cmarmotta/sail/CMarmottaSailConnection.java:287-303 | the step of a removal: flush, then one request per context |
| Connection.CMarmottaSailConnection.ClearStatements | java/client/src/main/java/org/apache/marmotta/cmarmotta/sail/CMarmottaSailConnection.java:306-322 | the step of a clear |
| Connection.CMarmottaSailConnection.SetNamespaceUri | java/client/src/main/java/org/apache/marmotta/cmarmotta/sail/CMarmottaSailConnection.java:350-358 | the step of a namespace addition |
| Connection.CMarmottaSailConnection.RemoveNamespaceOf | java/client/src/main/java/org/apache/marmotta/cmarmotta/sail/CMarmottaSailConnection.java:361-369 | the step of a namespace removal |
| Connection.CMarmottaSailConnection.ClearAllNamespaces | java/client/src/main/java/org/apache/marmotta/cmarmotta/sail/CMarmottaSailConnection.java:372-380 | the step of clearing the namespaces |
| ResponseStream.StepKeeps | java/client/src/main/java/org/apache/marmotta/cmarmotta/sail/ClosableResponseStream.java:71-105 | every step of either thread keeps the credit invariant: requests plus buffered plus held messages are one, two inside next() |
| ResponseStream.RunKeeps | java/client/src/main/java/org/apache/marmotta/cmarmotta/sail/ClosableResponseStream.java:35-47 | so does every run from the constructor on |
| ResponseStream.NeverOverflows | java/client/src/main/java/org/apache/marmotta/cmarmotta/sail/ClosableResponseStream.java:129-144 | the queue holds at most one message and `buffer.add` always finds room |
| ResponseStream.ReturnsPrefix | java/client/src/main/java/org/apache/marmotta/cmarmotta/sail/ClosableResponseStream.java:93-105 | what next() returned is a prefix of what was delivered, at most one message behind it, inside next() at most two |
| ResponseStream.AllReturned | java/client/src/main/java/org/apache/marmotta/cmarmotta/sail/ClosableResponseStream.java:71-105 | once the end marker or an error is taken, everything delivered has been returned |
| ResponseStream.NeverStarves | java/client/src/main/java/org/apache/marmotta/cmarmotta/sail/ClosableResponseStream.java:71-84 | a consumer blocked in hasNext() has a request outstanding on an open call and has returned everything delivered |
| ResponseStream.OutcomeIsFinal | java/client/src/main/java/org/apache/marmotta/cmarmotta/sail/ClosableResponseStream.java:71-84 | after the end marker or an error only hasNext() can happen, with the same outcome, taking nothing |
| ResponseStream.OutcomeIsReported | java/client/src/main/java/org/apache/marmotta/cmarmotta/sail/ClosableResponseStream.java:135-144 | the call is closed at most once; a normal end is reported exactly if its status was success, and otherwise that status |
| ResponseStream.CapacityIsNeeded | java/client/src/main/java/org/apache/marmotta/cmarmotta/sail/ClosableResponseStream.java:129-144 | a message and the marker behind it fill the queue |
| ResponseStream.ClosableResponseStream.OnMessage | java/client/src/main/java/org/apache/marmotta/cmarmotta/sail/ClosableResponseStream.java:130-133 | the delivery step, never refused by the queue |
| ResponseStream.ClosableResponseStream.OnClose | java/client/src/main/java/org/apache/marmotta/cmarmotta/sail/ClosableResponseStream.java:136-144 | the close step, never refused by the queue |
| ResponseStream.ClosableResponseStream.HasNext | java/client/src/main/java/org/apache/marmotta/cmarmotta/sail/ClosableResponseStream.java:71-84 | the hasNext step and what it reports |
| ResponseStream.ClosableResponseStream.BeginNext | java/client/src/main/java/org/apache/marmotta/cmarmotta/sail/ClosableResponseStream.java:93-98 | the first half of next(), up to the request, after which callbacks may run |
| ResponseStream.ClosableResponseStream.EndNext | java/client/src/main/java/org/apache/marmotta/cmarmotta/sail/ClosableResponseStream.java:99-105 | the second half, which hands out the held message whatever callbacks ran in between |
| ResponseStream.ClosableResponseStream.Receive | java/client/src/main/java/org/apache/marmotta/cmarmotta/sail/ClosableResponseStream.java:129-144 | any sequence of callbacks gRPC may make |
| ResponseStream.ClosableResponseStream.Next | java/client/src/main/java/org/apache/marmotta/cmarmotta/sail/ClosableResponseStream.java:93-105 | whatever callbacks run between its request and its return, next() hands out the next message, or nothing at the end, and keeps the invariant |
| Reference.HashesDecide | persistence/leveldb_persistence.cc:258-273 | for proper statements without collisions, agreeing in every bound hash is `matches` |
| Reference.ScanIsMatching | persistence/leveldb_persistence.cc:424-452 | for all sixteen shapes a scan meets exactly the statements that match the pattern without its ignored component |
| Reference.InOrderIsSet | persistence/leveldb_persistence.h:117-128 | in-order application on keys is in-order application on the plain set, removals of all shapes being read as scans read them |
| Reference.ReadingsAgree | persistence/leveldb_persistence.h:117-121 | the two readings of removals give the same set if and only if no removal takes, after its last addition, a statement that no removal since then matches |
| Reference.RequestsMeanOp | java/client/src/main/java/org/apache/marmotta/cmarmotta/sail/CMarmottaSailConnection.java:83-98 | the requests an operation sends do to the set what the operation means: one statement per context added, and every statement meant in some listed context removed |
| Reference.ReadsSeeStatements | java/client/src/main/java/org/apache/marmotta/cmarmotta/sail/CMarmottaSailConnection.java:206-227 | at every read the server holds exactly the set that the session's operations leave under the scanning reading, and that of the documented reading if and only if nothing was removed in excess |
| Reference.ReadsSeeNamespaces | java/client/src/main/java/org/apache/marmotta/cmarmotta/sail/CMarmottaSailConnection.java:325-380 | at every read the prefix index is the dictionary that the session's namespace operations describe, and getNamespace and getNamespaces answer from it |
| Reference.FilteredScan | persistence/leveldb_persistence.cc:258-273 | a scan filtered with `matches` is exact for all sixteen shapes with no assumption on collisions |
| EndToEnd.RunSplits | sharding/sharding.cc:243-288 | a connection to the proxy goes through the single store's states, split among the backends |
| EndToEnd.ShardedReadsSeeAllUpdates | sharding/sharding.cc:243-288 | at every read the backends hold their parts of all earlier operations applied in order, and all namespaces |
| EndToEnd.ShardedReadsSeeStatements | sharding/sharding.cc:243-288 | at every read the backends together hold exactly that set, and the documented one if and only if nothing was removed in excess |
| EndToEnd.ShardedReadReturns | sharding/sharding.cc:196-233 | under every interleaving a read through the proxy returns exactly the statements of that set that match the pattern without its ignored component, each once |
| EndToEnd.ShardedReadsSeeNamespaces | sharding/sharding.cc:136-160 | at every read through the proxy the same holds of whichever backend it picks |
| EndToEnd.NearbyTermsKeepApart | persistence/leveldb_persistence.cc:47-62 | statements with a component of equal serialised length differing within one 16-byte block have different production keys |
| EndToEnd.ShortTermsKeepApart | persistence/leveldb_persistence.cc:47-62 | so have statements with distinct components of equal serialised length up to 16 bytes |
| EndToEnd.PaddedTermsKeepApart | persistence/leveldb_persistence.cc:47-62 | so have statements one of whose components serialises like the other's with zeros appended within the last block |
| EndToEnd.EmptyTermKey | persistence/leveldb_persistence.cc:47-62 | the key block of an absent component, under the production seed |

## Left out

- LevelDB's cache, bloom filter, recovery and failed writes: a database is a map with ordered iteration and atomic batches, and a failed CHECK ends the process.
- Protobuf's own parser: stored values are the messages themselves, which the round trips of `Wire` justify; its parser reads what the encoder writes, by the public proto3 rules, and not messages with both fields of a oneof or with repeated message fields.
- Namespace messages in `Wire`: two string fields, like StringLiteral.
- gRPC channels, server start-up, flags, logging and timing: no state worth proving.
- MurmurHash3_x86_32 and x86_128: `computeKey` uses the x64 variant on x86-64, and the others would repeat its argument.
- Serialised terms longer than 2^31 - 1 bytes: the source passes their length as a C int; `EndToEnd.TermHash` gives them an arbitrary value.
- Counters are unbounded integers where the source has int64.
- Updates.InOrder: a removal means what the scan means, so for the four inexact shapes it removes more than `matches` would; `Reference.ReadingsAgree` says when that shows.
- Update and RemoveStatements as methods run without interruption; `Concurrency` has their reads and commits interleaved with those of others.
- ShardingService::GetContexts: its threads are never joined, so no result can be stated.
- ShardingService::AddStatements: routes as Update does.
- LevelDBPersistence::AddNamespaces under `Writers`: it writes its two databases one after the other, which is one of the schedules considered.
- LevelDBService::GetNamespace and the streaming of namespaces: one lookup each, over `GetNamespaces`.
- Thread interruption in the response stream.
- Rollback and the per-context iterators opened on demand in the Java client: their outcome depends on gRPC cancellation and on when the caller iterates.
- The base class's transaction tracking: `active` is assumed to hold while a stream is open, as the update methods' precondition says.
- The SPARQL iterator wrapper in `persistence/leveldb_sparql.cc`, whose `parsed` flag starts uninitialised, and the Raptor and Rasqal bindings: thin wrappers over libraries not part of this model.
- Changing the number or order of backends: excluded by the system's own documentation.
- The command-line client, value wrappers, web application and build files: no protocol or store logic.
