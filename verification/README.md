# BGPulse in Dafny

BGPulse detects BGP route leaks and prefix hijacks. This project models the five parts of its backend
that keep state or run an algorithm, and the browser's copy of the edge map, and proves what each of
them is for.

- **Origin validation** (`Prefixes`, `Tries`, `Rpki`). A mutable binary trie on the heap, grown one VRP
  at a time, answers exactly as the definition in section 2 of RFC 6811 over the set of VRPs it accepted.
- **RTR client** (`RtrCodec`, `RtrLayout`, `RtrClient`, `RtrSession`, `RtrAgreement`, `RtrRuns`,
  `RtrInterruption`). The byte-level codec of section 5 of RFC 8210 with its round trips and its layouts in
  literal bytes, the session loop, when it ends for good and its atomic commit, the agreement of router and
  cache over every run, through delta and full answers, cache resets, failures and reconnects (section 8), and
  exactly what becomes of it when the cache or the timer interrupts an answer.
- **Relationships and the valley-free walk** (`Relationships`, `ValleyFree`, `Classify`). The two-phase
  walk accepts exactly a regular language, pinpoints the first violation, and does not depend on
  prepending or direction; `Classify` puts it after origin validation.
- **Synthetic stream** (`SynthTopology`, `SynthBuilder`, `SynthGenerator`, `SynthDemo`). For every random
  choice and every length, the real classifier gives each event of the stream the verdict its slot is
  scheduled for.
- **Aggregator and browser** (`EventRing`, `RingCounters`, `GraphModel`, `GraphHistory`, `GraphRib`,
  `GraphCounters`, `GraphHeap`, `Ordering`, `Views`, `Aggregator`, `ViewsHistory`, `GraphStore`). Everything
  the single writer keeps, and every snapshot it hands out, is a function of the event history, row by row and
  in a fixed order, and the browser's edges stay those of the backend.
- **WebSocket hub** (`WsHub`). Which frames are broadcast is decided by the events alone, and the bounded drop-oldest
  queues deliver them in order under every interleaving with the clients' writers.

`Bgp`, `Sums` and `Quotients` hold the domain types, sums over finite maps, and two facts of division.

Code that updates objects is modelled by classes and methods with loops, each proved against a
specification function; the lemmas are then about those functions. Randomness is an arbitrary value in
range, time is an integer, a map is walked in arbitrary order, a channel is the sequence it holds, and
another goroutine's moves are a method that does any number of its steps.

Three disagreements between the code and its own comments were settled by the code. The field comment at
`backend/internal/topology/graph.go:48` calls an edge's status the worst one seen recently; `upsertEdge`
stores the latest one, and so does the model. The note at `backend/internal/rtr/client.go:94-95` describes
updates driven by notifications and the timer without saying that either drops an answer in progress.
For any answer, full table or delta, `RtrInterruption.InterruptedAnswer` gives the exact condition under
which the commit of the interrupted answer is right, and the one for the commit of the delta then asked
for; three runs show the conditions failing. And the promise of RFC 6811 at
`backend/internal/rpki/store.go:44-49` is kept, for all stores and origins, exactly for prefixes that are not
IPv4-mapped (`Rpki.AgreesExactlyOnNative`): the code takes a mapped one for an IPv4 prefix of the same length,
and panics exactly when that is longer than 32 bits and a VRP for its one IPv4 address is stored.

## Model

| member | source | states |
|---|---|---|
| Relationships.RelStore.LookupIsInversionSymmetric | backend/internal/relationships/store.go:34-52 | for all pairs the two ends of a link have opposite views, a stored pair or not |
| Relationships.RelStore.InNeighbors | backend/internal/relationships/store.go:54-61 | the neighbours read off the edges are exactly the ASes an edge joins to this one |
| Relationships.Builder.constructor | backend/internal/relationships/store.go:72-78 | an empty builder keeps the invariant: neighbour sets are those of the edges, and their sizes add up to twice the edge count |
| Relationships.Builder.Add | backend/internal/relationships/store.go:84-105 | the whole new edge map and the exact refusal (self-pair or conflict), and the degree invariant is kept |
| Relationships.Builder.Link | backend/internal/relationships/store.go:101-103 | a new edge puts each end among the other's neighbours and moves the sum of degrees by two |
| Relationships.Builder.AddNeighbor | backend/internal/relationships/store.go:107-114 | one AS more among one AS's neighbours, nothing else changed |
| Relationships.Builder.SetName | backend/internal/relationships/store.go:117-121 | the last non-empty name wins, an empty name changes nothing |
| Relationships.Builder.Build | backend/internal/relationships/store.go:124-130 | the degrees of the sealed store are the numbers of distinct neighbours and sum to twice Size |
| Relationships.AddIsFaithful | backend/internal/relationships/store.go:84-105 | through Lookup: an accepted add shows from both ends and changes no other pair, a refused one changes nothing |
| Relationships.AcceptedFactStays | backend/internal/relationships/store.go:94-100 | no sequence of later adds overwrites an accepted fact |
| Relationships.FirstFactWins | backend/internal/relationships/store.go:80-105 | after any sequence of adds a pair has the relationship of its first valid fact |
| Relationships.LinkAdded | backend/internal/relationships/store.go:101-103 | the neighbour sets stay those of the edges, and the degree sum stays twice the edge count |
| Relationships.NeighborAdded | backend/internal/relationships/store.go:107-114 | adding a neighbour not yet there raises the degree sum by exactly one |
| ValleyFree.DedupeConsecutive | backend/internal/valleyfree/classifier.go:73-85 | the loop collapses every run of one ASN, as the specification Dedupe does |
| ValleyFree.BuildHops | backend/internal/valleyfree/classifier.go:89-105 | one hop per adjacency with its relationship; the known count and the unknown flag tell the same story |
| ValleyFree.FindValley | backend/internal/valleyfree/classifier.go:110-133 | the two-phase backward loop finds the break nearest the origin as defined without phases, or -1 when no hop breaks |
| ValleyFree.ValleyHop | backend/internal/valleyfree/classifier.go:107-133 | a hop is returned exactly when the path has a valley; it breaks, and none nearer the origin does |
| ValleyFree.ClassifyPath | backend/internal/valleyfree/classifier.go:50-69 | the verdict the definition of a valley gives, with AS_SET paths and single ASes never leaks |
| ValleyFree.AllKnown | backend/internal/valleyfree/classifier.go:94-103 | the known count equals the number of hops exactly when no hop is unknown |
| ValleyFree.NoneKnown | backend/internal/valleyfree/classifier.go:94-103 | the known count is zero exactly when every hop is unknown |
| ValleyFree.WalkAcceptsExactlyTheLanguage | backend/internal/valleyfree/classifier.go:5-15 | no leak if and only if the moves, origin first, siblings and unknowns erased, are provider* peer? customer* |
| ValleyFree.FirstBreakIsShortest | backend/internal/valleyfree/classifier.go:107-133 | the flagged hop ends the shortest propagation prefix that leaks |
| ValleyFree.LeakIsPinpointed | backend/internal/valleyfree/classifier.go:61-67 | a leak flags exactly one hop, the offender is its far end, and the reason is provider or peer exactly as the next AS is one to the offender |
| ValleyFree.NoLeakNoOffender | backend/internal/valleyfree/classifier.go:53-59 | without a leak no hop is flagged, nobody is blamed and no reason is given |
| ValleyFree.DedupeConcat | backend/internal/valleyfree/classifier.go:73-85 | deduping a concatenation is the two dedupes joined, with an AS on both sides of the seam kept once |
| ValleyFree.PrependingIsInvisible | backend/internal/valleyfree/classifier.go:71-85 | repeating an AS in place changes nothing of the verdict |
| ValleyFree.SubPathOfNonLeak | backend/internal/valleyfree/classifier.go:110-133 | every contiguous part of a path that does not leak does not leak |
| ValleyFree.ExtensionKeepsOffender | backend/internal/valleyfree/classifier.go:110-133 | extending a leak toward the collector keeps the leak, the offender and the reason |
| ValleyFree.ReversalPreservesLeak | backend/internal/valleyfree/classifier.go:110-133 | with an inversion-symmetric oracle a path and its reverse leak together |
| Prefixes.MaskedBit | backend/internal/rpki/store.go:34-42 | masking keeps exactly the leading bits and clears the rest, bit by bit |
| Prefixes.MaskedTwice | backend/internal/rpki/store.go:107-107 | masking is idempotent, and makes no prefix valid or invalid |
| Prefixes.SameBytes | backend/internal/rpki/store.go:34-42 | addresses with the same bits are the same bytes |
| Prefixes.MaskedByBits | backend/internal/rpki/store.go:107-107 | two valid prefixes mask alike if and only if they agree in family, length and leading bits |
| Tries.MakeRoot | backend/internal/rpki/store.go:126-128 | a fresh root joins the tree at the empty path of its family, and the tree still stands for the same VRPs |
| Tries.MakeChild | backend/internal/rpki/store.go:131-134 | a fresh child joins the tree one bit further, without disturbing any other node |
| Tries.Append | backend/internal/rpki/store.go:137-137 | one VRP more at one key, all other keys unchanged |
| Tries.AtKey | backend/internal/rpki/store.go:15-20 | one step: a pointer at a key is null exactly off the tree, and its children are at the key's two extensions |
| Tries.ParentInTree | backend/internal/rpki/store.go:15-20 | a key in the tree has its parent in the tree |
| Tries.PrefixInTree | backend/internal/rpki/store.go:15-20 | a path in the tree is in it from the start |
| Tries.PathReaches | backend/internal/rpki/store.go:15-20 | following the pointers along any bits from a node, the roots among them, reaches the node of the longer path, and null exactly when that path is off the tree |
| Rpki.RefusedWhen | backend/internal/rpki/store.go:103-118 | Add refuses exactly invalid prefixes and maximum lengths outside the prefix length and the family's maximum |
| Rpki.OnlyLeadingBitsMatter | backend/internal/rpki/store.go:61-75 | status, covering VRPs and best match depend only on the family, the length and the leading bits |
| Rpki.TooSpecificIsInvalid | backend/internal/rpki/vrp.go:1-8 | covered but more specific than every covering VRP allows is Invalid, not NotFound |
| Rpki.CoverIsAncestor | backend/internal/rpki/store.go:44-49 | a prefix covers another exactly when its trie key lies on the other's path |
| Rpki.CoveringHere | backend/internal/rpki/store.go:63-70 | the VRPs at one depth of the descent are exactly the covering VRPs of that length |
| Rpki.PathInTree | backend/internal/rpki/store.go:129-136 | the path of a stored covering VRP is in the tree as far as the VRP's length |
| Rpki.NothingBelow | backend/internal/rpki/store.go:63-75 | where the descent falls off the tree no longer VRP covers the announcement |
| Rpki.ScanNode | backend/internal/rpki/store.go:64-70 | the inner loop counts the distinct VRPs here and keeps a match of maximal length |
| Rpki.VRPStore.Descend | backend/internal/rpki/store.go:61-75 | the descent counts all covering VRPs of the store and ends with a best match if there is any, or panics exactly when the length exceeds the address and the trie goes all the way down it |
| Rpki.GatheredAnswers | backend/internal/rpki/store.go:77-84 | what the descent gathered decides Valid, Invalid or NotFound as the definition does |
| Rpki.VRPStore.Validate | backend/internal/rpki/store.go:50-85 | for every store and every announcement: the RFC 6811 status over the flat set for native prefixes, the status of the IPv4 prefix of the same length for IPv4-mapped ones, the number of distinct covering VRPs and a matching VRP of maximal length; it panics exactly for a mapped prefix longer than 32 bits for whose address a full-length IPv4 VRP is stored |
| Rpki.VRPStore.OffTheTree | backend/internal/rpki/store.go:63-75 | a descent that falls off the tree never reaches the depth at which it would panic |
| Rpki.VRPStore.HostRouteIsDeepest | backend/internal/rpki/store.go:35-38 | the IPv4 trie has a node 32 bits down an address if and only if a VRP for that one address is stored |
| Rpki.HostRoutePanics | backend/internal/rpki/store.go:63-75 | a stored a.b.c.d/32 makes every announcement of ::ffff:a.b.c.d longer than 32 bits panic |
| Rpki.MappedMeans | backend/internal/rpki/store.go:54-67 | the prefixes taken for IPv4-mapped ones are exactly the mapped forms ::ffff:a.b.c.d of IPv4 addresses, at any length |
| Rpki.LeadsEnd | backend/internal/rpki/store.go:130-137 | after an insertion every node of the trie is on the way to a stored VRP |
| Rpki.MappedNeverValid | backend/internal/rpki/store.go:54-67 | an IPv4-mapped announcement longer than 32 bits is Invalid if an IPv4 VRP covers its address and NotFound otherwise, whatever the IPv6 VRPs say |
| Rpki.MappedAgreesWhen | backend/internal/rpki/store.go:54-67 | for one store and a mapped announcement longer than 32 bits: the code and RFC 6811 agree if and only if no VRP matches it, and IPv4 VRPs cover its address just when IPv6 ones cover it |
| Rpki.MappedMisjudged | backend/internal/rpki/store.go:54-58 | for every mapped announcement of a known origin a VRP that RFC 6811 lets make it Valid and the code does not find |
| Rpki.AgreesExactlyOnNative | backend/internal/rpki/store.go:44-58 | the code gives the status of RFC 6811 for all stores and all origins if and only if the prefix is not an IPv4-mapped one |
| Rpki.Builder.constructor | backend/internal/rpki/store.go:97-99 | the empty builder stands for the empty set |
| Rpki.Builder.Add | backend/internal/rpki/store.go:103-140 | the set the trie stands for gains exactly the masked VRP if it is in range, once however often it is added, and the refusal is exact |
| Rpki.Builder.Insert | backend/internal/rpki/store.go:126-138 | the insertion loop leaves a well-formed trie that stands for one VRP more |
| Rpki.Builder.RootNode | backend/internal/rpki/store.go:126-129 | the root of a family, made on demand, with the stored set unchanged |
| Rpki.Builder.ChildNode | backend/internal/rpki/store.go:130-136 | the child for a bit, made on demand, with the stored set unchanged |
| Rpki.Builder.PutAt | backend/internal/rpki/store.go:137-138 | appending at the VRP's own key makes the trie stand for one VRP more |
| Rpki.Builder.Build | backend/internal/rpki/store.go:143-145 | the sealed store stands for exactly the accepted VRPs, and its size is their number |
| RtrCodec.Integer16 | backend/internal/rtr/codec.go:12-12 | big-endian 16-bit integers and pairs of bytes determine each other |
| RtrCodec.Integer32 | backend/internal/rtr/codec.go:12-12 | big-endian 32-bit integers and four bytes determine each other |
| RtrCodec.Reader.ReadFull | backend/internal/rtr/codec.go:17-19 | a full read takes exactly its bytes, a short one uses up the stream and fails |
| RtrCodec.ReadHeader | backend/internal/rtr/codec.go:15-30 | the header and the length guard, as the pure decoder of streams has them |
| RtrCodec.ReadPDU | backend/internal/rtr/codec.go:33-81 | reading from a reader is the pure decoder: same PDU or error, same bytes left; no index outside the body |
| RtrCodec.ReadStream | backend/internal/rtr/client.go:111-126 | the read loop returns the PDUs of the stream up to the first failure |
| RtrCodec.RoundTrip | backend/internal/rtr/codec.go:135-204 | reading an encoded PDU followed by anything returns it, its prefix masked, and leaves exactly what follows |
| RtrCodec.StreamRoundTrip | backend/internal/rtr/codec.go:33-81 | the encodings of any list of PDUs before any tail read back as that list, and what comes after is read as the tail alone |
| RtrCodec.WholeStreamRoundTrip | backend/internal/rtr/codec.go:33-81 | a stream of encoded PDUs reads back in order, ends with a clean end of file and leaves no byte |
| RtrLayout.Layout | backend/internal/rtr/codec.go:135-204 | every PDU the package writes, byte by byte in numbers: version, type codes, most significant byte first, fields in their order |
| RtrLayout.ErrorReportReads | backend/internal/rtr/codec.go:115-131 | an error report of any code, with any enclosed PDU and text, is read as its code and its text |
| RtrLayout.OtherTypesRead | backend/internal/rtr/codec.go:74-79 | router keys are skipped with their body, and the types 5 and 11 to 255 refused |
| RtrLayout.ShortBodiesRefused | backend/internal/rtr/codec.go:43-95 | bodies shorter than their type needs are refused, after they have been read |
| RtrLayout.LengthsRefused | backend/internal/rtr/codec.go:15-29 | a length below 8 or above 1048576 is refused right after the header |
| RtrCodec.ReencodeRestoresCanonical | backend/internal/rtr/codec.go:86-113 | re-encoding a prefix PDU restores the bytes it was read from if and only if they are in canonical form |
| RtrClient.Live.Validate | backend/internal/rpki/live.go:27-29 | answers as the store in place now does, by RFC 6811 for native prefixes, and panics exactly when that store makes it |
| RtrClient.Live.Replace | backend/internal/rpki/live.go:32-36 | swaps the store, ignores a nil one |
| RtrClient.BuildStore | backend/internal/rtr/client.go:182-186 | whatever order the table is walked in, the fresh store stands for the table's in-range records |
| RtrClient.WalkStep | backend/internal/rtr/client.go:183-185 | one record more of the walk adds exactly its in-range part |
| RtrClient.Client.Commit | backend/internal/rtr/client.go:170-187 | the new table, and a fresh store that answers as its in-range part; the store swapped out still stands for what it did |
| RtrClient.Client.Finish | backend/internal/rtr/client.go:134-140 | End Of Data commits and takes over session, serial and a positive refresh time |
| RtrClient.Client.Handle | backend/internal/rtr/client.go:115-160 | one turn of the loop is one step of the protocol's state machine, of which RtrSession says when it ends, asks and changes: new state, query sent, end of session |
| RtrClient.Client.Session | backend/internal/rtr/client.go:96-162 | a connection, including failed dials, failed writes and timeouts, runs the state machine from a Reset Query on, and ends for good exactly as SessionEndsFatal says |
| RtrClient.Client.Run | backend/internal/rtr/client.go:63-87 | any number of connections, carrying the state over, up to the first that meets an error report of code 4 |
| RtrSession.EndsWhen | backend/internal/rtr/client.go:115-160 | an input ends a session for good if and only if it is an error report of code 4, with its code for any other, and otherwise only by a failed read, a timeout before the first serial, or a query that cannot be written |
| RtrSession.AsksWhen | backend/internal/rtr/client.go:118-152 | which inputs make the client ask, for what, and that asking drops the pending changes |
| RtrSession.ChangesWhen | backend/internal/rtr/client.go:129-152 | session, serial and refresh timer come from exactly the PDUs that carry them, a zero refresh changing nothing |
| RtrSession.SessionEndsFatal | backend/internal/rtr/client.go:153-157 | a whole session ends for good if and only if the input that ends it is an error report of code 4 |
| RtrSession.GivesUpExactlyWhen | backend/internal/rtr/client.go:63-87 | over any connections the client gives up exactly at the first version error and otherwise goes on from the state it has got to |
| RtrSession.OtherErrorsAreRetried | backend/internal/rtr/client.go:74-77 | a connection that only brings an error report of another code changes nothing of what the client ends with |
| RtrAgreement.LiveChangesOnlyAtEndOfData | backend/internal/rtr/client.go:128-160 | only End Of Data changes the live store, and then to the table's in-range part |
| RtrAgreement.TraceEndsSession | backend/internal/rtr/client.go:111-161 | the trace of states used to state atomicity is the one the session goes through |
| RtrAgreement.CommitIsAtomic | backend/internal/rtr/client.go:128-187 | for every sequence of inputs whatsoever, at every point the live store is the in-range part of the table as of the last commit |
| RtrAgreement.TableIsSet | backend/internal/rtr/client.go:174-181 | the keyed table behaves as the set of its records under announces and withdrawals |
| RtrAgreement.DeliveryKeepsAnswer | backend/internal/rtr/client.go:128-152 | each PDU delivered leaves an answer whose rest still completes to the cache's table |
| RtrAgreement.StepAgrees | backend/internal/rtr/client.go:96-162 | every step of client and cache together keeps the invariant, and End Of Data leaves them agreeing |
| RtrAgreement.RunKeepsInvariant | backend/internal/rtr/client.go:63-162 | the invariant holds in every state of every run |
| RtrAgreement.AgreementOverRuns | backend/internal/rtr/client.go:63-187 | in every run whose notifications and timeouts wait for the answer under way, after every End Of Data the table is the cache's at the client's serial and the live store its in-range part; the live store stays with the last synced version in between |
| RtrInterruption.NamedDecide | backend/internal/rtr/client.go:174-181 | changes decide whether the records they name are in the table, and leave every other record alone |
| RtrInterruption.SameAfter | backend/internal/rtr/client.go:174-181 | the same changes make the same of two tables if and only if these differ in nothing but records the changes name |
| RtrInterruption.RestArrives | backend/internal/rtr/client.go:128-140 | taking what is left of a response commits what its records make of what the client starts from |
| RtrInterruption.LandsExactlyWhen | backend/internal/rtr/client.go:128-140 | for any client and any rest of a response: its End Of Data leaves them in sync if and only if what the client and the cache started from agree on every record the rest does not name |
| RtrInterruption.UnderWayPromises | backend/internal/rtr/client.go:128-140 | every answer under way, full table or delta, promises to complete what the client holds of it |
| RtrInterruption.InterruptionAsks | backend/internal/rtr/client.go:118-122 | a notification, or the timer of a client with a serial, drops the pending changes and asks for a delta from the client's own version |
| RtrInterruption.InterruptedAnswer | backend/internal/rtr/client.go:142-146 | after an interruption anywhere in any answer that ends with End Of Data: the if-and-only-if for the commit of that answer and for that of the delta asked for |
| RtrInterruption.InterruptedFullTable | backend/internal/rtr/client.go:142-146 | in the middle of a full table the first commit is right if and only if the old table has no record beyond it and already has every record forgotten |
| RtrInterruption.InterruptedDelta | backend/internal/rtr/client.go:142-146 | in the middle of a delta, both conditions in terms of the client's table, the changes forgotten and the changes still to come |
| RtrInterruption.InterruptedReset | backend/internal/rtr/client.go:147-152 | just before a Cache Reset: the delta lands on nothing and the full table on the delta, and exactly when each is right |
| RtrInterruption.ResetHeals | backend/internal/rtr/client.go:147-152 | a Cache Reset and the full table it asks for put any client right, whatever happened before |
| RtrInterruption.AgreementRecovers | backend/internal/rtr/client.go:63-187 | in every run, whatever was interrupted before: from any point at which the client starts afresh, every End Of Data leaves it in sync as long as no answer is interrupted from there on |
| RtrInterruption.ConnectingStartsAfresh | backend/internal/rtr/client.go:105-109 | every connection, and every Cache Reset that nothing follows on the wire, is such a point |
| RtrInterruption.RunKeepsKeys | backend/internal/rtr/client.go:174-181 | in every run whatsoever each record of the table sits under its own key |
| RtrInterruption.NotifyMidTableLosesRecords | backend/internal/rtr/client.go:142-146 | a run of client and cache in which a notification between the two records of a full table leaves the client out of sync at End Of Data |
| RtrInterruption.NotifyMidDeltaLosesRecords | backend/internal/rtr/client.go:142-146 | a run in which a notification in the middle of a delta makes the client take over the new serial without its record |
| RtrInterruption.SecondAnswerGoesWrong | backend/internal/rtr/client.go:142-146 | a run in which the interrupted answer still lands right and the answer to the extra query does not |
| RtrRuns.StepMadeBy | backend/internal/rtr/client.go:111-161 | each step of a run extends a list of connections the client alone takes to the same state |
| RtrRuns.RunIsClients | backend/internal/rtr/client.go:63-162 | every point of every run of client and cache is one the client alone reaches on some list of connections |
| RtrRuns.ValidateAfterRun | backend/internal/rtr/client.go:63-187 | the imperative client, run on the connections of a run up to an End Of Data, holds the cache's table of that version and validates as its in-range part: always an answer, and the one of RFC 6811, for a native prefix, and a panic exactly for a long mapped one with a full-length IPv4 record in the table |
| RtrRuns.AtomicInSession | backend/internal/rtr/client.go:111-187 | over one session the live store is the in-range part of the table as of the last End Of Data |
| RtrRuns.AtomicOverConnections | backend/internal/rtr/client.go:63-187 | over any connections whatsoever the live store is the in-range part of the table as of the last End Of Data, of whichever connection |
| Classify.ClassifyEvent | backend/internal/classify/classify.go:39-74 | for every event the walk and the trie give the one verdict that Precedence, UnknownExactlyWhen and BlameIs determine over the VRP set, or nothing exactly when origin validation panics |
| Classify.Precedence | backend/internal/classify/classify.go:1-5 | hijack exactly when a known origin is Invalid, leak exactly when not a hijack and there is a valley, a reason only for these |
| Classify.UnknownExactlyWhen | backend/internal/classify/classify.go:67-69 | unknown exactly for an announcement of more than one path entry that is not Invalid and of whose adjacencies no relationship is known; valid is what remains |
| Classify.NothingKnownNoLeak | backend/internal/valleyfree/classifier.go:110-133 | a path about which the store knows nothing never leaks, although the walk looks the pairs up the other way round |
| Classify.BlameIs | backend/internal/classify/classify.go:55-66 | a hijack blames the origin and keeps what its path leaks besides, a leak blames whom the walk blames, nothing else blames anybody |
| Classify.NeutralWithoutOrigin | backend/internal/classify/classify.go:41-52 | withdraws and events of unknown origin are NotFound |
| Classify.StoreReversal | backend/internal/relationships/store.go:34-52 | over any real store a path and its reverse leak together |
| SynthTopology.ViewAfter | backend/internal/synth/topology.go:111-114 | one recorded link changes the lookup of its pair only, and only if the pair was new |
| SynthTopology.LinkedAgrees | backend/internal/synth/topology.go:111-126 | adjacency lists and relationship store stay in agreement through every accepted link |
| SynthTopology.PlanIsDisjoint | backend/internal/synth/prefixes.go:19-48 | of two prefixes of the plan neither covers the other unless they are equal |
| SynthTopology.PlanIsNative | backend/internal/synth/prefixes.go:10-17 | planned prefixes are valid IPv4 prefixes |
| SynthTopology.RoaStored | backend/internal/synth/prefixes.go:66-75 | the VRP made for a planned prefix is accepted as it is |
| SynthTopology.PlanVerdict | backend/internal/synth/prefixes.go:66-68 | a planned prefix is NotFound without a ROA, Valid for its owner and Invalid for anyone else |
| SynthBuilder.PickDistinct | backend/internal/synth/topology.go:177-194 | the picks are members of the pool without repetition, of the number asked for |
| SynthBuilder.MeshGrows | backend/internal/synth/topology.go:128-134 | one more link extends the meshed part of the tier-1 pairs by one entry |
| SynthBuilder.TieredGrows | backend/internal/synth/topology.go:111-126 | a link between neighbouring tiers, offered as the tiers ask, leaves a topology in which every link is what its tiers make it, and is there afterwards |
| SynthBuilder.TieredView | backend/internal/synth/topology.go:128-174 | a lookup in the built topology knows exactly the links, and of each what its tiers make it |
| SynthBuilder.TwoMore | backend/internal/synth/topology.go:136-169 | the links of one AS to two of the tier above leave it with those at most, and change nobody else's upstreams |
| SynthBuilder.OneMoreRoa | backend/internal/synth/prefixes.go:25-35 | of the prefixes in the order given out, exactly every fifth goes without a ROA |
| SynthBuilder.Builder.AssignASNs | backend/internal/synth/topology.go:97-107 | the three tiers are the consecutive ranges the constants give |
| SynthBuilder.Builder.Edge | backend/internal/synth/topology.go:111-126 | the new edges in full; the link lands in both the store and the lists or in neither, so that they stay in agreement |
| SynthBuilder.Builder.LinkTier1 | backend/internal/synth/topology.go:128-134 | all tier-1s become peers of one another, and no one else is linked |
| SynthBuilder.Builder.LinkTransit | backend/internal/synth/topology.go:136-158 | for every draw each transit AS buys from one or two tier-1s, AS2001 from exactly the first two, other links are only those the tiers allow, no stub is linked, and nothing recorded before is lost |
| SynthBuilder.Builder.LinkStubs | backend/internal/synth/topology.go:160-174 | for every draw each stub buys from one or two transit ASes, every seventeenth is a sibling of the next, the other tiers' links are untouched, and nothing recorded before is lost |
| SynthBuilder.Builder.Alloc | backend/internal/synth/prefixes.go:25-35 | a prefix gets one owner only and is listed under it; the ROA prefixes are all of those given out but every fifth |
| SynthBuilder.Builder.AllocatePrefixes | backend/internal/synth/prefixes.go:23-55 | exactly the planned prefixes go to exactly the planned owners, a stub's second one by chance, 150 to 270 in all; every AS originates |
| SynthBuilder.Builder.BuildVRP | backend/internal/synth/prefixes.go:69-76 | the trie stands for exactly the ROAs of the ROA prefixes |
| SynthBuilder.BuildDefault | backend/internal/synth/topology.go:75-95 | for every random choice the topology is well formed and linked as planned, the leak site is in place, all but every fifth prefix has a ROA, and the VRP store is that of the ROAs |
| SynthGenerator.Climb | backend/internal/synth/scenarios.go:40-56 | the uphill loop climbs provider links only, without repetition, at most four ASes; it passes no tier-1 and stops only at one, at four ASes, without providers or at a repeated one |
| SynthGenerator.Propagate | backend/internal/synth/scenarios.go:35-85 | every random choice gives an up-peer-down sequence without repetition of one to seven ASes from the origin |
| SynthGenerator.ReverseU32 | backend/internal/synth/scenarios.go:22-28 | the in-place fill is the reverse |
| SynthGenerator.ValidPath | backend/internal/synth/scenarios.go:30-88 | one to seven distinct ASes ending in the origin, every hop known, never a leak, for every topology whose lists agree with its store |
| SynthGenerator.ByConstruction | backend/internal/synth/scenarios.go:30-34 | up-peer-down makes a path the walk accepts with every hop known |
| SynthGenerator.OrdinaryIsValid | backend/internal/synth/generator.go:129-133 | an ordinary announcement is Valid to the classifier, never a false positive |
| SynthGenerator.HijackingIsHijack | backend/internal/synth/scenarios.go:104-123 | a ROA prefix announced by a stub that does not own it is a hijack blamed on that stub |
| SynthGenerator.LeakingIsLeak | backend/internal/synth/scenarios.go:90-102 | the leak scenario is a leak blamed on AS2001 whatever the ROAs |
| SynthGenerator.OutsiderIsHijacked | backend/internal/synth/scenarios.go:115-121 | a hijack slot hijacks if and only if its draw finds a stub that does not own the victim, and the first draw does when the owner is no stub |
| SynthGenerator.Generator.PickPrefix | backend/internal/synth/generator.go:161-164 | always a prefix the origin owns, never an index out of range |
| SynthGenerator.Generator.MakeAnnounce | backend/internal/synth/generator.go:129-133 | an announcement of an owned prefix over a valid path |
| SynthGenerator.Generator.MakeLeak | backend/internal/synth/scenarios.go:94-102 | the fixed leaking path with a prefix of its origin |
| SynthGenerator.Generator.MakeHijack | backend/internal/synth/scenarios.go:107-123 | a hijack of the victim drawn by the first stub that does not own it; an ordinary announcement exactly when eight draws hit the owner or there is nothing to draw |
| SynthGenerator.Generator.MakeWithdraw | backend/internal/synth/generator.go:153-158 | withdraws one remembered announcement and removes exactly that entry, the others staying in order |
| SynthGenerator.Generator.Remember | backend/internal/synth/generator.go:166-171 | the announcements remembered before and this one, cut to the newest 256 |
| SynthGenerator.RememberedAreNewest | backend/internal/synth/generator.go:166-171 | the newest 256 announcements, in order, the one just made at the end |
| SynthGenerator.Generator.Next | backend/internal/synth/generator.go:73-96 | numbers run on by one, the clock moves forward by 40 to 199 ms, the event is of the kind its slot is scheduled for, a withdraw needs a backlog of eight, and what is remembered afterwards is exact |
| SynthGenerator.Generator.Events | backend/internal/synth/generator.go:101-127 | a run of any length follows the schedule throughout, and every withdraw takes back an earlier announcement |
| SynthGenerator.ScheduleDecides | backend/internal/synth/generator.go:78-87 | leak by AS2001 if and only if a leak slot, hijack by its stub if and only if a remaining hijack slot with a foreign origin, that is one whose draw found a stranger, Valid otherwise |
| SynthGenerator.RunLeakCount | backend/internal/synth/generator_test.go:40-51 | after any n events exactly n / LeakEvery were leaks |
| SynthDemo.RunDemo | backend/internal/synth/generator_test.go:33-78 | topology, generator, walk and trie together, for every random choice and length: each verdict is the scheduled one, every hijack slot draws a victim with a ROA and is a hijack exactly when its draw finds a stub that does not own it, and the aggregator's leak counter after n events is exactly n / LeakEvery |
| SynthDemo.SlotVerdict | backend/internal/pipeline/pipeline.go:28-51 | the classifier's output for a slot is the scheduled verdict |
| SynthDemo.DrawVerdict | backend/internal/synth/generator_test.go:53-60 | a hijack slot is a hijack exactly when its draw finds a stranger, and always when the victim's owner is no stub |
| SynthDemo.NeverPanics | backend/internal/synth/prefixes.go:19-22 | no event of the stream makes origin validation panic |
| EventRing.SlotIndex | backend/internal/topology/ring.go:37-37 | the wrap-around index stays in range and names the slot of the event pushed that many events ago |
| EventRing.TraversingPrefix | backend/internal/topology/ring.go:45-55 | the matches among the first events are a prefix of the matches among all |
| EventRing.PathHasEdge | backend/internal/topology/ring.go:58-65 | true exactly when the two ASes are adjacent in this order somewhere on the path |
| EventRing.EventRing.constructor | backend/internal/topology/ring.go:14-19 | an empty ring of capacity at least one |
| EventRing.EventRing.Push | backend/internal/topology/ring.go:22-28 | the ring keeps holding the end of everything ever pushed |
| EventRing.EventRing.Recent | backend/internal/topology/ring.go:31-41 | the newest events of the whole history, newest first, as many as asked for and held |
| EventRing.EventRing.ByEdge | backend/internal/topology/ring.go:45-55 | the first matches of the reversed held history |
| RingCounters.WindowShifts | backend/internal/topology/series.go:25-49 | an event n buckets later is a shift of the window by n and one more at its end, also for gaps of the whole ring |
| RingCounters.Counted | backend/internal/topology/series.go:48-48 | incrementing the current cell counts one event more in its bucket and in no other |
| RingCounters.Opened | backend/internal/topology/series.go:43-47 | clearing the next cell opens a bucket and forgets exactly the oldest |
| RingCounters.Forgotten | backend/internal/topology/series.go:34-41 | after a gap of the whole ring the zeroed ring is right for the new bucket |
| RingCounters.RingCounters.Add | backend/internal/topology/series.go:25-49 | the window is shifted by the elapsed buckets and incremented, and for times in order the event lies in the current bucket |
| RingCounters.RingCounters.Forward | backend/internal/topology/series.go:43-47 | opens that many buckets, keeping every count still in the window |
| RingCounters.RingCounters.Series | backend/internal/topology/series.go:52-58 | the last thirty buckets, oldest first, as the sequence of event times alone determines them |
| RingCounters.ToldOneMore | backend/internal/topology/series.go:25-49 | the window and bucket start stay a function of the event times |
| RingCounters.SparkIsHistogram | backend/internal/topology/series.go:24-58 | for times in order without a gap of thirty buckets the sparkline is a histogram: cell i counts the times in the two-second bucket 29 - i before the last |
| RingCounters.SparkElsewhere | backend/internal/topology/series.go:29-41 | a time a minute or more after the start of the last bucket leaves itself alone in the sparkline; one before that start counts in the last bucket |
| GraphHistory.EdgeIsHistory | backend/internal/topology/apply.go:61-81 | after any history an edge exists exactly if an event crossed it, and its counts, status, last event and relationship are those of its crossings, in their order, its samples those of SamplesAreNewest |
| GraphHistory.PathCrosses | backend/internal/topology/apply.go:48-59 | a path adds exactly its own crossings of an edge, one by one |
| GraphHistory.SamplesKept | backend/internal/topology/apply.go:134-140 | trimming after every append keeps the newest fifteen of all, in order, the new one at the end |
| GraphHistory.SamplesAreNewest | backend/internal/topology/apply.go:134-140 | sample by sample, an edge's samples are the ids of the newest fifteen events that crossed it, or of all if fewer did; the last is its last event |
| GraphHistory.EdgeCountsBounded | backend/internal/topology/apply.go:68-74 | leaks plus hijacks never exceed the count, and no edge joins an AS to itself |
| GraphHistory.NodeIsHistory | backend/internal/topology/apply.go:31-59 | a node exists exactly for the ASes announcements show, with the tallies, worst status and event times of what it originated, first and last seen at the first and last event that showed it |
| GraphHistory.StepSees | backend/internal/topology/apply.go:31-59 | one event moves the last-seen time of exactly the ASes it shows, and the first-seen time of those new |
| GraphHistory.EndsAreNodes | backend/internal/topology/apply.go:55-57 | both ends of every edge are nodes |
| GraphRib.StepAgrees | backend/internal/topology/apply.go:86-110 | every event keeps prefix sets and RIB in agreement and moves the owner of its own prefix only |
| GraphRib.RibIsHistory | backend/internal/topology/apply.go:86-110 | after any history the RIB maps a prefix to its last owner, and an AS's set has it exactly then |
| GraphRib.SharedOut | backend/internal/topology/graph.go:42-43 | sets that share out a map by its values have its size in all |
| GraphRib.PrefixCountsAddUp | backend/internal/topology/apply.go:83-85 | the prefix counts of all nodes add up to the RIB's size |
| GraphCounters.Stats.Record | backend/internal/topology/stats.go:24-49 | all eight counters after one event, which CountersAreCounts makes numbers of events |
| GraphCounters.CountersAreCounts | backend/internal/topology/stats.go:24-49 | after any history each of the eight counters is the number of positions that hold an event of its matter: leaks the leak verdicts, the origin counters announcements only |
| GraphCounters.CountsAreNumbers | backend/internal/topology/apply.go:68-74 | the counts an edge and a node are told by are numbers of events as well |
| GraphCounters.StepMovesSums | backend/internal/topology/apply.go:31-45 | one event moves the nodes' summed tallies by its own status only |
| GraphCounters.ClassifiedStatuses | backend/internal/classify/classify.go:39-74 | a classified event is a hijack exactly if it is an Invalid announcement |
| GraphCounters.StagesAgree | backend/internal/topology/stats.go:24-49 | over any classified history hijacks, invalid announcements and the nodes' invalid tallies are one number, valid ones likewise, and announcements and withdraws are all events |
| GraphHeap.ASNode.Tally | backend/internal/topology/apply.go:31-45 | the node object after one more announcement it originated |
| GraphHeap.ASNode.Stat | backend/internal/topology/views.go:167-171 | an origin's figures with the throughput its event times determine |
| GraphHeap.EdgeRecord.Cross | backend/internal/topology/apply.go:68-80 | the edge object after one more traversal, of whose samples SamplesKept says that they are the newest fifteen |
| GraphHeap.MakeNode | backend/internal/topology/graph.go:80-95 | a new node shares no object with any other, and all others are unchanged |
| GraphHeap.SetSeen | backend/internal/topology/apply.go:55-56 | one node is seen now, all others are unchanged |
| GraphHeap.SetPrefixes | backend/internal/topology/apply.go:94-101 | one node's prefixes change, all others are unchanged |
| GraphHeap.TallyNode | backend/internal/topology/apply.go:31-45 | tallying one node object changes only what that AS stands for |
| GraphHeap.MakeEdge | backend/internal/topology/apply.go:62-67 | a new edge object with the relationship of the event's hop, all others unchanged |
| GraphHeap.CrossEdge | backend/internal/topology/apply.go:68-80 | crossing one edge object changes only what that adjacency stands for |
| Aggregator.TopologyGraph.constructor | backend/internal/topology/graph.go:71-77 | the empty graph |
| Aggregator.TopologyGraph.NodeFor | backend/internal/topology/graph.go:80-95 | the node of an AS, made exactly on first sight |
| Aggregator.TopologyGraph.See | backend/internal/topology/apply.go:55-56 | the AS has a node seen now, everything else unchanged |
| Aggregator.TopologyGraph.OriginStep | backend/internal/topology/apply.go:31-45 | in place, the origin part of the effect of an event |
| Aggregator.TopologyGraph.EdgeFor | backend/internal/topology/apply.go:62-67 | the edge of an adjacency, made exactly on its first traversal |
| Aggregator.TopologyGraph.UpsertEdge | backend/internal/topology/apply.go:61-81 | the edge map has exactly one traversal more, at this adjacency |
| Aggregator.EdgeUpserted | backend/internal/topology/apply.go:61-81 | making an edge and crossing it is one traversal |
| Aggregator.TopologyGraph.EdgesStep | backend/internal/topology/apply.go:48-59 | in place, the edge part of the effect of an event |
| Aggregator.TopologyGraph.Release | backend/internal/topology/apply.go:93-97 | takes a prefix from an AS that is known, and touches nothing otherwise |
| Aggregator.TopologyGraph.Grant | backend/internal/topology/apply.go:98-101 | gives a prefix to an AS that is known, and touches nothing otherwise |
| Aggregator.TopologyGraph.RIBStep | backend/internal/topology/apply.go:86-110 | in place, the RIB part of the effect of an event |
| Aggregator.TopologyGraph.Step | backend/internal/topology/apply.go:14-24 | the object graph after an event stands for the value graph after it |
| Aggregator.TopologyGraph.BuildTopology | backend/internal/topology/views.go:116-134 | in whatever order the maps are walked, the one sorted listing of the graph |
| Aggregator.TopologyGraph.TopOrigins | backend/internal/topology/views.go:149-174 | the forty busiest origins as the graph alone determines them, map order notwithstanding |
| Aggregator.Aggregator.constructor | backend/internal/topology/aggregator.go:53-66 | an aggregator with no history |
| Aggregator.Aggregator.Take | backend/internal/topology/apply.go:14-28 | after one event graph, ring and counters are those of the history with that event |
| Aggregator.Aggregator.Handle | backend/internal/topology/aggregator.go:109-130 | every reply is a function of the history alone, and the full snapshot's three parts are of one history |
| Aggregator.Aggregator.BuildStats | backend/internal/topology/views.go:136-147 | the counters, sizes and top origins of the history |
| Aggregator.Aggregator.BuildEdgeDetail | backend/internal/topology/views.go:204-210 | the edge and the newest events that crossed it, or not found |
| Aggregator.Aggregator.Run | backend/internal/topology/aggregator.go:76-96 | for any interleaving of events and requests each reply is right for exactly the events taken before its request |
| Ordering.SortedOnce | backend/internal/topology/views.go:121-132 | a set has only one sorted listing |
| Ordering.Sort | backend/internal/topology/views.go:117-132 | collecting in any order and sorting gives that one listing |
| ViewsHistory.ListedEdges | backend/internal/topology/views.go:123-133 | of any graph a snapshot lists exactly the edges, each once, as it is, by their ends |
| ViewsHistory.LeftOut | backend/internal/topology/views.go:149-164 | of any graph an active origin is left out only if forty others come before it, busier or as busy with a smaller number |
| ViewsHistory.TopologyTellsHistory | backend/internal/topology/views.go:101-133 | a topology reply lists exactly the ASes shown and the adjacencies crossed, in ascending order of number and of ends, each row with the figures of the announcements it originated or was crossed by and of the prefixes it last announced |
| ViewsHistory.NodeRow | backend/internal/topology/views.go:101-106 | the row of an AS has the numbers of its valid, invalid and not-found announcements, its first and last sight and the number of prefixes it was the last to announce |
| ViewsHistory.EdgeRow | backend/internal/topology/views.go:108-113 | the row of an adjacency tells what the events that crossed it say |
| ViewsHistory.OriginRow | backend/internal/topology/views.go:149-174 | the row of an origin: Invalid if one of its announcements was, NotFound if all were, with its counts and its sparkline |
| ViewsHistory.TopOriginsTellHistory | backend/internal/topology/views.go:149-174 | by announcements originated, most first, ties by AS number, forty at most; whoever is left out comes after all forty |
| ViewsHistory.NewestEvents | backend/internal/topology/ring.go:31-43 | the newest events, newest first, as many as asked for of those held; two hundred in a full snapshot |
| ViewsHistory.EdgeDetailTellsHistory | backend/internal/topology/views.go:204-210 | an adjacency is found exactly when something crossed it, with its figures, and of the announcements held those that crossed it in this direction and no others are listed, all of them if the limit allows |
| GraphStore.SimLink.Touch | frontend/src/lib/graphStore.ts:97-107 | the link after one more traversal; an unknown relationship is filled in when known |
| GraphStore.GraphState.TouchLink | frontend/src/lib/graphStore.ts:75-107 | exactly this link is made or refreshed, and whether it was made is reported |
| GraphStore.GraphState.TouchPath | frontend/src/lib/graphStore.ts:69-108 | the links of a path's adjacencies, and whether one is new |
| GraphStore.GraphState.ApplyEvent | frontend/src/lib/graphStore.ts:52-122 | nodes and links after an event, and a structure change reported exactly when a node or a link is new |
| GraphStore.GraphState.ApplyTopology | frontend/src/lib/graphStore.ts:126-182 | nodes and links after a snapshot, the last event of an existing link kept, and the change reported exactly |
| GraphStore.GraphState.Overwrite | frontend/src/lib/graphStore.ts:173-179 | exactly one link takes the snapshot's figures |
| GraphStore.AdjacencySurvives | backend/internal/valleyfree/classifier.go:71-85 | collapsing runs loses no real adjacency of the path |
| GraphStore.CrossedRel | frontend/src/lib/graphStore.ts:44-49 | for every real adjacency of a classified path the hop search gives what the lookup gives |
| GraphStore.ClassifierGivesHops | backend/internal/classify/classify.go:45-46 | the classifier's hops carry the store's relationships, whatever hop is flagged |
| GraphStore.EventMirrors | frontend/src/lib/graphStore.ts:52-122 | an event applied on both sides keeps the two edge maps the same |
| GraphStore.LastSeqIsHistory | frontend/src/lib/graphStore.ts:70-102 | after any events a link exists exactly if an event crossed it, and has the number of the last one that did |
| GraphStore.EdgesHaveRel | backend/internal/topology/apply.go:61-67 | after any history two edge maps fed the same events are the same, with the lookup's relationships |
| GraphStore.LoadMirrors | frontend/src/lib/graphStore.ts:152-180 | loading a listing of edges in any order gives exactly the edges listed |
| GraphStore.TopologyIsSnapshot | backend/internal/topology/views.go:116-134 | the edges of a sent snapshot are a complete and faithful listing |
| GraphStore.ListingMirrors | frontend/src/lib/graphStore.ts:52-182 | a listing loaded into an empty graph, then any further events, mirrors the backend after both |
| GraphStore.BrowserMirrorsBackend | frontend/src/lib/graphStore.ts:52-182 | the aggregator's snapshot after any history, then any further classified events: same edges, counts, status and relationship as the backend |
| WsHub.DrainKeepsOrder | backend/internal/wshub/client.go:19-29 | a writer that takes any number of frames disturbs neither the order nor the accounts |
| WsHub.DropKeepsOrder | backend/internal/wshub/hub.go:89-92 | dropping the oldest keeps the order and loses exactly one frame, none if the queue is empty |
| WsHub.EnqueueKeepsOrder | backend/internal/wshub/hub.go:84-88 | the new frame comes last, in order, and nothing is lost |
| WsHub.SqueezeKeepsOrder | backend/internal/wshub/hub.go:89-97 | however the writer gets in between, there is room for the newest frame, which comes last; at most one more is lost, and it is counted |
| WsHub.NothingDroppedNothingLost | backend/internal/wshub/hub.go:83-88 | a client that never overflowed has every broadcast since it registered |
| WsHub.Client.WritePump | backend/internal/wshub/client.go:19-29 | any number of frames goes from the front of the queue, of a closed channel too, to the connection; a failed write loses the frame taken and is the last |
| WsHub.Client.TrySend | backend/internal/wshub/hub.go:84-88 | queues the frame exactly when there is room |
| WsHub.Client.TryDrop | backend/internal/wshub/hub.go:89-92 | takes the oldest queued frame away, if any |
| WsHub.SqueezeIn | backend/internal/wshub/hub.go:89-97 | the final enqueue always succeeds |
| WsHub.WritersMove | backend/internal/wshub/client.go:19-29 | all writers moving at once keeps every client's guarantees, and what was received stays received |
| WsHub.Hub.constructor | backend/internal/wshub/hub.go:39-49 | a hub without clients or broadcasts |
| WsHub.Hub.Broadcast | backend/internal/wshub/hub.go:106-111 | never waits: the frame is accepted exactly when fewer than 256 wait |
| WsHub.Hub.Admit | backend/internal/wshub/hub.go:63-65 | the newcomer has nothing yet, is served from the next broadcast on and counted |
| WsHub.Hub.Dismiss | backend/internal/wshub/hub.go:66-71 | a client still registered is removed, closed and uncounted; any other is left alone |
| WsHub.Hub.SendToClient | backend/internal/wshub/hub.go:83-103 | with fewer than 64 frames queued the newest is queued and nothing else changes; otherwise one more drop is counted, and the client is disconnected exactly when 512 had been counted already |
| WsHub.Hub.ServeNext | backend/internal/wshub/hub.go:73-75 | serving one client disturbs no other |
| WsHub.Hub.FanOut | backend/internal/wshub/hub.go:72-76 | the frame that waited longest is broadcast to every client in any order while all writers move; clients are lost only with more than 512 drops |
| WsHub.Hub.Stop | backend/internal/wshub/hub.go:57-62 | every open channel is closed, none twice, and no client is left |
| WsHub.Hub.Turn | backend/internal/wshub/hub.go:55-77 | what each event does: who is a client afterwards, what was accepted and what was broadcast, while all writers move |
| WsHub.OffersGetThrough | backend/internal/wshub/hub.go:72-76 | while the backlog has room, broadcasts and backlog are what there was and every frame offered, in order, and each delivery broadcasts one unless the backlog ran empty |
| WsHub.DeliveriesEmptyBacklog | backend/internal/wshub/hub.go:72-76 | as many deliveries in a row as frames wait broadcast all of them, in order |
| WsHub.DeliveredInFull | backend/internal/wshub/hub.go:72-103 | when no frame waits, a registered client that never overflowed has got exactly the frames accepted since it registered |
| WsHub.Hub.Run | backend/internal/wshub/hub.go:53-78 | over any events and interleavings: the broadcasts and the backlog are what the events alone make of them; clients go only by unregistering, by the shutdown or with more than 512 drops; frames taken and queued are an in-order, duplicate-free subsequence of the broadcasts since registration, and those taken were written out but for one whose write failed; while registered the newest is there and losses are within the at most 512 counted; channels are open exactly while registered; the count is the number of clients until shutdown |

## Left out

- HTTP and REST handlers, JSON, CORS, static files, configuration and logging: thin wrappers around I/O.
- MRT decoding, and the CAIDA, name-table and VRP file parsers: the model starts at the builder calls they end in.
- The wire-level network: TCP, deadlines as real time and reconnect backoff; a timeout is an input between PDUs, a connection a sequence of inputs and a number of writes that succeed.
- SynthBuilder.BuildDefault: the AS names `finalizeRel` sets are left out with all text.
- The pseudo-random generators and their determinism; every draw is an arbitrary value in range, so `pickDistinct` is modelled by what it returns, without its retries.
- The event-rate average, node radius, layout, canvas and React state: floating point and user interface.
- Text forms: map keys that are formatted strings are tuples, EventIDs are numbers, reasons are values, and AS names, next hops, communities and the error text's effect on logs are not modelled.
- Integer widths of counters (`int`, `int64`, `uint64`): they are unbounded here, while ASNs, serials, session numbers and bytes keep their ranges.
- Rpki.Builder.Build: the sealed store shares the builder's nodes, as in the code; stores are immutable for builders not used after Build, which every caller respects. The same goes for Relationships.Builder.Build, whose store is a value here.
- RtrAgreement.AgreementOverRuns: assumes that a Serial Notify or the refresh timer comes only when no answer is under way, because the code drops an answer in progress then; RtrInterruption has the exact conditions without it. Atomicity needs no assumption.
- RtrInterruption.InterruptedAnswer: is about one interruption and the two commits after it; further ones are further uses of RtrInterruption.LandsExactlyWhen, which speaks of any client and any rest of a response.
- RtrCodec.ReadStream: the reading side of a session, as a loop of its own; the session is modelled on the PDUs, timeouts and failures that come out of it. The redundant IPv6 flag of a prefix PDU is the family of its prefix.
- Aggregator.Aggregator.Handle: a reply has no generation time, event rate or names; the AS detail view is left out, being one more projection of the same maps. An edge request with a negative limit is not modelled.
- Aggregator.Aggregator.Run: the rate ticker, the forwarding of events to the hub's feed, and requests after the writer stopped.
- Ordering.Sort: the library sort is an insertion of the elements one by one in arbitrary order, specified by the sorted result.
- GraphStore.GraphState.ApplyEvent: keeps of a node only that it exists, and so does GraphStore.GraphState.ApplyTopology; a node's RPKI status and offender mark, names, radii, positions, clocks and `withdrawnAt` are presentation. `applyStats` refreshes nodes only and is left out.
- GraphStore.BrowserMirrorsBackend: is about the reducers; a frame that arrives between snapshot and registration, or is dropped by the hub, is outside it, as the code treats event frames as advisory.
- WsHub.Hub.Run: the snapshot written before registration and the HTTP upgrade; that a failed write also ends the reading side, which then unregisters the client, is left to the events. The count is not followed past shutdown, where the code does not lower it.
- WsHub.WritersMove: within one send only that client's writer is let in, since the others' queues are not touched there; they move between sends.
