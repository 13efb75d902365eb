# A verified model of a Kademlia node

This project models the peer discovery of a Kademlia node written in TypeScript and proves what it keeps: the
XOR metric and the k-buckets, the routing table and its two lookups, the recursive search, the discovery
protocol between all nodes over UDP, the broadcast flood over WebSockets, the job executor, and the targets of
`store`. `dafny verify dfyconfig.toml` checks everything.

`BIT_SIZE`, `K_BUCKET_SIZE`, `ALPHA` and `HASH_SIZE` are parameters (`Tables.Config`) with
0 < K_BUCKET_SIZE <= BIT_SIZE <= HASH_SIZE and ALPHA > 0; only the bound of twelve peers and the
counterexamples fix them to the shipped 5, 3, 3 and 32 (`src/node/constants.ts:1-6`). Node ids are unbounded
naturals; theorems that need ids below 2^BIT_SIZE say so. The original tests bits of a 32-bit XOR, which is the
same for BIT_SIZE up to 32.

## Layout

| module | source | form |
|---|---|---|
| `Metric` | `XOR`, `getBucketIndex` | functions and lemmas |
| `Peers`, `Numbers` | contacts, list operations shared by all modules | functions and lemmas |
| `KBuckets` | `src/kBucket/kBucket.ts` | class `KBucket` over the specification `Touched` |
| `Tables`, `TableOrders`, `History` | the contents of a routing table, its order, its runs and its capacity | values |
| `Lookups` | `findNode`, `findClosestNode` as functions of the table | values |
| `Scans`, `Answers`, `LookupLimits` | the order and the stop of the scan in `findNode`; what it answers, and exactly when it does not | lemmas |
| `RoutingTables` | `src/routingTable/routingTable.ts` | class `RoutingTable`, each method equal to its specification |
| `Searches`, `SearchRounds`, `PeerSearches` | the recursive search of `src/node/node.ts` | specification, its course round by round, and class `PeerSearch` with its loops |
| `Protocol`, `KademliaNodes` | the handlers of `src/node/node.ts` | state machine over all nodes, and class `KademliaNode` refining one node's turns |
| `Turns`, `NoSelf`, `Causality`, `MutualKnowledge`, `SearchBounds`, `NetworkTables` | invariants of every protocol run | lemmas |
| `Effects`, `Witnesses` | what each kind of turn sends and changes, and a run in which it does | lemmas |
| `NetworkSearches` | searches on the network refine the specified search | lemmas |
| `WsTransport` | `src/transports/tcp/wsTransport.ts` | class `WebSocketTransport` over the specification `Received` |
| `Flood`, `FloodCost` | the broadcast on a fixed link graph | state machine and lemmas |
| `JobExecution` | `src/discoveryScheduler/discExecutor.ts` | class `JobExecutor` and its turns |
| `Chunks`, `StoreCalls` | `chunk`, `store` | methods |

How the outside world is modelled:

- A UDP network is the set of all messages ever sent. Delivering one does not remove it, so any message may be
  lost, repeated or overtaken. A message reaches the node that listens on its destination port. Response ids are
  fresh numbers instead of UUIDs.
- One turn of one node is one atomic step: a message with its answer, a timeout, the start of a search, the end
  of a round, one chunk of a `store`, a disconnect.
- The search module lets an environment choose, for every query, its reply or failure, and in every round which
  pending query ends next; a query is identified by its round and shortlist position, each of which is used once.
- WebSocket copies in flight are processed in any order, which includes the per-socket order of the original.
- `Array.prototype.sort` is an insertion sort; distances differ, so stability is irrelevant.

A bucket number is also a class of distances to the owner, except for the owner's own id: it is at distance 0
but falls in the top bucket, where the bootstrap stores itself. `Lookups.ClassIn` numbers the classes, with -1
for the owner, so that the lookup theorems hold of every table of the key space, the bootstrap's included.

Where code and documentation disagree, the model follows the code: buckets hold three peers, not four, and there
are five, not four. `findNode` starts its answer with the farthest peer (`LookupLimits.FirstIsFarthest`). Its
answer is longer than asked exactly when there are more peers to list and no round of the scan ends with just
that many (`LookupLimits.CountIsNoLimit`). It leaves out the nearest peer exactly when a round before the one
that reaches that peer's bucket ends with `count` peers, or the peer is not among the first BIT_SIZE of the scan
(`Answers.NearestAnsweredIff`); `LookupLimits.NearestCanBeMissed` and `LookupLimits.BootstrapMissesToo` are two
tables where that happens for ALPHA. With all ids in the key space it never happens for a key other than the
owner's whose own bucket holds a peer that is neither key nor owner (`Answers.FindNodeLastIsClosest`).

## Model

| member | source | states |
|---|---|---|
| Metric.XorAssociates | src/utils/nodeUtils.ts:6-8 | the distance is an associative operation, so distances can be moved through a third id |
| Metric.XorDigit | src/utils/nodeUtils.ts:6-8 | the distance is the exclusive or of two ids, digit by digit |
| Metric.XorInjective | src/utils/nodeUtils.ts:6-8 | with one id fixed, different ids lie at different distances, and only the id itself at distance 0 |
| Metric.BucketIsDistanceClass | src/routingTable/routingTable.ts:163-170 | a foreign id of the key space is in bucket b if and only if its distance to the owner is in [2^b, 2^(b+1)) |
| Metric.OwnBucketIndex | src/routingTable/routingTable.ts:163-170 | the owner's own id falls in the top bucket |
| Metric.BucketDistance | src/routingTable/routingTable.ts:163-170 | how far a stored peer is from a key follows from the two bucket numbers alone: below 2^b in the key's bucket b, in [2^b, 2^(b+1)) in a lower one, in [2^j, 2^(j+1)) in a higher bucket j |
| KBuckets.TouchedKeepsRecords | src/kBucket/kBucket.ts:42-77 | whichever path an update takes, the records of the bucket stay, counted alike, and at most the newcomer joins, while there is room |
| KBuckets.TouchedIds | src/kBucket/kBucket.ts:42-57 | the ids and size after an update; the contact is in the bucket afterwards or the bucket is full |
| KBuckets.TouchedFront | src/kBucket/kBucket.ts:75-77 | a known contact moves to the front with its old record, the others keep their order |
| KBuckets.TouchedPaths | src/kBucket/kBucket.ts:42-73 | the exact list after each of the four paths of an update |
| KBuckets.PingsTheHead | src/kBucket/kBucket.ts:58-65 | the head of the list is pinged if a newcomer meets a full list whose last entry is not the owner, and nobody otherwise |
| KBuckets.ReversalHappensOnce | src/kBucket/kBucket.ts:58-73 | any number of strangers reverse a full bucket with its owner last exactly once between them; other full buckets keep their order |
| KBuckets.KBucket.RemoveNode | src/kBucket/kBucket.ts:33-35 | removes exactly the contact with that id, the order of the rest unchanged |
| KBuckets.KBucket.MoveToFront | src/kBucket/kBucket.ts:75-77 | the contact comes first and the rest follow in order; the bucket keeps its records, counted alike, and its invariant |
| KBuckets.KBucket.Find | src/kBucket/kBucket.ts:43 | the first contact with the id, or none |
| KBuckets.KBucket.UpdateBucketNode | src/kBucket/kBucket.ts:42-73 | the exact field after each path, and who is pinged: the head of a full list whose tail is not the owner, and nobody in every other case |
| Tables.ContactedKeeps | src/routingTable/routingTable.ts:49-59 | an update loses no record of the whole table, adds at most the newcomer, and leaves the newcomer stored or its bucket full, for good |
| Tables.ContactedAllKnows | src/routingTable/routingTable.ts:49-59 | after a list of contacts each of them is stored or its bucket is full |
| Tables.DisconnectedOk | src/node/node.ts:319-327 | a disconnect removes that id and nothing else, the owner's id never, and keeps the table invariant |
| Tables.PingsAreStored | src/kBucket/kBucket.ts:58-65 | pings only go to contacts of the table or of the update itself |
| TableOrders.UpdateKeepsOrder | src/routingTable/routingTable.ts:37-47 | an update, a lookup and a disconnect each leave the order of the bucket map as it is, and put a new bucket last |
| TableOrders.KeysInOrderMet | src/routingTable/routingTable.ts:37-59 | the buckets of a table are those of its contacts, in the order in which each was first met |
| TableOrders.AllPeersInOrder | src/routingTable/routingTable.ts:27-35 | `getAllPeers` lists a bucket met earlier before one met later, and each bucket in its own order |
| TableOrders.PingsAreHeads | src/kBucket/kBucket.ts:58-65 | a list of contacts causes, in order, one ping for each that meets a full bucket of others, to the head of that bucket, and none for the rest |
| Tables.RunKeepsInvariant | src/routingTable/routingTable.ts:37-63 | in every run of updates, lookups and disconnects each peer sits in its own bucket below BIT_SIZE, no bucket exceeds K_BUCKET_SIZE and no id occurs twice in the table |
| History.StoredIsAdmitted | src/routingTable/routingTable.ts:49-59 | the table is a function of the contact history: a record is stored if and only if its contact was the first of its id with fewer than K_BUCKET_SIZE other ids of its bucket before it |
| History.BucketFilled | src/kBucket/kBucket.ts:42-57 | a bucket holds all ids met until it is full, and K_BUCKET_SIZE of them ever after |
| History.BucketCapacity | src/routingTable/routingTable.ts:163-170 | bucket b below the top one holds at most min(K_BUCKET_SIZE, 2^b) peers |
| History.AllPeersCapacity | src/routingTable/routingTable.ts:27-35 | `getAllPeers` of a reachable table is bounded by the sum of the bucket capacities |
| History.ShippedCapacity | src/node/constants.ts:1-6 | with the shipped constants it never lists more than twelve peers |
| Lookups.ClosestIgnoresOrder | src/routingTable/routingTable.ts:85-101 | tables with the same peers in different map and bucket orders have the same nearest peer |
| Lookups.ClosestBucket | src/routingTable/routingTable.ts:85-101 | exactly where the nearest peer is, for every target and table of the key space: in the highest occupied class whose digit is set in the distance from owner to target, else in the lowest occupied class; the target's own class comes before all others |
| Scans.ScanOrderIsAll | src/routingTable/routingTable.ts:103-142 | the scan would meet each stored peer other than the key exactly once |
| Scans.CollectedExactly | src/routingTable/routingTable.ts:103-142 | what it hands to the sort is a prefix of that order, of length `count` if some round ends with just that many, else of all there are up to BIT_SIZE |
| Answers.FindNodeContract | src/routingTable/routingTable.ts:103-161 | stored peers other than the key, none twice, in strictly falling distance; at least min(count, BIT_SIZE, N) and at most min(BIT_SIZE, N) of the N there are |
| Answers.AnswerLength | src/routingTable/routingTable.ts:103-161 | the exact length of the answer for every table, key and count |
| Answers.AnsweredIff | src/routingTable/routingTable.ts:103-161 | a stored peer is answered if and only if no round before the one that reaches its bucket ends with exactly `count` peers and it is among the first BIT_SIZE of the scan |
| Answers.PlacesInOrder | src/routingTable/routingTable.ts:120-142 | the order of the scan for any two candidates: by round, within a round the upper bucket first, within a bucket its own order |
| Answers.NearestAnsweredIff | src/routingTable/routingTable.ts:85-161 | the last answer is the nearest peer other than the key if and only if that condition holds of it |
| Answers.FindNodeEndsWithMates | src/routingTable/routingTable.ts:103-161 | for every count the answer ends with exactly the stored peers of the key's own class (those in its bucket, key and owner aside), each nearer than every other peer of the table |
| Answers.FindNodeLastIsClosest | src/routingTable/routingTable.ts:85-161 | the two lookups agree: with a peer of the key's own class stored, the last answer is the nearest peer of the table other than the key |
| Answers.OwnLookup | src/node/node.ts:79-87 | a lookup of the owner's id, the only one a search makes, answers the peers of the highest buckets first, and its first answer, the candidate, is the farthest peer of the table |
| LookupLimits.CountIsNoLimit | src/routingTable/routingTable.ts:103-145 | the discarded slice shows: the answer is longer than `count` if and only if min(BIT_SIZE, N) is and no round of the scan ends with exactly `count` peers |
| LookupLimits.AnswerIsLonger | src/routingTable/routingTable.ts:144 | a reachable table and a key for which asking for ALPHA peers gives more |
| LookupLimits.FirstIsFarthest | src/routingTable/routingTable.ts:144-145 | the first answer is the farthest one |
| LookupLimits.NearestCanBeMissed | src/routingTable/routingTable.ts:120-142 | a reachable table and a key with an empty own bucket for which an answer of ALPHA peers leaves out the nearest one |
| LookupLimits.BootstrapMissesToo | src/routingTable/routingTable.ts:120-142 | the same for the bootstrap and a key whose own bucket holds the bootstrap alone |
| RoutingTables.RoutingTable.GetBucketIndex | src/routingTable/routingTable.ts:163-170 | the loop finds the highest differing digit below BIT_SIZE, and the top bucket when there is none |
| RoutingTables.RoutingTable.FindBucket | src/routingTable/routingTable.ts:37-47 | returns the contact's bucket object, and a new empty one, entered last in the map, when it was missing |
| RoutingTables.RoutingTable.UpdateTables | src/routingTable/routingTable.ts:49-59 | the new contents of all buckets after a list of contacts, with the pings sent on the way |
| RoutingTables.RoutingTable.HandleDisconnect | src/node/node.ts:319-327 | the table after a disconnect |
| RoutingTables.RoutingTable.GetAllPeers | src/routingTable/routingTable.ts:27-35 | all peers in the order of the bucket map |
| RoutingTables.RoutingTable.FindClosestNode | src/routingTable/routingTable.ts:85-101 | the nested loops return the one nearest peer, and null only for an empty table |
| RoutingTables.RoutingTable.AddNodes | src/routingTable/routingTable.ts:148-161 | appends the bucket's peers other than the key while fewer than BIT_SIZE are collected |
| RoutingTables.RoutingTable.ScanAbove | src/routingTable/routingTable.ts:125-132 | stops after the next occupied bucket upwards, or at HASH_SIZE |
| RoutingTables.RoutingTable.ScanBelow | src/routingTable/routingTable.ts:134-141 | stops after the next occupied bucket downwards, or below 0 |
| RoutingTables.RoutingTable.Collect | src/routingTable/routingTable.ts:103-142 | the nested scan terminates and collects what the specification says |
| RoutingTables.RoutingTable.FindNode | src/routingTable/routingTable.ts:103-146 | the scan and the sort together return what the specification of `findNode` says |
| Searches.FinishContacts | src/node/node.ts:98-111 | the contact ids after a round are those before it and those that answered, whatever the order |
| Searches.WindowExactly | src/node/node.ts:123-129 | a round looks at every position of its slice of the shortlist whose peer has not answered, and at no other |
| Searches.FinishShortlist | src/node/node.ts:98-111 | the shortlist gains exactly the listed peers of all replies |
| Searches.FinishVerdict | src/node/node.ts:98-117 | a round reports an update if and only if some reply lists a peer in a lower bucket than the candidate's |
| Searches.ReplyOrderIrrelevant | src/node/node.ts:126-137 | for the same replies and failures, every completion order gives the same contact ids, the same shortlist up to order and the same decision |
| Searches.RoundContacts | src/node/node.ts:126-141 | a round that recurses has contacted somebody new, which is why the recursion ends |
| Searches.FindNodesBounds | src/node/node.ts:79-142 | for every reply, failure and order pattern: at most BIT_SIZE rounds, at most ALPHA * BIT_SIZE queries, at most BIT_SIZE - 1 + ALPHA contacts, which are exactly those that answered |
| Searches.FindNodesWindows | src/node/node.ts:102-129 | the shortlist only grows, windows are read left to right, no position is queried twice and nobody who answered in an earlier round is queried again |
| SearchRounds.FindNodesCourse | src/node/node.ts:79-142 | the whole course of a search, for every reply, failure and order: each round asks exactly the peers of its slice that had not answered before, as far as the shortlist had grown when it began; another round runs exactly if an answer was closer, fewer than BIT_SIZE have answered and the next slice has somebody to ask |
| PeerSearches.PeerSearch.HandleFindNodeQuery | src/node/node.ts:89-118 | the running-minimum loop returns true if and only if some reply peer is in a lower bucket than the candidate; the answering node becomes a contact and the reply's peers join the shortlist at its end, in their order |
| PeerSearches.PeerSearch.SendRound | src/node/node.ts:121-129 | queries every peer of the window that has not been contacted, and nobody else, in order |
| PeerSearches.PeerSearch.AwaitAll | src/node/node.ts:136-137 | the shared state and verdict after all queries of a round, in the environment's order |
| PeerSearches.PeerSearch.FindNodeRecursiveSearch | src/node/node.ts:120-142 | the recursion over shared state computes the specified search |
| PeerSearches.FindNodes | src/node/node.ts:79-87 | the whole search from the table's own answer, its first entry as candidate, with its contact bound |
| NoSelf.NextKeepsInv | src/node/node.ts:184-239 | every turn keeps the network invariant behind the next row: all contacts genuine with port id + 3000, no reply naming its addressee |
| NoSelf.NobodyMeetsItself | src/node/node.ts:58-110 | in every state of every run no node but bootstrap 0 stores itself, no search of any node lists its own node, only the bootstrap is written to by itself and never with a query or reply, no reply tells a node about itself, and messages arrive only where they are addressed |
| NoSelf.BootstrapMeetsItself | src/node/node.ts:58-62 | the exception is real: a run in which node 0 stores itself and writes to itself |
| Causality.EveryAnswerWasAsked | src/node/node.ts:190-225 | in every run each reply has its query and each pong its ping or store, between the same contacts with the same response id |
| Causality.RequestsDiffer | src/node/node.ts:93-96 | in every run no two queries, pings or stores share a response id |
| Causality.ReplyIsFromTarget | src/node/node.ts:241-257 | the reply that resolves a query was sent by the contact the query went to, in every run |
| MutualKnowledge.AnsweredNodesKnowEachOther | src/node/node.ts:184-225 | without disconnects, once x's query to y is answered, from then on each has the other in its table or no room in the other's bucket, under loss, repetition and reordering |
| Witnesses.QueriesAreAnswered | src/node/node.ts:58-87 | such a run exists for every configuration: a node starts, searches, is answered by the bootstrap, and the answer resolves its query |
| Effects.CanHappen | src/node/node.ts:58-87 | nothing blocks a node: it may start, search and store at any time, and every message may arrive and every query time out |
| Effects.DeliverySends | src/node/node.ts:184-239 | exactly what is sent when a message arrives: the ping that its sender causes, if any, and its answer, if it has one; the table has learnt of the sender |
| Effects.PongIsSent | src/node/node.ts:191-200 | every delivered ping and store gets its pong, with its response id |
| Effects.AnswersEndTalk | src/node/node.ts:201-211 | a delivered reply or pong makes a node send nothing but a bucket's ping |
| Effects.ReplyCompletes | src/node/node.ts:96-111 | an awaited reply ends its query and no other: the asked node becomes a contact of the search, the listed peers join the shortlist at its end in order, and the search is marked if and only if one of them is in a lower bucket than the candidate; other searches stay as they are |
| Effects.OthersCompleteNothing | src/node/node.ts:241-257 | a reply nobody awaits, and any other message, changes no search and no awaited query |
| Effects.SearchBegins | src/node/node.ts:79-87 | a search starts with the table's own answer, its first entry as candidate, and asks each peer of the first slice once |
| Effects.SearchGoesOn | src/node/node.ts:120-141 | when a round ends with a closer peer found, fewer than BIT_SIZE contacts and somebody left to ask, the next one asks each peer of its slice that has not answered, once, and nobody else |
| Effects.SearchEnds | src/node/node.ts:64-69 | otherwise the search is over and the table learns of everybody who answered, in order |
| Effects.StartLearns | src/node/node.ts:58-62 | a node that starts tells its table of the bootstrap |
| Effects.TimeoutGivesUp | src/node/node.ts:112-117 | a timeout ends one query and changes nothing else |
| Effects.StoreBegins | src/node/node.ts:144-147 | a store sets out to write to all peers of the table, in order, ALPHA at a time |
| Effects.StoreWrites | src/node/node.ts:147-152 | the next chunk of a store: one message to each of its peers and nothing else |
| Effects.DisconnectForgets | src/node/node.ts:319-327 | a disconnect takes exactly that peer out of the table, the owner never |
| SearchBounds.NetworkSearchBounds | src/node/node.ts:120-142 | on the network too a search is in one of its first BIT_SIZE rounds and its contacts and pending queries stay below BIT_SIZE + ALPHA |
| NetworkSearches.SearchIsSimulated | src/node/node.ts:79-142 | while a search runs on the network, among all other turns of its node, the specified search from the answer of its node's table at its beginning can still take every course from where it is |
| NetworkSearches.NetworkSearchAsSpecified | src/node/node.ts:79-142 | a search that ends on the network has the contacts, shortlist and queries that `Searches.FindNodes` computes from the table's answer at its beginning, for an order and outcomes of its queries in which every reply was sent by the queried node |
| NetworkSearches.NetworkSearchWindows | src/node/node.ts:102-142 | so on the network too: bounded queries and contacts, windows read left to right, no position queried twice, the contacts are exactly those that answered, and nobody who answered in an earlier round is queried again |
| NetworkSearches.NetworkSearchCourse | src/node/node.ts:79-142 | and it takes the whole course of the specified search: every round that a closer peer calls for is run and asks everybody it has to |
| NetworkTables.TablesInKeySpace | src/node/node.ts:58-87 | in every run whose ids fit in BIT_SIZE bits, every table is one that the theorems on lookups and capacity speak of, and only the bootstrap's may hold its owner |
| NetworkTables.NetworkCapacity | src/routingTable/routingTable.ts:27-35 | no node of such a run ever stores more than the bucket capacities add up to, twelve peers with the shipped constants |
| NetworkTables.ReplyEndsWithMates | src/node/node.ts:218-224 | every delivered query is answered by a reply that ends with the peers of the asker's class that the asked node knows, the last of all being the nearest if there are any |
| NetworkTables.SearchStartsFarthest | src/node/node.ts:79-87 | every search on the network has the farthest peer its node knows as its candidate |
| KademliaNodes.KademliaNode.Start | src/node/node.ts:58-62 | a started node has told its table of the bootstrap |
| KademliaNodes.KademliaNode.UpdateTables | src/node/node.ts:184-188 | the table after new contacts, and the pings written to the socket |
| KademliaNodes.KademliaNode.HandleMessage | src/node/node.ts:184-225 | for the message types of discovery and for STORE, the object's whole new state and everything it sends is the protocol's turn |
| KademliaNodes.KademliaNode.Answer | src/node/node.ts:190-225 | the switch over these message types |
| KademliaNodes.KademliaNode.Resolve | src/node/node.ts:241-257 | a reply completes the query that waits for its response id, and no other |
| KademliaNodes.KademliaNode.FindCloser | src/node/node.ts:98-111 | the running minimum over a reply is true if and only if it lists a peer in a lower bucket than the candidate |
| KademliaNodes.KademliaNode.RoundQueries | src/node/node.ts:120-129 | the loop over a window queries every peer in it not contacted yet, and nobody else |
| KademliaNodes.KademliaNode.SendQueries | src/node/node.ts:89-97 | one FIND_NODE a query, with fresh response ids that are waited for |
| KademliaNodes.KademliaNode.BeginSearch | src/node/node.ts:79-87 | the first round of a search for the node's own id |
| KademliaNodes.KademliaNode.Proceed | src/node/node.ts:136-141 | the next round, or the contacts into the table |
| KademliaNodes.KademliaNode.BeginStore | src/node/node.ts:144-147 | the peers of the table are cut into chunks |
| KademliaNodes.KademliaNode.StoreChunk | src/node/node.ts:147-152 | one STORE for each peer of the next chunk, in order, with fresh response ids |
| KademliaNodes.KademliaNode.HandleTcpDisconnect | src/node/node.ts:319-327 | the socket and the neighbour entry are forgotten, and the table changes as specified for a disconnect |
| WsTransport.WebSocketTransport.Send | src/transports/tcp/wsTransport.ts:168-176 | one copy to every node that the key links to, of which there is one or none, and failure when there is none |
| WsTransport.DropTakesOneLink | src/node/node.ts:320-321 | closing a connection takes the link under its key out of the broadcast and leaves the others, in order |
| WsTransport.DropForgetsTheKey | src/node/node.ts:320-321 | afterwards the key is in neither map and every other key is what it was |
| WsTransport.WebSocketTransport.SendMessage | src/transports/tcp/wsTransport.ts:151-166 | one copy for each neighbour with a live socket, failures skipped, the id marked seen if there was any |
| WsTransport.WebSocketTransport.OnMessage | src/transports/tcp/wsTransport.ts:72-92 | the exact maps, event and copies after a packet arrives, for both packet types, and none for a packet seen before or without time to live |
| Flood.CoveredKept | src/transports/tcp/wsTransport.ts:72-92 | every step keeps: whoever has seen a live broadcast has a copy on the way to each linked node that has not |
| Flood.CanHappen | src/transports/tcp/wsTransport.ts:72-92 | in every reachable state each copy in flight can be processed and any node may broadcast |
| Flood.EmittedKept | src/transports/tcp/wsTransport.ts:79-84 | every step keeps: each node but the origin has handed a broadcast up once if it has seen it, with the origin's content |
| Flood.FloodCoverage | src/transports/tcp/wsTransport.ts:72-92 | once nothing of a broadcast is in flight, a node other than the origin has seen it and handed it up exactly once if and only if links lead there from the origin |
| Flood.OriginNeverHearsItself | src/transports/tcp/wsTransport.ts:157-163 | the origin never hands up its own broadcast |
| Flood.DeadOnArrival | src/transports/tcp/wsTransport.ts:79 | with ttl below 1 nobody ever hands it up |
| FloodCost.DeliveryProgress | src/transports/tcp/wsTransport.ts:79-84 | although ttl never falls, each processed copy lowers the pair of unseen nodes and copies in flight of its broadcast, and touches no other broadcast |
| FloodCost.BroadcastCost | src/transports/tcp/wsTransport.ts:157-163 | in every state the copies sent are exactly the links of the nodes that have seen the broadcast, and each is in flight or was processed once |
| FloodCost.RunsAreFinite | src/transports/tcp/wsTransport.ts:79-84 | a run with B broadcasts on L links has at most B * (1 + L) steps |
| JobExecution.KickedValid | src/discoveryScheduler/discExecutor.ts:12-25 | starting a job, re-entrant adds and immediate failures included, leaves no queued job without a running one |
| JobExecution.AddAccepts | src/discoveryScheduler/discExecutor.ts:5-10 | an add is accepted, behind all others, exactly when no waiting job has its id; it starts at once exactly when nothing runs |
| JobExecution.AddsJoin | src/discoveryScheduler/discExecutor.ts:5-10 | the adds of a starting job: each of their ids is waiting afterwards, and only they have joined the queue |
| JobExecution.ExecutorLaws | src/discoveryScheduler/discExecutor.ts:5-25 | in every sequence of turns at most one job runs, waiting ids differ, none waits while nothing runs, started jobs followed by the queue are the accepted ones in order, whatever a started job added was accepted under its id, and a job that has thrown does not keep running |
| JobExecution.WaitIsBounded | src/discoveryScheduler/discExecutor.ts:12-25 | the p-th waiting job has started once p + 1 jobs have ended, whatever is added meanwhile |
| JobExecution.JobExecutor.AddToQueue | src/discoveryScheduler/discExecutor.ts:5-10 | the queue, flag and history after an add, from outside or from inside a starting job |
| JobExecution.JobExecutor.RunJobsSequentially | src/discoveryScheduler/discExecutor.ts:12-25 | the same after the next job is started, through any chain of immediate failures |
| JobExecution.JobExecutor.JobSettled | src/discoveryScheduler/discExecutor.ts:20-23 | the same after the running job ends |
| Chunks.ChunkFlattens | src/utils/nodeUtils.ts:46-57 | the chunks put together are the input, all full except possibly the last |
| Chunks.ChunkAt | src/utils/nodeUtils.ts:50-54 | chunk number i is the slice between multiples i and i + 1 of the size |
| Chunks.ChunkArray | src/utils/nodeUtils.ts:46-57 | the loop over slices computes those chunks |
| StoreCalls.Store | src/node/node.ts:144-159 | the targets written to are a duplicate-free prefix of all peers that ends with the first chunk acknowledged in full, or takes in all peers when there is none |

## Left out

- Sockets, message packing, timers: a query ends with a reply or a failure, a send adds a message or fails.
- Value storage (`nodeStore`, `findValue`, FIND_VALUE and its response): the node's `findValue` asks another node over HTTP, and would make a node write to itself.
- Connection setup, handshakes and churn during a broadcast: the link graph is fixed, a link is a neighbour key with a live socket, and a disconnect is modelled on one node, not during a broadcast.
- Delivery of direct WebSocket messages across the network: only one node's handling of them is modelled.
- HTTP app, controllers, Redis, logging, configuration and cron scheduling: input and output around the model.
- `lastSeen` and staleness, the message queue map, hashing to the key space, `getKBucketIndex`, `getIdealDistance`: unused by the modelled behaviour or only easy members.
- KademliaNodes.KademliaNode.HandleMessage: does not model FIND_VALUE, FOUND_RESPONSE and the value that STORE keeps, nor the message maps; no modelled node sends the first two, and the value changes nothing else.
- KademliaNodes.KademliaNode.Answer: the same cases of its switch are left out.
- KBuckets.KBucket.MoveToFront: compares records by value where the original compares object identity, which is the same while ids in a bucket differ.
- RoutingTables.RoutingTable.ScanAbove: the loops of `findNode` are methods of their own, called in the order of the original.
- JobExecution.JobExecutor.RunJobsSequentially: the jobs that a job adds while starting up form a finite tree; what it adds later is an ordinary turn and unrestricted.
- Interleaving inside one turn of a node (between its awaits): a turn is one step.
