# Gossip dissemination, verified

A Dafny model of the gossip engine of a SWIM-style membership library: how a node keeps what it knows
about the members, which records it puts into its messages, how those messages are written and read,
and what many such nodes do over a network that loses, duplicates, reorders and misdelivers packets.
`dafny verify dfyconfig.toml` checks all of it.

The state that the source changes in place is held in classes (`MemberSet`, `RecentlyUpdatedSet`,
`PendingLists`, `RespReplyBuilder`, `GossipNet`), the parsers and handlers are methods with the loops of
the source, and each method is proved against a specification on values. The theorems are about these
specifications: runs of calls on one set, runs of one store, runs of a whole cluster.

| file | what is in it |
|---|---|
| `Nodes`, `Views` | records, their override order as a rank, the membership view as one map and its merge |
| `MemberSet`, `RoundRobin` | the stable set with its cursor; bounded waiting and exact balance of its turns |
| `RecentlyUpdatedSet`, `Spreading` | the set of records still to be spread; draining, exactly-once, evenness, what counters count |
| `Store`, `Carrying`, `Accounting` | both sets as one store; it refines the one map over every run; how soon a stable member is carried again; where each record is and how often it is carried before it moves on or is lost |
| `Decimal`, `Resp`, `RespParser`, `RespProperties`, `RespSpelling` | the request format, the parser and the builder as loops, incremental parsing and round trips, the exact grammar of the buffers accepted |
| `Messages`, `MessageSpelling` | ping, ping-req and ack as token lists and as datagrams, the exact grammar of the token lists accepted |
| `PendingLists`, `PendingEntries` | pending tasks under two indexes; each task with its deadline from the call that adds it to the one that takes it out |
| `Protocol`, `GossipNet`, `Commands` | one node: its step relation, the class that makes the steps, the command handlers |
| `Cluster`, `Causality`, `Handling`, `Membership`, `Synchrony`, `Histories`, `Delivery` | many nodes: soundness of runs, where acks come from, what each message is answered with and to which address, what views can hold, when they agree, what a delivery and an answer achieve; each node as a run of the store |

## Reading the model

- A `char` stands for a byte, a `nat` for a size; the 64-bit bound is kept where numbers are read.
- The clock is a parameter of the calls that ask for it. The limit on spreading is an arbitrary number in
  each call, so everything holds for whatever the source's logarithm gives.
- The iteration order of hash tables is left open: a new stable member is inserted at any place of an
  ordered sequence while the cursor stays on its element, and the loop over all recently updated members
  takes them in any order. The priority queue picks any member with the least counter.
- A record has one of the three statuses ALIVE, SUSPECTED and FAILED.
- A step of the cluster is the act of one node, or the loss of a packet. A packet that has been delivered
  stays in the network, so it can be delivered again, later and to anyone.

The code is unfinished in places. Where a line contradicts the evident intent, the intent is modelled:

- `src/sw/gossip-net/member_set.cpp:83` asserts that fewer members are wanted than there are, but its
  caller at line 61 admits as many; the model takes `<=`, for which the loop is right. `WrittenBoundFails`
  says exactly when a build would trip over the assertion, `WrittenBoundFailsAt` gives a run that does.
- `src/sw/gossip-net/resp.cpp:55` loops up to the whole array size instead of the number of arguments.
  Both bounds are modelled: `WrittenLoopAgrees` says, for every buffer, exactly when they give the same
  result and which of them fails when they do not; the round trip and the prefix property hold for both.
- `src/sw/gossip-net/utils.h:84-88` looks one token too far for the optional status and advances on the
  wrong branch; the grammar above the handlers (`src/sw/gossip-net/command.cpp:31`) is modelled.
- `src/sw/gossip-net/gossip_net.cpp:80,122-126` sends simple strings, which the parser refuses
  (`SimpleStringsAreRejected`); messages are modelled as arrays of bulk strings.
- `src/sw/gossip-net/gossip_net.cpp:126` and `src/sw/gossip-net/utils.cpp:22,31` name variables that do
  not exist; the fields of the node at hand are meant.
- `src/sw/gossip-net/pending_lists.cpp:26-27` leaves the timeout out of the deadline, and `fetch` does not
  erase what it hands out, on which line 67 relies. Line 56 compares with `<` what line 48 takes up to and
  including now; both comparisons are modelled, and `AgreeAfterSweep` and `LaterSweepMisses` say exactly
  when the one written does no harm.
- `src/sw/gossip-net/command.cpp:63` passes the arguments of a ping-req task the other way round than
  `src/sw/gossip-net/task.cpp:21` takes them; a task is keyed by the probed peer, as line 88 looks it up,
  and its ack goes to the node that asked.

## Model

| member | source | states |
|---|---|---|
| Nodes.LessIsRankOrder | src/sw/gossip-net/utils.cpp:21-42 | the override order on records of one id is the strict weak order of a rank: ALIVE v below SUSPECTED v below ALIVE v+1, FAILED above all |
| Views.MergeAllIsMaximum | src/sw/gossip-net/gossip_net.cpp:59-66 | merging a batch puts every id at the maximum of its old rank and the ranks of its rumors, and that maximum is attained |
| Views.MergeAllRecords | src/sw/gossip-net/gossip_net.cpp:59-66 | merging loses no id and invents no record |
| Views.DeliveryOrderIsIrrelevant | src/sw/gossip-net/gossip_net.cpp:59-66 | any permutation, repetition or re-batching of the same rumors, from views of equal rank, gives every id the same rank |
| Views.DeliveryOrderFixesRecords | src/sw/gossip-net/utils.cpp:21-42 | where no id has two different records of top rank, any two deliveries of the same records give the same view, record for record |
| Views.OrderFixesRecordsExactlyWhen | src/sw/gossip-net/gossip_net.cpp:59-66 | from any view, all deliveries of a set of records give the same view if and only if no id has two different records that override the view and rank highest among them |
| Views.RecordsDependOnOrder | src/sw/gossip-net/utils.cpp:21-42 | the smallest case in which the records do depend on the order: of two records of equal rank the first to arrive stays |
| MemberSets.EraseAt | src/sw/gossip-net/member_set.cpp:38-42 | erasing any element, the one under the cursor included, removes just that id from the order in which the cursor will meet the others |
| MemberSets.InsertRotation | src/sw/gossip-net/member_set.cpp:52-58 | inserting at any place of the table adds the id at one place of that order and moves no other |
| MemberSets.MemberSet.TryUpdate | src/sw/gossip-net/member_set.cpp:27-50 | hands the record on unless the one held overrides it, and then takes the one held out of the set and its queue; otherwise nothing changes |
| MemberSets.MemberSet.Add | src/sw/gossip-net/member_set.cpp:52-58 | adds the record under its id and keeps the queue otherwise |
| MemberSets.MemberSet.Fetch | src/sw/gossip-net/member_set.cpp:60-66 | returns records held, the next ids in turn, which go to the back of the queue, or everybody once when more are wanted than there are |
| MemberSets.MemberSet.FetchEvery | src/sw/gossip-net/member_set.cpp:68-76 | returns every record held, each once |
| MemberSets.MemberSet.FetchNext | src/sw/gossip-net/member_set.cpp:78-97 | returns exactly the first num ids of the queue, wrapping round the table, and rotates the queue by num |
| RoundRobin.WaitStep | src/sw/gossip-net/member_set.cpp:27-97 | a call that neither erases nor returns a member brings it nearer by the items returned, and an insertion puts it back by at most one |
| RoundRobin.BoundedWait | src/sw/gossip-net/member_set.cpp:60-97 | over any run of fetches, erasures and insertions, as long as a member stays and is not returned, the items returned plus its distance from the cursor are at most its distance at the start plus the insertions |
| RoundRobin.PlaceInBatch | src/sw/gossip-net/member_set.cpp:78-97 | in the batch that returns it a member comes after exactly those that stood before it in the queue |
| RoundRobin.BoundedWaitToItem | src/sw/gossip-net/member_set.cpp:60-97 | so a member that stays is returned after at most its distance from the cursor plus the number of insertions other items, those before it in its own batch included; the order within a fetch of everybody is the table's |
| RoundRobin.LastOfEverybody | src/sw/gossip-net/member_set.cpp:68-76 | in a fetch of everybody any member may come last, however near the cursor it stood |
| RoundRobin.Laps | src/sw/gossip-net/member_set.cpp:78-97 | at every moment of a run of fetches the items returned are whole laps plus the members from the start of the queue up to the cursor |
| RoundRobin.ExactShare | src/sw/gossip-net/member_set.cpp:60-97 | after any mix of fetches returning T items from N unchanging members each has been returned T / N times, and exactly the first T % N in turn once more |
| RecentlyUpdated.AddedMerges | src/sw/gossip-net/recently_updated_set.cpp:23-36 | adding a record merges it into the map of records and keeps every record under its own id |
| RecentlyUpdated.LoopsSelect | src/sw/gossip-net/recently_updated_set.cpp:51-111 | the least-counter-first loop and the loop over all members meet one contract: min(n, eligible) emitted, none spread more often than one left out; a full batch takes nothing out, a short one takes out every record spread enough |
| RecentlyUpdated.StoppedFull | src/sw/gossip-net/recently_updated_set.cpp:65-83 | a loop by least counter that stops at its n-th emission has turned nothing stable and removed nothing |
| RecentlyUpdated.AllDone | src/sw/gossip-net/recently_updated_set.cpp:88-111 | a loop that has dealt with every member meets the same contract, whatever the order |
| RecentlyUpdated.ShortKeepsEligible | src/sw/gossip-net/recently_updated_set.cpp:65-83 | a short batch emits exactly the members below the limit, and exactly these stay |
| RecentlyUpdated.TurnsProgress | src/sw/gossip-net/recently_updated_set.cpp:65-108 | at every point of either loop: what has been emitted, settled, removed and counted, by the set of members dealt with |
| RecentlyUpdated.RecentlyUpdatedSet.Add | src/sw/gossip-net/recently_updated_set.cpp:23-36 | a new or overriding record starts with counter 0, any other changes nothing |
| RecentlyUpdated.RecentlyUpdatedSet.Fetch | src/sw/gossip-net/recently_updated_set.cpp:38-49 | meets the contract for every n and limit, n = 0 included |
| RecentlyUpdated.RecentlyUpdatedSet.FetchLeast | src/sw/gossip-net/recently_updated_set.cpp:51-86 | goes by least counter and ends with all members dealt with or at the n-th emission |
| RecentlyUpdated.RecentlyUpdatedSet.FetchAll | src/sw/gossip-net/recently_updated_set.cpp:88-111 | deals with every member once |
| Spreading.FullCall | src/sw/gossip-net/recently_updated_set.cpp:51-86 | a full batch lowers the emissions still owed by exactly n |
| Spreading.HistoryKeyed | src/sw/gossip-net/recently_updated_set.cpp:23-108 | at every moment of any history of additions and fetches each record is held under its own id |
| Spreading.DrainBound | src/sw/gossip-net/recently_updated_set.cpp:38-111 | with nothing added and fixed n and limit, (emissions owed) / n + limit + 1 fetches empty the set |
| Spreading.LiveLeaveOnce | src/sw/gossip-net/recently_updated_set.cpp:65-108 | over any run of fetches, whatever n and limit each is given, the records turned stable are, each once and unchanged, the records not FAILED that have left |
| Spreading.DrainedExactlyOnce | src/sw/gossip-net/recently_updated_set.cpp:38-111 | once drained, every record that is not FAILED has come out as stable exactly once |
| Spreading.FetchKeepsEven | src/sw/gossip-net/recently_updated_set.cpp:51-111 | counters that differ by at most one still do after a fetch, across emissions and removals |
| Spreading.EvenThroughout | src/sw/gossip-net/recently_updated_set.cpp:51-111 | and so throughout every run of fetches, whatever n and limit each is given |
| Spreading.CountersCountEmissions | src/sw/gossip-net/recently_updated_set.cpp:23-108 | in any history with varying limits a counter is the number of emissions since the record was last set, and at most the largest limit passed since |
| Spreading.LeavesOnlyWhenSpread | src/sw/gossip-net/recently_updated_set.cpp:65-108 | a record leaves only in a fetch and only after at least the current limit of emissions; exactly that many unless a larger limit was passed before |
| Stores.ReceiveRefinesMerge | src/sw/gossip-net/gossip_net.cpp:59-66 | receiving one record keeps the invariant of the two sets and merges it into their common view |
| Stores.UpdateRefinesMergeAll | src/sw/gossip-net/gossip_net.cpp:59-66 | update is the merge of all rumors on the one map |
| Stores.AbsorbsPart | src/sw/gossip-net/gossip_net.cpp:164-166 | adding the records that became stable adds exactly them to the stable set |
| Stores.FetchSplits | src/sw/gossip-net/gossip_net.cpp:162-166 | a fetch splits the recent records into those kept, those handed to the stable set and the FAILED ones dropped |
| Stores.BuildForgetsOnlyFailures | src/sw/gossip-net/gossip_net.cpp:155-179 | building rumors keeps the invariant and leaves the view unchanged except for exactly the FAILED records spread enough when the batch is short |
| Stores.BatchCarriesTheView | src/sw/gossip-net/gossip_net.cpp:155-179 | the rumors have distinct ids, each equals the current view, their number is the smaller of the maximum and the view's size; so the whole view is carried whenever it fits |
| Stores.ForgottenMayReturn | src/sw/gossip-net/recently_updated_set.cpp:71-75 | a forgotten failure is no tombstone: any older record that arrives later is taken in, at a lower rank |
| Stores.StepRefinesMapStep | src/sw/gossip-net/gossip_net.cpp:59-179 | every call keeps the invariant and is a step of the one map |
| Stores.RunRefinesMap | src/sw/gossip-net/gossip_net.cpp:59-179 | over every run from the empty store the two sets have disjoint ids, each record under its own, no FAILED one is stable, the store refines the one map, and each build deletes exactly the FAILED records spread enough |
| Stores.AssertionsHold | src/sw/gossip-net/gossip_net.cpp:162-172 | where the invariant holds, every record that a fetch turns stable is new to the stable set when it is added, also after those added before it, and the batch is no larger than asked for |
| Stores.AssertionsNeverFail | src/sw/gossip-net/member_set.cpp:52-58 | so at every moment of every run the assertion of `MemberSet::add` and the one in `_build_rumors` hold, neither being part of the step relation |
| Stores.WrittenBoundFails | src/sw/gossip-net/member_set.cpp:78-83 | the assertion in `MemberSet::_fetch` as written fails in a build if and only if, before it, fewer records are to be spread than the batch holds and the view without the failures to be forgotten is exactly as large as the batch |
| Stores.WrittenBoundFailsAt | src/sw/gossip-net/member_set.cpp:78-83 | a run at which it fails: one live record, batches of one, a limit of one, the second build |
| Carrying.CarriedFillsUp | src/sw/gossip-net/gossip_net.cpp:168-178 | the stable members in a batch are as many as it was filled up with |
| Carrying.StableIsCarried | src/sw/gossip-net/gossip_net.cpp:155-179 | over any stretch of any run of the store, as long as a member stays stable and no batch carries it, the batches carry no more other stable members than stood before it and have become stable since |
| Accounting.UpdatePlaces | src/sw/gossip-net/gossip_net.cpp:59-66 | after an update an id whose rank has risen is recent with the new record and counter 0 and no longer stable, wherever it was before; every other id is in the same set with the same record and counter |
| Accounting.BuildPlaces | src/sw/gossip-net/gossip_net.cpp:155-179 | a build moves a record exactly when its batch is short and the record is recent and spread enough, to the stable set or, if FAILED, out of the store; a recent record that stays counts the batch that carries it |
| Accounting.CounterStep | src/sw/gossip-net/recently_updated_set.cpp:23-36 | in each call a record that is set, a stable one included, becomes recent with counter 0; any other recent record was recent before and counts the batch that carries it |
| Accounting.RecentCountsBatches | src/sw/gossip-net/recently_updated_set.h:48-49 | in every run of the store a recent record's counter is the number of batches that have carried it since its record was last set |
| Accounting.LifeOfARecord | src/sw/gossip-net/gossip_net.cpp:59-179 | in every run, call by call: a record becomes recent exactly when it is set, leaves the recent ones exactly when a build with a short batch finds it carried by enough batches, and stays what and where it is otherwise |
| Accounting.LostExactlyWhen | src/sw/gossip-net/recently_updated_set.cpp:65-108 | in every run a record is lost exactly when a build with a short batch finds it recent, FAILED and carried by at least as many batches as the limit since it was set; an update loses nothing |
| Accounting.BuildsSettleEverything | src/sw/gossip-net/gossip_net.cpp:155-179 | within the drain bound builds alone leave nothing to spread and exactly the records that were not FAILED stable, unchanged |
| Decimals.ReadU64OfPrint | src/sw/gossip-net/utils.h:50-56 | a printed version is read back |
| Decimals.ReadI32OfPrint | src/sw/gossip-net/utils.h:50-56 | a printed port, negative ones included, is read back |
| Decimals.PrintNatIsTheOne | src/sw/gossip-net/gossip_net.cpp:125-126 | a string of digits is the printed number if and only if it has its value and no superfluous zero in front |
| RespParser.ReadNum | src/sw/gossip-net/resp.cpp:76-109 | reads, stops or fails as the grammar of a number line does, and advances the view by as much |
| RespParser.ReadArgv | src/sw/gossip-net/resp.cpp:111-135 | the same for a bulk string |
| RespParser.ReadItems | src/sw/gossip-net/resp.cpp:41-67 | the same for the name and the arguments, under either bound of the loop |
| RespParser.ReadRequest | src/sw/gossip-net/resp.cpp:31-70 | the same for one request |
| RespParser.ParseBuffer | src/sw/gossip-net/resp.cpp:24-74 | the parse loop gives the requests, the bytes consumed or the error of the recursive grammar |
| RespParser.RespReplyBuilder.AppendBulkString | src/sw/gossip-net/resp.cpp:137-151 | appends exactly the encoding of the string |
| RespParser.RespReplyBuilder.AppendString | src/sw/gossip-net/resp.cpp:153-163 | appends exactly a line of the given type |
| RespParser.RespReplyBuilder.AppendArray | src/sw/gossip-net/resp.h:81-84 | appends exactly an array header, of any signed size |
| RespProperties.NumStable | src/sw/gossip-net/resp.cpp:76-109 | a number line that was read or refused is so however the buffer goes on |
| RespProperties.RequestStable | src/sw/gossip-net/resp.cpp:30-71 | the same for a whole request |
| RespProperties.ParseIsIncremental | src/sw/gossip-net/resp.cpp:24-135 | if parsing a succeeds, parsing a + b fails exactly when parsing a's rest followed by b does, and otherwise gives a's requests followed by those of the rest, byte counts added |
| RespProperties.FailureIsFinal | src/sw/gossip-net/resp.cpp:24-135 | a buffer that fails to parse fails however it goes on |
| RespProperties.RestIsIncomplete | src/sw/gossip-net/resp.cpp:30-71 | no complete request is left among the bytes not consumed |
| RespProperties.PrefixIsIncomplete | src/sw/gossip-net/resp.cpp:30-71 | every strict prefix of a complete request is incomplete, not an error |
| RespProperties.RoundTrip | src/sw/gossip-net/resp.cpp:24-151 | a request built of k bulk strings is parsed to exactly that request with every byte consumed, by the loop as meant and as written |
| RespProperties.StrictPrefix | src/sw/gossip-net/resp.cpp:24-151 | every strict prefix of it gives no request, no byte consumed and no error, for both loops |
| RespProperties.StreamRoundTrip | src/sw/gossip-net/resp.cpp:24-151 | pipelined requests are all read back in order with every byte consumed |
| RespProperties.WrittenBeforeAnother | src/sw/gossip-net/resp.cpp:55-62 | the loop as written refuses a complete request that anything but a bulk string follows |
| RespProperties.WrittenLoopAgrees | src/sw/gossip-net/resp.cpp:55-67 | on every buffer the two loops give the same result if and only if neither the meant loop accepts what follows a first complete request (the loop as written then fails) nor the loop as written takes what follows for one argument more (the meant loop then fails); both kinds of failure exactly |
| RespProperties.WrittenAfterFirst | src/sw/gossip-net/resp.cpp:54-70 | what the loop as written makes of a complete request, by what reading one more bulk string behind it gives |
| RespProperties.ForeignBulkString | src/sw/gossip-net/resp.cpp:55-62 | the input at which it accepts too much: a bulk string behind any built request is taken as one more argument |
| RespProperties.PipelinedIsRefused | src/sw/gossip-net/resp.cpp:55-62 | the input at which it accepts too little: of two built requests, one behind the other, the meant loop gives both and the loop as written fails |
| RespProperties.SimpleStringsAreRejected | src/sw/gossip-net/gossip_net.cpp:118-126 | an array of simple strings, as the senders write it, is refused by this parser |
| RespSpelling.NumExactlyWhen | src/sw/gossip-net/resp.cpp:76-109 | a number is read off the front of a buffer if and only if the buffer starts with the type byte, at least one digit and CR LF, the digits having that value below 2^64 |
| RespSpelling.NumOpenExactlyWhen | src/sw/gossip-net/resp.cpp:76-109 | more bytes are waited for if and only if the buffer is empty, the type byte, or that and a number that fits with at most one byte behind it; every other buffer is an error |
| RespSpelling.BulkExactlyWhen | src/sw/gossip-net/resp.cpp:111-135 | a bulk string is read if and only if the buffer starts with its length line, its bytes and CR LF |
| RespSpelling.AfterLengthLine | src/sw/gossip-net/resp.cpp:119-134 | behind a length line: fewer bytes than the length and two are waited for, CR LF at the length ends the string, anything else there is an error |
| RespSpelling.RequestExactlyWhen | src/sw/gossip-net/resp.cpp:30-71 | a request is read if and only if the buffer starts with an array header for at least one item and exactly that many bulk strings, the name and the arguments |
| RespSpelling.RequestOpenExactlyWhen | src/sw/gossip-net/resp.cpp:30-67 | more bytes are waited for if and only if the header, or one of the items after complete ones before it, may still be completed |
| RespSpelling.ParseExactlyWhen | src/sw/gossip-net/resp.cpp:24-74 | parse gives these requests and byte count if and only if that many bytes are exactly the requests one behind the other, in order, and the rest may be the start of another |
| RespSpelling.FailsExactlyWhen | src/sw/gossip-net/resp.cpp:24-135 | parse fails if and only if the buffer cannot be divided in this way |
| Messages.ReadNode | src/sw/gossip-net/utils.h:66-93 | follows the node grammar: five fields, then a status, consumed when it is recognised |
| Messages.ReadRumors | src/sw/gossip-net/utils.h:95-105 | reads nodes to the end of the tokens, or fails |
| Messages.NodeRoundTrip | src/sw/gossip-net/gossip_net.cpp:118-149 | the tokens written for a node are read back, with and without status, whatever rumor follows |
| Messages.RumorsRoundTrip | src/sw/gossip-net/gossip_net.cpp:83-85 | the tokens written for a list of rumors are read back as that list |
| Messages.TokensRoundTrip | src/sw/gossip-net/command.cpp:41-101 | the arguments written for each kind of message are read back as the message, nodes without status as alive |
| Messages.ReadAsSent | src/sw/gossip-net/gossip_net.cpp:81 | a message is read exactly as it was sent if and only if the nodes it names without status are alive |
| Messages.SizeIsDeclared | src/sw/gossip-net/gossip_net.cpp:79 | the declared array size is the number of tokens appended |
| Messages.DatagramRoundTrip | src/sw/gossip-net/gossip_net.cpp:75-104 | a datagram is parsed to exactly one request, every byte consumed, which is read as the message sent |
| MessageSpelling.VersionExactlyWhen | src/sw/gossip-net/utils.h:50-56 | a version is read if and only if the token starts with digits whose longest run has that value below 2^64 |
| MessageSpelling.PortExactlyWhen | src/sw/gossip-net/utils.h:50-56 | a port is read if and only if the token starts with such a numeral behind an optional minus sign, within the signed 32-bit range |
| MessageSpelling.NodeIsRead | src/sw/gossip-net/utils.h:66-93 | tokens that are the kind, the id, the ip, the port, the version and a status, or none for an alive node that no status follows, are read as that node |
| MessageSpelling.NodeReadIs | src/sw/gossip-net/utils.h:66-93 | and whatever is read as a node is spelled so: wrong kinds, missing fields and unreadable numbers are errors |
| MessageSpelling.MessageExactlyWhen | src/sw/gossip-net/command.cpp:23-101 | arguments are read as a message if and only if they are, under its command name, a sender, for a ping-req a peer, and then rumors to the last token; all others are an error |
| PendingTasks.SweepIsFullScanExactlyWhen | src/sw/gossip-net/pending_lists.cpp:46-74 | with either comparison, a sweep over ids, repeated ones and stale ones included, removes what a full scan would, and returns what it would, if and only if it visits every id with a task that is due |
| PendingTasks.AgreeAfterSweep | src/sw/gossip-net/pending_lists.cpp:46-71 | after a sweep the two indexes agree if and only if it compares inclusively, as meant, or no task is due at its very moment |
| PendingTasks.TaskIsStranded | src/sw/gossip-net/pending_lists.cpp:56-71 | a task due at the moment of a sweep that compares as written is still held under its id afterwards, while the bucket of its deadline is gone |
| PendingTasks.LaterSweepMisses | src/sw/gossip-net/pending_lists.cpp:21-74 | what a caller sees: after such a sweep and any additions and fetches, a later sweep hands out and removes what a full scan would if and only if each id that still holds a task due exactly at the first is named again by a bucket |
| PendingTasks.StepConserves | src/sw/gossip-net/pending_lists.cpp:21-74 | one call, with either comparison, conserves each task, as a multiset: held and handed out |
| PendingTasks.TasksAreConserved | src/sw/gossip-net/pending_lists.cpp:21-74 | over every run the tasks added are those held and those handed out, as multisets |
| PendingTasks.PendingLists.Add | src/sw/gossip-net/pending_lists.cpp:21-28 | exactly this task, with its own deadline, joins the end of the list of its id; every other list stays, and its id joins the bucket of the deadline |
| PendingTasks.PendingLists.Fetch | src/sw/gossip-net/pending_lists.cpp:30-44 | returns the tasks of the id in order and leaves none of them |
| PendingTasks.PendingLists.TimeoutTasks | src/sw/gossip-net/pending_lists.cpp:46-74 | with either comparison sweeps the ids that the buckets up to now name and keeps the later buckets; where the indexes agreed it returns and removes, id by id and in order, exactly the tasks a full scan finds due, and leaves them agreeing exactly when nothing is stranded |
| PendingEntries.EntryIsAppended | src/sw/gossip-net/pending_lists.cpp:21-28 | the entries of the id are those before and then exactly the one added; every other id keeps its list |
| PendingEntries.CallMovesEntries | src/sw/gossip-net/pending_lists.cpp:21-74 | each call adds its own task under its own deadline and takes out exactly the entries of the id fetched, or exactly those due at the timeout |
| PendingEntries.HandedOutByCall | src/sw/gossip-net/pending_lists.cpp:30-74 | a timeout hands out each task as often as it is held with a deadline that is due, a fetch the tasks of the id in order |
| PendingEntries.EntriesAreConserved | src/sw/gossip-net/pending_lists.cpp:21-74 | over every run each task added with a deadline is held with that deadline or has left, by a fetch of its id or a timeout at which that deadline was due, exactly as often as it was added |
| PendingEntries.NoneDueStays | src/sw/gossip-net/pending_lists.cpp:46-74 | in every run no task that is due at a timeout is held right after it |
| GossipNets.AppendNode | src/sw/gossip-net/gossip_net.cpp:118-149 | appends exactly the five or six fields of a node |
| GossipNets.BuildMessage | src/sw/gossip-net/gossip_net.cpp:78-85 | the bytes of ack and ping: declared size, name, sender, rumors |
| GossipNets.MessageBytesEncode | src/sw/gossip-net/gossip_net.cpp:75-104 | these bytes are the encoding of the message |
| GossipNets.GossipNet.Update | src/sw/gossip-net/gossip_net.cpp:59-66 | the two sets become those of receiving the rumors in turn: an id whose rank rises is recent with counter 0 and not stable, every other one stays in its set with its record and counter |
| GossipNets.GossipNet.LimitIsByTheView | src/sw/gossip-net/gossip_net.cpp:158-160 | the limit on spreading is that for the number of all members known, in either set |
| GossipNets.GossipNet.BuildRumors | src/sw/gossip-net/gossip_net.cpp:155-179 | fetches, absorbs and fills up, with the limit for the current number of members |
| GossipNets.GossipNet.SendAck | src/sw/gossip-net/gossip_net.cpp:71-88 | sends one ack naming the given node with the rumors built under the current limit, and changes nothing else |
| GossipNets.GossipNet.SendPing | src/sw/gossip-net/gossip_net.cpp:90-104 | sends one ping naming this node with the rumors built under the current limit, and changes nothing else |
| GossipNets.GossipNet.AddTask | src/sw/gossip-net/gossip_net.cpp:151-153 | adds the task with its deadline and changes nothing else |
| GossipNets.GossipNet.DoTask | src/sw/gossip-net/gossip_net.cpp:106-116 | takes all tasks of the id and relays one ack for each, in order |
| Commands.ParseSelfAndRumors | src/sw/gossip-net/command.cpp:41-51 | reads the arguments of ping and ack as the grammar says, or fails |
| Commands.ParsePingReq | src/sw/gossip-net/command.cpp:67-79 | reads the arguments of ping-req as the grammar says, or fails |
| Commands.RunPing | src/sw/gossip-net/command.cpp:32-39 | on an error nothing happens; else the rumors and the sender are heard and exactly one datagram is sent, an ack naming this node, to the ip and port of the sender |
| Commands.RunPingReq | src/sw/gossip-net/command.cpp:54-65 | on an error nothing happens; else the rumors and the sender are heard, exactly one datagram is sent, a ping naming this node, to the ip and port of the peer, and exactly one task for the peer, to answer the sender, is added with now plus the timeout |
| Commands.RunAck | src/sw/gossip-net/command.cpp:82-89 | on an error nothing happens; else the rumors and the sender are heard, no task for the node named is left, and for each that was held one ack naming its peer is sent to the ip and port of its dest, in order |
| Clusters.PeerStepFacts | src/sw/gossip-net/command.cpp:32-89 | every act of a node keeps its invariant and leaves the merged view but for FAILED records; all rumors it sends come from that view |
| Clusters.RunIsSound | src/sw/gossip-net/command.cpp:32-89 | in every run every node's store keeps its invariant and nodes keep their identity |
| Causality.SentBy | src/sw/gossip-net/command.cpp:32-89 | what a node sends: its own name in pings and ping-reqs, an ack naming itself only for a ping and to the address of its sender, any other ack only for a pending task |
| Causality.PendingWasAsked | src/sw/gossip-net/command.cpp:54-65 | in every run a pending task comes from a ping-req that its holder handled earlier |
| Causality.NewAck | src/sw/gossip-net/command.cpp:32-89 | in every run an ack that is new in the network answers a ping to the node it names or another ack naming it |
| Causality.AckMeansPinged | src/sw/gossip-net/command.cpp:32-89 | in every run every ack in the network, relayed any number of times, traces back to an earlier ping handled by the node it names |
| Causality.RelayAnswersPingReq | src/sw/gossip-net/task.cpp:21-28 | an ack makes a node send only acks naming the same node, each for a task still held, from an earlier ping-req for that node, to the address of the node that asked |
| Causality.EachPingReqAnsweredOnce | src/sw/gossip-net/command.cpp:54-89 | however often acks are duplicated, the acks relayed for an id plus the tasks still pending are at most the ping-reqs handled for it, and exactly as many if nothing timed out |
| Handling.PingIsAnswered | src/sw/gossip-net/command.cpp:32-39 | a node that handles a ping sends exactly one packet, an ack naming itself, to the ip and port of the sender |
| Handling.PingReqIsForwarded | src/sw/gossip-net/command.cpp:54-65 | a node that handles a ping-req sends exactly one packet, a ping naming itself, to the ip and port of the peer, and holds exactly one task more, for that peer |
| Handling.AckRunsItsTasks | src/sw/gossip-net/gossip_net.cpp:106-116 | a node that handles an ack holds no task for the node named any more and relays one ack for each that it held, in order, naming the peer probed, to the address of the node that asked |
| Handling.SenderIsHeardLast | src/sw/gossip-net/command.cpp:35-36 | in every act that handles a message the rumors are merged in order and the sender after them |
| Handling.OtherActs | src/sw/gossip-net/gossip_net.cpp:90-104 | a probe sends exactly one ping naming this node to the ip and port of the node probed, a probe through a relay one ping-req; news from the application and timeouts send nothing |
| Handling.OtherActsHear | src/sw/gossip-net/gossip_net.cpp:59-66 | news from the application are merged in order, no other act without a message changes what is known, but for failures forgotten |
| Handling.TimeoutDropsDue | src/sw/gossip-net/pending_lists.cpp:46-74 | a timeout drops exactly the tasks that are due |
| Handling.AckSettlesAllAsked | src/sw/gossip-net/command.cpp:82-89 | in every run, right after a node has handled an ack it holds no task for the node named, and if nothing timed out it has relayed as many acks for it as it has handled ping-reqs |
| Handling.EveryPingIsAnswered | src/sw/gossip-net/command.cpp:32-39 | in every run each ping handled is answered at once, to the address it gives |
| Handling.EveryPingReqIsForwarded | src/sw/gossip-net/command.cpp:54-65 | in every run each ping-req handled is forwarded at once to the peer it names |
| Membership.EveryRecordWasIntroduced | src/sw/gossip-net/gossip_net.cpp:59-104 | in every run every record held by a node or carried by a packet was introduced by some node before |
| Membership.RankFallsOnlyByForgetting | src/sw/gossip-net/gossip_net.cpp:59-104 | in every run a node's rank for an id falls between two moments only if it has forgotten a FAILED record of that id in between |
| Membership.ViewIsAllHeard | src/sw/gossip-net/gossip_net.cpp:59-66 | a node that has forgotten nothing knows exactly what merging all it has heard gives |
| Membership.SameRumorsSameRanks | src/sw/gossip-net/gossip_net.cpp:59-66 | nodes that heard the same records, in any order and however often, even in different runs, and forgot none, hold views of equal rank; and equal views where no id has two different records of top rank |
| Synchrony.SentCarriesView | src/sw/gossip-net/gossip_net.cpp:71-104 | if what a node knows in an act fits into a batch, every packet it sends carries all that it knows afterwards, relayed acks included |
| Synchrony.OneDeliverySynchronises | src/sw/gossip-net/command.cpp:32-89 | in every run, if what a sender knows fits into its batch, then right after the delivery of its message the receiver ranks every id at least as high as the sender did right after sending, unless it forgets a failure of that id in the same act |
| Synchrony.ExchangeSynchronises | src/sw/gossip-net/command.cpp:32-89 | after a message and its answer, with nothing in between on either side, knowledge that fits and nothing forgotten, both nodes rank every id alike, but for the answering node's own record, which the other takes in as well: alike there exactly when the answering node ranks itself at least as high |
| Histories.NodeIsAStoreRun | src/sw/gossip-net/command.cpp:32-89 | in every run of the cluster each node's store is the end of a run of the store alone that hears exactly what the node heard and builds exactly the batches it sent, in order |
| Histories.NodeForgetsAfterSending | src/sw/gossip-net/recently_updated_set.cpp:69-75 | a node that forgets a failure loses it in a build of the act at hand, and the batches it has sent so far carry that id at least as often as the limit of that build |
| Delivery.DatagramIsDelivered | src/sw/gossip-net/command.cpp:23-101 | parsing a node's datagram gives one request with every byte consumed, and running its command is the delivery of the message, in both directions |

## Left out

- `udp_server.*` and `uv_utils.*`: sockets, event loop and handles; the network is a set of packets.
- `GossipNet::start`, `stop`, the destructor and the mutex: thread handling around single calls.
- `GossipNet::join` and `ping_req` have empty bodies. A direct probe in the cluster is `ping`; probing
  through a relay is modelled as sending the ping-req that the handler reads.
- The logarithm in `src/sw/gossip-net/gossip_net.cpp:159-160`: floating point. The class takes an arbitrary
  function of the number of members instead, and the theorems hold for any limit.
- Rehashing, iterator invalidation and the random key prefix of the stable set.
- `NodeStatus::UNKNOWN` in records: the reader never stores it.
- Overflow of `len + 2` in `src/sw/gossip-net/resp.cpp:121` and of the 32-bit argument counter at line 54:
  sizes are unbounded here.
- `append_ok`, `append_nil`, `append_error`, `append_integer`, error texts and logging: easy members only.
- The extra turn of the argument loop as written is unrolled after the loop instead of being its last turn.
- The order in which two different ids' expired tasks are handed out; within an id it is kept.
