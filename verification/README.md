# KafkAtch: a verified model

KafkAtch watches a network. A C sniffer parses captured frames, aggregates them into microflows in a uthash table,
and once a second swaps that table for an empty one and exports its flows to Kafka; Java consumers aggregate the
flows again and raise alerts. This project models that path in Dafny and proves what it promises.

Three things are proved on top of each other.

* **The hash table, on pointers.** `FlowTypes.Flow` and `FlowTypes.Table` are the structures of the C code, with the
  application-order list and the bucket chains threaded through the same nodes. `Uthash` and `UthashSort` are the
  macros, in place. Each one is proved to compute a function of `UthashModel` or `SortModel` on the value the heap
  represents (`Table.model`), and to keep `Uthash.Valid`, which is what `HASH_FSCK` checks. `UthashLaws` and
  `SortModel` prove the library's promises about those functions, for every hash function and every history.
  `UthashHistory` carries such histories out on pointers, and `UthashCases` holds histories with a bad hash function.
* **The flow engine and the two threads.** `FlowEngine` and `KafkaClient` run on that table. `FlowRecord`, `GroupBy`
  and `Conservation` say what the records of a window mean. `Pipeline` is the step system of the capture thread, the
  flush thread and `main`, on values, and holds the theorems about what every run exports; `Protocol` holds those
  about who waits for whom and how the run ends. `Sniffer` carries the same steps out
  on pointers with the ownership of nodes as its invariant, and `Sniffer.Interleave` shows that every run of
  `Pipeline`, through every interleaving, is one of the pointer program. `Parser` is what feeds it.
* **The consumers.** `FlowDomain`, `Aggregation`, `Rolling`, `Anomaly` and `Notifier` are the classes that keep
  totals, windows, sums and maxima up to date message by message. Each keeps a ghost history, and its methods are
  proved to hold what recomputing from that history gives. `TwoStage` connects both ends: what the consumers add up
  is what went over the wire. `EndToEnd` composes the whole path, from the steps of a run on pointers through the
  messages of its log to the fields of an aggregate.

Where the code does not do what one would like, the model follows the code, gives an input that shows it, and proves
exactly when it does:

* a doubling changes the answer of a look-up if and only if more than one item has the key (`UthashLaws.FindAfterExpand`;
  adds: `UthashLaws.FindAfterAdd`; input: `UthashCases.DuplicateChangesAnswer`);
* the sniffer's totals are exact if and only if 32 bits hold every flow of every window, and a total of the
  consumers if and only if 31 bits do in that counter (`Conservation.WindowConserves`, `TwoStage.TwoStagesAgree`;
  inputs: `FlowRecord.ByteCountWraps`, `TwoStage.JavaIntOverflows`);
* a `flow_key` identifies its 5-tuple if and only if neither address contains a colon, a port and a dash in a row
  (`FlowDomain.IdentifiedExactly`; input: `FlowDomain.HiddenPortConfuses`), which no IPv4 or
  IPv6 address does, for want of a colon or of a dash;
* `unique_flow_count` counts two flows as one if and only if their concatenated texts agree
  (`Aggregation.FlowsReadAlike`; input: `Aggregation.TwoFlowsCountedAsOne`);
* once the worker has returned, packets are left unexported if and only if they arrived after the last swap
  (`Pipeline.AtExit`; input: `Pipeline.RemainderLost`).

Conventions. Addresses and ports are the numbers their bytes in network order denote; the sniffer compares, masks and
formats them only. A mutex section is one step. A tick of the clock, the end of a capture and the clearing of
`is_running` are steps that may come at any time the program order allows. `freed` is a ghost mark: methods that
dereference a node during export require it to be unset. Some proofs begin with `hide`, which only keeps
definitions away from the solver.

## Model

| member | source | states |
|---|---|---|
| Bits.AndMask | sniffer/src/uthash.h:430-433 | masking a hash value with num_buckets - 1 is the remainder by the number of buckets |
| Bits.MaskSplit | sniffer/src/uthash.h:833-883 | with one more mask bit an item of bucket i belongs to bucket i or i + num_buckets |
| Bits.CeilByShift | sniffer/src/uthash.h:819-830 | the shift-and-mask formula is n / 2^k rounded up: the least c with n <= c * 2^k |
| Uthash.PushFront | sniffer/src/uthash.h:771-776 | an item linked in front of one chain leaves every other chain linked as it was |
| Uthash.PlaceOne | sniffer/src/uthash.h:853-868 | the inner step of a doubling puts the item in front of its new chain, with count, expand_mult and nonideal_items as the model says |
| Uthash.MoveChain | sniffer/src/uthash.h:851-869 | the loop over one old chain moves its items from head to end although it overwrites the pointers it walks |
| Uthash.ExpandBuckets | sniffer/src/uthash.h:833-883 | doubling in place yields a valid table whose value is Expand of the old one; next, prev, keys and records are outside its frame |
| Uthash.AddToBkt | sniffer/src/uthash.h:767-786 | bucket half of an add, with a doubling exactly when the chain reaches its threshold and noexpand is clear |
| Uthash.MakeTable | sniffer/src/uthash.h:212-242 | the table of a first item: 32 empty buckets and zero counters |
| Uthash.AppendList | sniffer/src/uthash.h:278-284 | the item becomes the last of the list and the tail |
| Uthash.AddToTable | sniffer/src/uthash.h:337-345 | counting and bucketing a listed item gives a valid table again |
| Uthash.HashAdd | sniffer/src/uthash.h:396-415 | HASH_ADD keeps the invariant and computes Add; the head changes only from NULL |
| Uthash.FindInBkt | sniffer/src/uthash.h:745-764 | the chain walk returns the first node of the chain with the key, or NULL |
| Uthash.HashFind | sniffer/src/uthash.h:153-173 | HASH_FIND computes Find and changes nothing |
| Uthash.Unlink | sniffer/src/uthash.h:461-471 | the list without the item is linked both ways, with its new head and tail |
| Uthash.DelInBkt | sniffer/src/uthash.h:789-802 | the chain without the item is linked and counted; all other buckets stay |
| Uthash.HashDelete | sniffer/src/uthash.h:450-477 | HASH_DELETE_HH keeps the invariant and computes Delete; the last item takes the table with it and leaves a NULL head |
| UthashLaws.ExpandSplits | sniffer/src/uthash.h:833-883 | a doubling splits bucket i into i and i + num_buckets, each half in reverse order, with no other item added |
| UthashLaws.ExpandWellFormed | sniffer/src/uthash.h:833-883 | after a doubling every chain again holds exactly the items that hash to it, once each |
| UthashLaws.ExpandFigures | sniffer/src/uthash.h:819-861 | ideal_chain_maxlen is items over new buckets rounded up; nonideal_items is the sum of the excesses; the doubling counts as ineffective exactly when these are more than half the items; for every bucket (expand_mult - 1) * ideal < count <= (expand_mult + 1) * ideal |
| UthashLaws.AddWellFormed | sniffer/src/uthash.h:396-415 | adding a new item keeps the representation and appends it to the list |
| UthashLaws.DeleteWellFormed | sniffer/src/uthash.h:450-477 | deleting keeps the representation and removes the item from the list, and only it |
| UthashLaws.CountsAddUp | sniffer/src/uthash.h:516-563 | bucket counts add up to the length of the list |
| UthashLaws.BucketIsRemainder | sniffer/src/uthash.h:430-433 | an item is in the chain of the bucket whose number is its hash value modulo the number of buckets, and in no other |
| UthashLaws.AddChainBound | sniffer/src/uthash.h:1073-1084 | an add keeps every chain below its threshold or within expand_mult + 1 ideal lengths |
| UthashLaws.DeleteChainBound | sniffer/src/uthash.h:789-802 | a delete keeps that bound |
| UthashLaws.FindRefinesScan | sniffer/src/uthash.h:153-173 | with unique keys HASH_FIND answers as a scan of the application-order list does |
| UthashLaws.FindAfterExpand | sniffer/src/uthash.h:745-764 | the answer for a key survives a doubling if and only if at most one item has that key |
| UthashLaws.FindAfterAdd | sniffer/src/uthash.h:396-415 | an add leaves the look-up of any other key alone if and only if it does not double the buckets or at most one item has that key |
| UthashCases.DuplicateChangesAnswer | sniffer/src/uthash.h:777-779 | ten items with one hash value: adding the tenth doubles the buckets, and of several items with one key a look-up finds the last before and the first after |
| UthashCases.TwoItemsConfused | sniffer/src/uthash.h:777-779 | the instance with two items of one key |
| UthashLaws.KeysStayUnique | sniffer/src/uthash.h:396-415 | keys stay unique over every history of adds of absent keys and deletes |
| UthashLaws.EveryHistory | sniffer/src/uthash.h:516-563 | after every such history, for every hash function: look-ups as in the plain list, unique keys, counts that add up, bounded chains, and noexpand set exactly when the last two doublings were ineffective |
| UthashLaws.GrowthStaysOff | sniffer/src/uthash.h:875-880 | once noexpand is set, the number of buckets stays until the table is emptied |
| UthashCases.GrowthGivenUp | sniffer/src/uthash.h:875-880 | a history that sets noexpand: items with one hash value double the buckets at 10 and at 100, and at no earlier item is growth given up |
| UthashHistory.CarryOut | sniffer/src/uthash.h:516-563 | any legal history of adds and deletes, carried out on pointers, ends in a valid table that represents what the history leaves |
| UthashHistory.FindAfter | sniffer/src/uthash.h:153-173 | a look-up on those pointers answers as a scan of the plain list does |
| SortModel.HashSortIsStableSort | sniffer/src/uthash.h:890-972 | the bottom-up merge sort yields a stable permutation in which cmp of any earlier and later item is at most 0, the very order that repeated sorted insertion gives |
| SortModel.StableSortUnique | sniffer/src/uthash.h:890-972 | two sorted sequences with the same classes of equal items, in order, are the same |
| SortModel.MergeStable | sniffer/src/uthash.h:916-957 | merging two sorted runs keeps equal items in order, those of the left run first |
| SortModel.PassRuns | sniffer/src/uthash.h:900-959 | a pass turns sorted runs of length k into sorted runs of length 2k |
| UthashSort.TakeNext | sniffer/src/uthash.h:918-945 | the choice of the merge loop takes the first item of what the two runs merge to, and steps past it |
| UthashSort.MergeRuns | sniffer/src/uthash.h:916-957 | the merge loop relinks two runs behind what was put out, although it reads next pointers of a list it is rewriting |
| UthashSort.StepRun | sniffer/src/uthash.h:905-915 | the loop over one run counts it and stops where the next begins |
| UthashSort.Pass | sniffer/src/uthash.h:900-962 | one pass relinks the list to MergePass of it; it is the last pass exactly when the list is at most two runs long |
| UthashSort.SortList | sniffer/src/uthash.h:896-969 | all passes end with the list sorted, its head and its tail |
| UthashSort.HashSrt | sniffer/src/uthash.h:890-972 | HASH_SRT keeps a valid table whose chains and counters are untouched |
| UthashSort.FindPlace | sniffer/src/uthash.h:286-293 | the walk stops at the first item that compares greater |
| UthashSort.HashAddInOrder | sniffer/src/uthash.h:350-381 | HASH_ADD_INORDER keeps the invariant and inserts there |
| UthashSort.SortIsAddInOrder | sniffer/src/uthash.h:890-972 | sorting a table leaves the list that building it with HASH_ADD_INORDER leaves, sorted and stable, and every look-up finds what it found before |
| FlowRecord.FoldCounts | sniffer/src/flow.c:72-87 | every counter of a record is the true total of its packets modulo 2^32 |
| FlowRecord.ByteCountExact | sniffer/src/flow.c:73-75 | byte_count is exact if and only if the bytes are below 2^32, as they are up to 65537 packets |
| FlowRecord.ByteCountWraps | sniffer/src/flow.c:75 | 65538 packets of 65535 bytes wrap it |
| FlowRecord.FoldTimes | sniffer/src/flow.c:54-73 | min, max, first and last time are those of the packets, and total_iat_usec telescopes to their difference in any order of timestamps |
| FlowRecord.RecordMeans | sniffer/src/flow.c:54-75 | exactly when byte_count lies between min and max times packet_count, in terms of the packets, for any number of them |
| FlowRecord.MeanFallsBelow | sniffer/src/flow.c:54-75 | with 65538 full packets the mean falls below the least payload |
| FlowRecord.LocalIsPrefix | sniffer/src/flow.c:113-115 | an address counts as local exactly when it starts with the network's prefix |
| GroupBy.WindowIsGroupBy | sniffer/src/flow.c:99-133 | find-or-create-then-update over a window gives one record per distinct key, in order of first appearance, each the fold of that key's packets |
| GroupBy.FirstKeysIn | sniffer/src/flow.c:107-130 | a window has a record for exactly the keys that occur in it |
| GroupBy.FirstKeysOrdered | sniffer/src/uthash.h:278-284 | the order of the records is that of first appearance: wherever a key occurs, every key before it has occurred |
| GroupBy.RecordDirection | sniffer/src/flow.c:113-127 | for a prefix mask a record is outbound exactly when its source alone has the network's prefix, inbound when its destination alone has it, lateral when both have, unknown when neither has; without a mask always unknown |
| GroupBy.OutboundFlow | sniffer/src/flow.c:117-118 | in 192.168.0.0/16, what 192.168.0.1 sends to 8.8.8.8 is outbound |
| FlowEngine.FlowUpdateStats | sniffer/src/flow.c:50-88 | the node's fields become Update of what they were |
| FlowEngine.CreateFlow | sniffer/src/flow.c:27-40 | a fresh node with zero counters and the direction its key and the network call for |
| FlowEngine.LookUp | sniffer/src/flow.c:106-109 | the look-up finds the record of the key, or NULL exactly when there is none |
| FlowEngine.Process | sniffer/src/flow.c:99-133 | flow_process_packet keeps a table of flows, unique keys included, and its records become Upsert of what they were |
| Conservation.KeysShare | sniffer/src/flow.c:107-130 | the packets of a window are shared out between its flows, none lost or counted twice |
| Conservation.CountsAreTrue | sniffer/src/flow.c:74-86 | the totals of the packets of a class are how many there are, their payload bytes, and how many TCP packets among them carry each flag |
| Conservation.RecordCountsFlags | sniffer/src/flow.c:77-87 | a record's flag counters are, modulo 2^32, the numbers of its TCP packets with SYN, FIN, RST and ACK set, and packet_count that of its packets |
| Conservation.NoFlagsWithoutTcp | sniffer/src/flow.c:78 | a flow of any other protocol has no flag counted |
| Conservation.WindowConserves | sniffer/src/flow.c:50-88 | the records of a window carry the totals of its packets modulo 2^32 always, and exactly if and only if no counter overflowed |
| Conservation.SmallWindowFits | sniffer/src/flow.c:75 | no counter overflows in a window of at most 65537 packets |
| KafkaClient.Format | sniffer/src/kafka_client.c:143-168 | the message has the fields of the live record |
| KafkaClient.MeanIatIsSpan | sniffer/src/kafka_client.c:146-148 | the exported mean inter-arrival time is the span of the flow over its gaps |
| KafkaClient.MeanIatOfOne | sniffer/src/kafka_client.c:146-148 | it is zero for a flow of one packet |
| KafkaClient.Advance | sniffer/src/uthash.h:1060-1062 | the iterators move to the live head of what is left after the current node was freed |
| KafkaClient.ExportOne | sniffer/src/kafka_client.c:142-190 | a turn of the loop hands over the first record, frees its node, and leaves a valid table of the others |
| KafkaClient.SendFlows | sniffer/src/kafka_client.c:122-190 | draining hands over every record once in list order, frees every node and the table, and leaves NULL |
| Parser.ReadFrame | sniffer/src/parser.c:109-176 | pkt_handler's offsets and early returns compute the layered reading, and every byte read is inside caplen |
| Parser.FramesRead | sniffer/src/parser.c:113-176 | exactly which frames are read, in terms of their bytes, and at which places of any such frame, well formed or not, the addresses, the ports, the flags and the size are found; a size below zero counts as zero |
| Parser.Parse | sniffer/src/parser.c:154-176 | payload sizes are in 0 to 65535 and protocols TCP or UDP, whatever the headers claim |
| Parser.SnapLengthSuffices | sniffer/src/main.c:27 | capturing 98 bytes or more, such as 128, gives the same result as the whole frame |
| Parser.SnapLengthIsTight | sniffer/src/parser.c:121-145 | 97 bytes would not do: a tagged frame with the longest IPv4 header is lost |
| Parser.EveryPacketIsRead | sniffer/src/parser.c:131-172 | every well-formed TCP or UDP packet over IPv4, its control bits encoded one by one, with or without tag, options and padding, and cut at the snap length, is read back with its addresses, ports, FIN, SYN, RST and ACK, and exact data length |
| Parser.OneFrame | sniffer/src/parser.c:109-176 | one SYN frame, byte by byte, and what is read of it |
| Pipeline.StepKeeps | sniffer/src/main.c:49-68 | every step of either thread or of main keeps the invariant |
| Pipeline.ExportCommutes | sniffer/src/kafka_client.c:142-190 | an export turn, which holds no mutex, and a step of the capture thread or of main give the same outcome in either order, and neither enables or prevents the other |
| Protocol.EverySwapIsTested | sniffer/src/main.c:49-57 | between any two swaps, and before the first, the flush thread tests is_running and finds it set |
| Protocol.CaptureOrder | sniffer/src/main.c:192-211 | packets arrive only between the start and the end of pcap_loop, and is_running is cleared only after its end or after it could not be set up |
| Protocol.NeverStuck | sniffer/src/main.c:49-68 | until it has returned the flush thread can take exactly one step, whatever the others do |
| Protocol.ComesToAnEnd | sniffer/src/main.c:209-212 | once is_running is cleared every step of the flush thread brings it one nearer its end: at most one swap, the export of every record held, the end of the sleep and one test; it has returned exactly when all of them are taken |
| Pipeline.BatchesAreGroupBys | sniffer/src/main.c:53-62 | in every state of every run: each batch is the group-by of its window, a batch under export a prefix of it, the active table that of the current window, and the windows in order are the accepted packets |
| Pipeline.WindowSinceSwap | sniffer/src/main.c:53-57 | the current window holds exactly the packets that arrived since the last swap |
| Pipeline.WindowsConserve | sniffer/src/main.c:53-62 | any number of windows carry the totals of all their packets, modulo 2^32, and exactly if and only if none overflowed |
| Pipeline.Conserved | sniffer/src/main.c:49-68 | accepted = exported + being exported + active, over every interleaving, for packets, bytes and flags, for all flows or any class of keys |
| Pipeline.ConservedCount | sniffer/src/main.c:49-68 | the same of each counter, against the number of packets, bytes or flags accepted |
| Pipeline.AtExit | sniffer/src/main.c:209-216 | when the worker has returned nothing is half exported: the batches are the group-bys of the packets accepted up to the last swap, and the active table that of the packets after it, empty exactly when there are none |
| Pipeline.RemainderLost | sniffer/src/main.c:209-216 | a run in which such a packet is never exported |
| Sniffer.SwapKeepsPair | sniffer/src/main.c:54-57 | a swap keeps ownership, and what it overwrites refers to no node in use |
| Sniffer.Sniffer.constructor | sniffer/src/main.c:172-178 | the context main sets up satisfies the invariant |
| Sniffer.Sniffer.FlowProcessPacket | sniffer/src/flow.c:99-133 | a packet changes the active table only; the table being exported stays as it was |
| Sniffer.Sniffer.PktHandler | sniffer/src/parser.c:95-184 | a frame is one packet step or none, as its parse says |
| Sniffer.Sniffer.SwapStep | sniffer/src/main.c:53-66 | the swap takes the step of Pipeline; the slot it sets to NULL was NULL or referred to a freed node, never to an undrained table |
| Sniffer.Sniffer.ExportStep | sniffer/src/kafka_client.c:142-190 | an export turn, with no mutex held, takes the step of Pipeline, leaves the active table alone and appends one message |
| Sniffer.Sniffer.TakeStep | sniffer/src/main.c:39-71 | every enabled step can be taken on pointers and keeps the invariant |
| Sniffer.Sniffer.Interleave | sniffer/src/main.c:39-71 | every run, through every interleaving, ends in a heap that agrees with its final state and has handed over exactly the batches' messages |
| Text.DecimalInjective | kafkatch-core/src/main/java/br/ufes/edu/domain/Flow.java:217-222 | different numbers print differently |
| Text.DecimalDenotes | kafkatch-core/src/main/java/br/ufes/edu/domain/Flow.java:217-222 | a printed number, read in base ten, is the number |
| Text.DottedInjective | sniffer/src/kafka_client.c:143-144 | different addresses print differently |
| Text.OneAddress | sniffer/src/kafka_client.c:143-144 | one address and its text |
| FlowDomain.Flow.constructor | kafkatch-core/src/main/java/br/ufes/edu/domain/Flow.java:188-223 | the appended flow_key is the delimited text of the 5-tuple |
| FlowDomain.OneFlowKey | kafkatch-core/src/main/java/br/ufes/edu/domain/Flow.java:217-222 | one 5-tuple and its flow_key, character by character |
| FlowDomain.IdentifiedExactly | kafkatch-core/src/main/java/br/ufes/edu/domain/Flow.java:217-222 | no other 5-tuple has the flow_key of a flow if and only if neither of its addresses contains a colon, a port and a dash in a row |
| FlowDomain.FlowKeyIdentifies | kafkatch-core/src/main/java/br/ufes/edu/domain/Flow.java:217-222 | so equal flow_keys mean equal 5-tuples, and the other way round, once the addresses of one flow are like that, whatever those of the other |
| FlowDomain.AddressesHideNothing | kafkatch-core/src/main/java/br/ufes/edu/domain/Flow.java:217-222 | an address that is not like that has both a colon and a dash; IPv4 addresses have no colon and IPv6 addresses no dash |
| FlowDomain.HiddenPortConfuses | kafkatch-core/src/main/java/br/ufes/edu/domain/Flow.java:217-222 | a source address that is not, and the other flow with its flow_key |
| FlowDomain.FlowKeyRefinesKey | kafkatch-core/src/main/java/br/ufes/edu/domain/Flow.java:217-222 | on what the sniffer sends, flow_key tells flows apart exactly as the binary key does |
| FlowDomain.ReadJson | kafkatch-core/src/main/java/br/ufes/edu/serdes/FlowParser.java:20-61 | a message becomes a Flow, or none exactly when a name is unknown |
| FlowDomain.MessageTrip | kafkatch-core/src/main/java/br/ufes/edu/serdes/FlowParser.java:20-61 | the record of a TCP or UDP flow survives formatting and reading, counters as Java ints; any other is dropped |
| Aggregation.AggregatedFlow.AddFlow | kafkatch-core/src/main/java/br/ufes/edu/domain/AggregatedFlow.java:59-86 | after every add the fields are the summary of all flows added, with unique_flow_count the size of flowKeys |
| Aggregation.AggregatedFlow.GetAveragePacketSize | kafkatch-core/src/main/java/br/ufes/edu/domain/AggregatedFlow.java:88-92 | the mean times the packets in and out is their bytes; zero without packets |
| Aggregation.OrderIndependent | kafkatch-core/src/main/java/br/ufes/edu/domain/AggregatedFlow.java:59-86 | every permutation of the flows gives the same summary |
| Aggregation.UniqueCount | kafkatch-core/src/main/java/br/ufes/edu/domain/AggregatedFlow.java:77-83 | unique_flow_count is at most the number of distinct 5-tuples, and equal exactly when no two have the same text |
| Aggregation.FlowsReadAlike | kafkatch-core/src/main/java/br/ufes/edu/domain/AggregatedFlow.java:77-79 | exactly when two flows of the sniffer have the same text: which octets agree and which runs of digits |
| Aggregation.TwoFlowsCountedAsOne | kafkatch-core/src/main/java/br/ufes/edu/domain/AggregatedFlow.java:77-79 | 1.1.1.1 port 12 and 1.1.1.11 port 2 are counted as one |
| TwoStage.TwoStagesAgree | kafkatch-core/src/main/java/br/ufes/edu/domain/AggregatedFlow.java:59-73 | each total by direction over the exported records equals that over the packets wherever windows end: modulo 2^32 always, never more, and exactly if and only if within each window no flow of these directions reaches 2^31 in that counter |
| TwoStage.JavaIntOverflows | kafkatch-core/src/main/java/br/ufes/edu/serdes/FlowParser.java:33-36 | 32769 inbound packets of 65535 bytes fit the sniffer's counters, and yet the aggregate's inbound bytes fall short of them, while every other counter is exact |
| TwoStage.JavaIntOverflowInput | sniffer/src/flow.c:113-120 | a network and such a packet: a host of 192.168.0.0/16 receives it |
| TwoStage.EveryRunAddsUp | kafkatch-core/src/main/java/br/ufes/edu/domain/AggregatedFlow.java:59-73 | the same of every state of every run of the sniffer, what is still being exported included |
| TwoStage.UniqueFlowsSeen | kafkatch-core/src/main/java/br/ufes/edu/domain/AggregatedFlow.java:75-83 | unique_flow_count against the distinct keys of the packets themselves |
| EndToEnd.Consume | kafkatch-core/src/main/java/br/ufes/edu/App.java:101-127 | reading a log message by message and adding what can be read leaves the summary of exactly those flows |
| EndToEnd.LogAccountsForPackets | kafkatch-core/src/main/java/br/ufes/edu/App.java:101-127 | in every state of every run the flows read from the log, with those still to be exported, account for the packets accepted before the last swap: every figure modulo 2^32, never more, and exact if and only if its own counter stays below 2^31 for every flow of its directions in every window; unique_flow_count against the distinct keys |
| EndToEnd.AnySplitAddsUp | kafkatch-core/src/main/java/br/ufes/edu/App.java:113-127 | however the consumer's windows split the log, the totals of the aggregates add up to those of the whole |
| EndToEnd.RunAndConsume | kafkatch-core/src/main/java/br/ufes/edu/App.java:101-127 | a run of the sniffer on pointers, its log consumed: the fields of the aggregate in terms of the accepted packets |
| Rolling.RollingStats.Add | kafkatch-notification/src/main/java/br/ufes/edu/domain/RollingStats.java:21-27 | the values become the last maxSize of all, and the sum is theirs |
| Rolling.RollingStats.Average | kafkatch-notification/src/main/java/br/ufes/edu/domain/RollingStats.java:29-31 | the mean times the size is the sum; positive exactly when the sum is |
| Anomaly.AnomalyDetector.Check | kafkatch-notification/src/main/java/br/ufes/edu/AnomalyDetectorTransformer.java:107-150 | the alert is the right one, by its ratio to the mean, for the last windowSize samples of this key before this one, and the store then holds the window with it |
| Anomaly.AlertIsRight | kafkatch-notification/src/main/java/br/ufes/edu/AnomalyDetectorTransformer.java:119-141 | the verdict spelled out: nothing without three samples of positive mean, and otherwise alta, media, regular or nothing exactly by which thresholds current / average reaches |
| Anomaly.TenfoldIsAlta | kafkatch-notification/src/main/java/br/ufes/edu/AnomalyDetectorTransformer.java:133-134 | with the thresholds in use, 1000 after three times 100 is alta |
| Anomaly.StoreKeysDiffer | kafkatch-notification/src/main/java/br/ufes/edu/AnomalyDetectorTransformer.java:83-84 | different keys have different histories, and only a null key shares the one of "global" |
| Anomaly.AnomalyDetector.Transform | kafkatch-notification/src/main/java/br/ufes/edu/AnomalyDetectorTransformer.java:75-105 | the warnings are a function of the input stream, metric by metric; null aggregates change nothing; null keys share one history |
| Anomaly.RatioReaches | kafkatch-notification/src/main/java/br/ufes/edu/AnomalyDetectorTransformer.java:120-139 | current / average >= r exactly when current * size >= r * sum |
| Anomaly.HigherAlertsMore | kafkatch-notification/src/main/java/br/ufes/edu/AnomalyDetectorTransformer.java:133-139 | a higher value never gets a lower alert |
| Anomaly.UnitsDoNotMatter | kafkatch-notification/src/main/java/br/ufes/edu/AnomalyDetectorTransformer.java:119-139 | scaling all values by a positive factor changes no decision |
| Anomaly.OtherKeysDoNotMatter | kafkatch-notification/src/main/java/br/ufes/edu/AnomalyDetectorTransformer.java:83-84 | a decision is the same on the stream of its key alone, wherever the inputs of other keys stand |
| Anomaly.OldValuesDoNotMatter | kafkatch-notification/src/main/java/br/ufes/edu/domain/RollingStats.java:24-26 | values that have left the window change no decision |
| Notifier.Notifier.UpdateRecords | kafkatch-notification/src/main/java/br/ufes/edu/Notifier.java:147-165 | the records become the maxima of the sample, -1 when it is empty |
| Notifier.Notifier.AddAggregateSample | kafkatch-notification/src/main/java/br/ufes/edu/Notifier.java:41-72 | after every add the list is the last sample_max_size samples, the sums are theirs and the records their maxima, although maxima are recomputed only when a holder may have left |
| Notifier.HighestWithoutFirst | kafkatch-notification/src/main/java/br/ufes/edu/Notifier.java:62-66 | a maximum stays when a smaller value leaves |
| Notifier.HighestIsMaximum | kafkatch-notification/src/main/java/br/ufes/edu/Notifier.java:147-165 | what is kept bounds every value and is one of them, or -1 |

## Left out

- Uthash.ExpandBuckets: num_buckets, log2_num_buckets, num_items, count and the growth counters are unbounded numbers; their 32-bit wrap-around is not modelled, because memory runs out first.
- UthashSort.SortList: the run length is an unbounded number too, but its invariant shows that it stays below the number of items while it is used.
- UthashSort.HashSrt: the comparison function is a fixed function on nodes, so one that changes its mind during a sort is not covered; the stated order needs it to be a total preorder on the items.
- Parser.ReadFrame: the type fields of the Ethernet header and of a VLAN tag are read before any length check, so frames long enough to hold them are a precondition.
- Sniffer.Sniffer.PktHandler: the same.
- KafkaClient.Format: the JSON text, number formatting and `%.1f` rounding are not modelled; a message is its fields.
- KafkaClient.MeanIatIsSpan: total_iat_usec is an integer and the mean an exact quotient, where the code uses double.
- Anomaly.AnomalyDetector.Check: averages and ratios are exact reals, where the code uses double; the description text of a warning is not modelled, nor are a failing state store and negative window sizes.
- Aggregation.AggregatedFlow.AddFlow: long and int totals are unbounded, null names and the two timestamps, timestamp_end among them, are not modelled.
- FlowDomain.ReadJson: a JSON number beyond the int range is taken to wrap as Jackson's asInt does; the kafka timestamp is not modelled, nor are texts that are no JSON object with all the fields.
- FlowDomain.Flow.constructor: the timestamp field is not modelled.
- Notifier.Notifier.AddAggregateSample: samples are values, so an AggregatedFlow changed after it was added is not covered; sample_max_size is fixed.
- Sniffer.Sniffer.ExportStep: a turn of the export loop is one step, although it holds no mutex; the other threads touch nothing that it touches (Sniffer.ProcessInPair and Sniffer.ExportInPair change disjoint footprints) and their steps commute with it (Pipeline.ExportCommutes), but the points inside a turn are no states of the model.
- Sniffer.Sniffer.Interleave: the same, and a memory model weaker than sequential steps is not covered; is_running is an atomic flag.
- Export of the last window: the code does not flush the active table after the worker stops, so no eventual export is claimed.
- Delivery by librdkafka: a record counts as exported when it is handed to the producer, whose result the code ignores; the producer is never NULL after main has started.
- flow_table_clear: the loop of kafka_client_send_flows without its messages, and called by nothing.
- Allocation failure, HASH_BLOOM, HASH_SELECT, HASH_REPLACE, HASH_CLEAR and the string and int macros: not used by the sniffer's build.
- The hash functions: any function of the key stands for them; keys have no padding, so comparing bytes is comparing fields.
- libpcap, signals, thread creation, clocks and sleeping: external calls; their effects are steps.
- Kafka Streams windows and suppression, serdes, Splitter, both App classes, toasts, debug printing and scripts: library behaviour or output.
