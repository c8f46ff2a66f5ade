# CASAN

CASAN lets a master speak CoAP with constrained slaves directly over a layer 2 network. The
repository holds a master in C++ (`c-master`), one in Python (`py-master`), an Arduino slave
(`arduino/libraries/Casan`) and a modified tinyDTLS with the data structures it uses
(`arduino/libraries/Dtls-s`). This project models the parts of it whose correctness is not local,
and proves what their documentation, their standards or their own checks promise.

| file | component |
|---|---|
| `HashTable.dfy`, `Links.dfy`, `ListSort.dfy` | the chained hash table with its second list in application order, automatic expansion, and the bottom-up merge sort of linked lists |
| `DtlsPeer.dfy`, `DtlsRuns.dfy`, `DtlsKeys.dfy`, `DtlsSequence.dfy`, `DtlsConnect.dfy`, `DtlsEngine.dfy` | a DTLS peer: security parameters, their epochs and keys, record numbers, retransmission, the handshake states of both roles, how it becomes connected and ends, and the reorder queue |
| `DtlsRecord.dfy` | the record layer with its compression of application records |
| `Ccm.dfy`, `Hmac.dfy`, `Numeric.dfy` | AES-CCM and the pseudo-random function over an arbitrary block cipher and hash |
| `CasanSlave.dfy`, `SlaveTurns.dfy`, `CasanTime.dfy`, `CasanEngine.dfy` | the slave's state machine, the cause of each of its changes, its clock and its timers |
| `Association.dfy`, `MasterSteps.dfy`, `Deception.dfy`, `Retransmit.dfy` | master and slave over a lossy link, and the master's engine: correlation, linking, retransmission |
| `WellKnown.dfy`, `ResourceList.dfy`, `LinkFormat.dfy` | the slave's resource list, the master's parser of it, and the grammar it accepts |
| `CoapCodec.dfy`, `CoapMessage.dfy`, `OptionValue.dfy`, `RequestCache.dfy` | the CoAP codec of RFC 7252 and the request cache |
| `XbeeFramer.dfy` | the XBee frame resynchroniser of both masters |
| `Bytes.dfy`, `Wrappers.dfy` | shared definitions |

Where a component updates an object or a buffer, there is a specification on values, lemmas about
it, and a class or a method with the source's loops whose postcondition equates the new state with
the specification. Whole runs are sequences of events; what hardware, the network, clocks, random
numbers and cryptographic checks answer is part of the events and arbitrary.

Where the code and its documentation or evident intent differ, the model follows the code, and
states exactly when the promise is kept:

- Tokens of 8 bytes are announced with length 0 (`CoapCodec.DecodeAfterEncode`, `CoapCodec.EncodeAfterDecode`).
- A cached request is compared by message type where the comment says method
  (`RequestCache.AnswersByMethodIff`, `RequestCache.PutAnsweredFromGet`).
- An `obs` mark at the very end of a resource list is not recorded
  (`WellKnown.EverythingRecoveredIff`, `WellKnown.LastMarkIsLost`).
- The record layer would lose the first 8 bytes of application data sent without a cipher
  (`DtlsRecord.RoundTripIff`); no run sends any (`DtlsKeys.ApplicationDataArrive`).
- A peer of server role that follows a HelloRequest can switch back to older security parameters
  (`DtlsRuns.SlotsInEveryRun`, `DtlsRuns.EpochsCanGoDown`, `DtlsRuns.WithoutRequests`).
- What arrives under epoch 0 is delivered without authentication for a while after the switch
  (`DtlsKeys.UnauthenticatedIff`, `DtlsRuns.ForgedAlertEndsConnection`, `DtlsKeys.AllAuthenticated`).
- The size check of outgoing records does not count the tag, and the receiver's temporary buffer is
  smaller than a record may be (`DtlsRecord.CheckLeavesRoomIff`, `DtlsRecord.ReceiverHasRoomIff`).
- Any acknowledgement with its id passes for the answer to an Assoc request, so that an id used again
  too early or a truncated Assoc request can deceive the master (`Deception.MisguidesIff`,
  `Deception.EarlyReuseMisleads`, `Deception.TruncationMisleads`).
- The option number of Accept is 16 instead of the 17 of section 5.10 of RFC 7252; it is part of the
  cache key all the same (`RequestCache.OptionsOfTheKey`).
- With a time to live of zero an association outlives it (`CasanSlave.EveryRun`, `CasanSlave.ZeroTimeToLive`).

## Model

| member | source | states |
|---|---|---|
| `HashTable.UTHash.constructor` | arduino/libraries/Dtls-s/uthash.h:87-98 | an empty hash is sound |
| `HashTable.UTHash.Find` | arduino/libraries/Dtls-s/uthash.h:87-98 | HASH_FIND returns an element with the key, and NULL only if no element of the whole table has it, although it looks at one bucket |
| `HashTable.UTHash.Add` | arduino/libraries/Dtls-s/uthash.h:165-188 | HASH_ADD_KEYPTR of a new key, with the expansion it may trigger, keeps the whole invariant and appends exactly this element to the application order; the number of buckets doubles exactly if the chain of the key reaches its threshold and expansion has not been given up, and a table that has given up keeps its buckets for good |
| `HashTable.UTHash.AppendItem` | arduino/libraries/Dtls-s/uthash.h:168-180 | the first element makes the table, a later one goes behind the tail of the application-order list; the element is then in no bucket yet |
| `HashTable.UTHash.RecordHash` | arduino/libraries/Dtls-s/uthash.h:181-185 | recording the hash value and the count disturbs no bucket |
| `HashTable.UTHash.AddToBucket` | arduino/libraries/Dtls-s/uthash.h:665-676 | HASH_ADD_TO_BKT links the element into the bucket its hash value selects and expands when the chain gets too long |
| `HashTable.UTHash.LinkIntoBucket` | arduino/libraries/Dtls-s/uthash.h:665-676 | one more element in its bucket, all buckets stay sound |
| `HashTable.UTHash.MakeTable` | arduino/libraries/Dtls-s/uthash.h:139-156 | a new table has 32 empty buckets |
| `HashTable.UTHash.ExpandBuckets` | arduino/libraries/Dtls-s/uthash.h:720-766 | HASH_EXPAND_BUCKETS doubles the number of buckets and keeps the invariant; the expansion counts as ineffective exactly if the new chains exceed their ideal length by more than half of the elements in all, and two such expansions in a row end all expansion |
| `HashTable.UTHash.SetIdealLength` | arduino/libraries/Dtls-s/uthash.h:731-734 | the ideal chain length is the least number of elements per bucket that holds all of them: numItems divided by the number of buckets, rounded up |
| `HashTable.UTHash.FirstExpansion` | arduino/libraries/Dtls-s/uthash.h:665-676 | in a table that has not been expanded yet the tenth element of a chain expands it |
| `HashTable.UTHash.NextExpansion` | arduino/libraries/Dtls-s/uthash.h:720-766 | after an expansion chains up to the ideal length are full with ten elements, longer ones with ten more for each ideal length in them; and expansion is given up exactly if more than half of the elements are beyond the ideal length for the second time in a row |
| `HashTable.UTHash.Redistribute` | arduino/libraries/Dtls-s/uthash.h:734-754 | all elements of the old chains, and no others, are in the new ones |
| `HashTable.UTHash.MoveChain` | arduino/libraries/Dtls-s/uthash.h:737-753 | one old chain is walked while its links are being overwritten, and none of its elements is lost |
| `HashTable.UTHash.Delete` | arduino/libraries/Dtls-s/uthash.h:207-240 | HASH_DELETE of a present element removes exactly it, the rest keeps its order, and the number of buckets and the judgement on expansions stay; deleting the only element empties the hash |
| `HashTable.UTHash.DeleteLinked` | arduino/libraries/Dtls-s/uthash.h:217-238 | head, tail, both lists and the count after the element is unlinked |
| `HashTable.UTHash.RemoveFromItsBucket` | arduino/libraries/Dtls-s/uthash.h:679-689 | HASH_DEL_IN_BKT of the bucket the hash value selects takes exactly this element out of the chains |
| `HashTable.UTHash.Sort` | arduino/libraries/Dtls-s/uthash.h:773-850 | HASH_SRT: the application order becomes a sorted, stable permutation of itself; buckets, and so all lookups, are untouched |
| `HashTable.UTHash.FsckPasses` | arduino/libraries/Dtls-s/uthash.h:264-314 | every check of HASH_FSCK passes in every reachable state: bucket counts are chain lengths and add up to num_items, both lists are consistent in both directions and hold the same elements |
| `HashTable.UTHash.InItsBucket` | arduino/libraries/Dtls-s/uthash.h:190-193 | every element is in the bucket hashv mod num_buckets |
| `HashTable.PushKeepsBuckets` | arduino/libraries/Dtls-s/uthash.h:665-676 | linking an element at the head of its bucket keeps every bucket sound |
| `HashTable.RemoveKeepsBuckets` | arduino/libraries/Dtls-s/uthash.h:679-689 | unlinking an element keeps every bucket sound |
| `HashTable.CountsAddUp` | arduino/libraries/Dtls-s/uthash.h:264-290 | sound bucket counts add up to the number of elements |
| `Links.LinkFrontLinks` | arduino/libraries/Dtls-s/uthash.h:668-671 | insertion at the head of a doubly-linked list |
| `Links.LinkBackLinks` | arduino/libraries/Dtls-s/uthash.h:176-178 | insertion at the end of a doubly-linked list |
| `Links.UnlinkLinks` | arduino/libraries/Dtls-s/uthash.h:684-689 | removal from anywhere in a doubly-linked list leaves the others linked in their order |
| `ListSort.SortCorrect` | arduino/libraries/Dtls-s/uthash.h:773-850 | for any total preorder the passes with doubling run length return a sorted permutation in which equivalent elements keep their order |
| `ListSort.ByNumber` | arduino/libraries/Dtls-s/uthash.h:773-850 | comparing numbers of the elements is such a preorder: sorted means that the numbers do not go down, equivalent that they are equal |
| `ListSort.MergeSorted` | arduino/libraries/Dtls-s/uthash.h:799-837 | merging two sorted runs gives a sorted run |
| `ListSort.MergeStable` | arduino/libraries/Dtls-s/uthash.h:799-837 | a merge keeps the order of equivalent elements, those of the first run first |
| `ListSort.PassSorts` | arduino/libraries/Dtls-s/uthash.h:787-839 | a pass turns sorted runs of length k into sorted runs of length 2k |
| `ListSort.PassStable` | arduino/libraries/Dtls-s/uthash.h:787-839 | a pass is stable |
| `ListSort.PassesPermute` | arduino/libraries/Dtls-s/uthash.h:782-847 | all passes together permute the list |
| `ListSort.Sort` | arduino/libraries/Dtls-s/uthash.h:773-850 | the nested loops over next and prev end, and leave the sorted list linked in both directions with its head and tail |
| `ListSort.SortDoubly` | arduino/libraries/Dtls-s/utlist.h:156-212 | DL_SORT on lists whose first element points back to the last: the same order, and the links of such a list |
| `ListSort.LinkedToTailMeaning` | arduino/libraries/Dtls-s/utlist.h:156-212 | the links of such a list: each element to its neighbours, the last one forward to none, the first one back to the last |
| `ListSort.OnePass` | arduino/libraries/Dtls-s/uthash.h:783-845 | one turn of the outer loop: all pairs of runs merged by relinking, the list closed again, and nmerges at most 1 exactly when this was the last pass |
| `ListSort.MergeRuns` | arduino/libraries/Dtls-s/uthash.h:798-837 | one merge by relinking: the elements of both runs are appended to the output in merge order |
| `ListSort.StepOver` | arduino/libraries/Dtls-s/uthash.h:789-797 | the step over one run finds the start of the next |
| `DtlsRuns.SlotsInEveryRun` | arduino/libraries/Dtls-s/peer.h:72-124 | in every run of handshakes, renegotiations, losses and errors slot 0 is never null and slot 1 is empty or other parameters exactly one epoch away; the epoch in use has ever gone down if and only if some event of the run is a handshake record of the current epoch that sets a server, connected or awaiting a Server Hello, on a sequence of waiting messages through a HelloRequest and a Server Hello up to a Finished message that verifies |
| `DtlsRuns.MisledIff` | arduino/libraries/Dtls-s/dtls.c:3041-3077 | a Finished message is accepted in a handshake that a server has opened as a client exactly in runs with such an event, which is a condition on the messages in the queue and the state before the event |
| `DtlsRuns.TurnMisdirectsIff` | arduino/libraries/Dtls-s/dtls.c:3341-3372 | for one message in its turn and the drain loop after it |
| `DtlsRuns.MisledOnlyByRequest` | arduino/libraries/Dtls-s/dtls.c:3211-3236 | a client never meets such an event, and neither does a server to which no HelloRequest is delivered |
| `DtlsRuns.WithoutRequests` | arduino/libraries/Dtls-s/peer.h:117-124 | so without HelloRequests the epoch of slot 0 never decreases and no record number is used twice over the whole life of a peer |
| `DtlsRuns.SwitchesPromoteFreshKeys` | arduino/libraries/Dtls-s/peer.h:117-124 | without such an event the k-th switch promotes the parameters of epoch k + 1, with a key block and before any record was prepared under them, and the epoch in use is the number of switches |
| `DtlsRuns.EpochsDoNotGoDown` | arduino/libraries/Dtls-s/peer.h:117-124 | without such an event the epoch of slot 0 never decreases between any two points of a run |
| `DtlsRuns.RecordNumbersNeverRepeat` | arduino/libraries/Dtls-s/dtls.c:429-456 | up to 2^48 records under one set of parameters and fewer than 2^16 sets, no two records under one set carry the same epoch and sequence number, retransmissions included; without such an event no two records of the peer do at all (section 4.1 of RFC 6347) |
| `DtlsRuns.KeystreamNeverReused` | arduino/libraries/Dtls-s/dtls.c:1297-1303 | so no two records under one set of parameters share a counter block of the cipher |
| `DtlsRuns.EpochsCanGoDown` | arduino/libraries/Dtls-s/dtls.c:3041-3077 | a run with such an event: a server that followed a HelloRequest switches back to older parameters, because the Finished message waited in the reorder queue, and then uses one pair of record numbers under two sets of parameters |
| `DtlsConnect.ConnectsIff` | arduino/libraries/Dtls-s/dtls.c:3041-3077 | in every run of either role a peer that is not connected becomes connected in one step if and only if the event is a handshake record of the expected epoch that opens and carries the expected message, which completes the handshake alone or with the queued messages after it; the handshake parameters are then gone |
| `DtlsConnect.FinishedConnects` | arduino/libraries/Dtls-s/dtls.c:3041-3077 | in every run a peer that waits for Finished and gets it, verified, becomes connected without handshake parameters: a client under the same parameters, a server under the newer ones |
| `DtlsConnect.ClientConnects` | arduino/libraries/Dtls-s/dtls.c:3074 | in every run from a client's first message the expected Finished connects it, and data it then writes go out as one record |
| `DtlsConnect.ClientRun` | arduino/libraries/Dtls-s/dtls.c:2698-2760 | a run of a client from its first message over Server Hello and Finished to a record with application data under the new key block |
| `DtlsConnect.TurnConnectsIff` | arduino/libraries/Dtls-s/dtls.c:3341-3372 | the same for one message in its turn and the queued ones after it |
| `DtlsConnect.DestroyedIff` | arduino/libraries/Dtls-s/dtls.c:3388-3449 | an event ends a peer exactly if it is an alert of two bytes in a record that opens, fatal or a close notify, or the peer is closed from its own side |
| `DtlsConnect.WritesIff` | arduino/libraries/Dtls-s/dtls.c:279-291 | data go out, as one record, exactly while the peer is connected; otherwise nothing changes |
| `DtlsConnect.RenegotiatesIff` | arduino/libraries/Dtls-s/dtls.c:2880-2919 | exactly a connected peer renegotiates |
| `DtlsConnect.WaitsIff` | arduino/libraries/Dtls-s/dtls.c:3318-3340 | an early message of a handshake is queued exactly if none with its number waits already, and a late one is dropped |
| `DtlsConnect.WrongEpochIsIgnored` | arduino/libraries/Dtls-s/dtls.c:3563-3600 | a handshake record of another epoch than the expected one changes nothing but the slots its opening frees |
| `DtlsConnect.UnexpectedCloses` | arduino/libraries/Dtls-s/dtls.c:2921-3248 | a message that the state does not expect closes the connection |
| `DtlsConnect.CloseNotify` | arduino/libraries/Dtls-s/dtls.c:3388-3449 | a close notify is answered and ends the peer |
| `DtlsConnect.CloseIsAnswered` | arduino/libraries/Dtls-s/dtls.c:3388-3449 | the own side closes with one alert, and the close notify that answers it ends the peer without another one |
| `DtlsConnect.ErrorCodes` | arduino/libraries/Dtls-s/dtls.c:3451-3477 | the codes of fatal alerts, of warnings but for a close notify, and -1 close the connection with one alert, all others change nothing |
| `DtlsConnect.AnswersEndRetransmissions` | arduino/libraries/Dtls-s/dtls.c:3482-3628 | alerts and application data that open end the retransmissions |
| `DtlsConnect.FreshClient` | arduino/libraries/Dtls-s/dtls.c:3762-3830 | a new client has used one record number of the initial parameters and awaits a Server Hello, if its hello went out |
| `DtlsConnect.FreshServer` | arduino/libraries/Dtls-s/dtls.c:3132-3209 | a new server has used two, has keyed the next parameters, waits for Finished and expects the message after the Client Hello |
| `DtlsConnect.SentAgain` | arduino/libraries/Dtls-s/dtls.c:3836-3888 | a message that waits for its answer is sent again exactly 7 times, each time as one record under the parameters of its epoch, and then given up |
| `DtlsKeys.SwitchesPromoteKeys` | arduino/libraries/Dtls-s/dtls.c:645-757 | in every run, whatever checks, key calculations and callbacks answer, every switch promotes parameters with a key block, and a connected peer has a cipher; a failed key calculation closes the connection before its parameters could be promoted |
| `DtlsKeys.ApplicationDataArrive` | arduino/libraries/Dtls-s/dtls.c:279-291 | application data sent in any run are protected, and a peer of opposite role with the same key block gets exactly these data |
| `DtlsKeys.UnauthenticatedIff` | arduino/libraries/Dtls-s/dtls.c:2802-2866 | until a peer closes, the content of a record is delivered without authentication exactly if it comes under epoch 0 while a slot still holds the initial parameters; once connected that is slot 1, and handshake messages of such records are dropped |
| `DtlsRuns.ForgedAlertEndsConnection` | arduino/libraries/Dtls-s/dtls.c:3388-3449 | a fresh connection of a server ends with a fatal alert that nobody has authenticated |
| `DtlsKeys.AllAuthenticated` | arduino/libraries/Dtls-s/dtls.c:2863 | after the first protected record that opens while connected all that is delivered was authenticated |
| `DtlsKeys.StepCiphers` | arduino/libraries/Dtls-s/dtls.c:3482-3628 | every event keeps the invariant behind this |
| `DtlsKeys.HandleCiphers` | arduino/libraries/Dtls-s/dtls.c:2921-3248 | every handshake message keeps it, up to a missing key block, whose error closes the connection |
| `DtlsKeys.AcceptFinishedCiphers` | arduino/libraries/Dtls-s/dtls.c:3041-3077 | the parameters a server switches to on a Finished message have a cipher |
| `DtlsKeys.AnswerServerHelloCiphers` | arduino/libraries/Dtls-s/dtls.c:2698-2760 | the parameters switched to after a Server Hello have a cipher |
| `DtlsPeer.StepEpochs` | arduino/libraries/Dtls-s/dtls.c:3482-3628 | every event keeps the epochs of the slots one apart, the numbers of all records below the next one, and lowers the epoch only by a misdirected Finished |
| `DtlsPeer.HandleEpochs` | arduino/libraries/Dtls-s/dtls.c:2921-3248 | every handshake message, whatever its checks and the write callback answer, keeps it |
| `DtlsPeer.AcceptFinishedEpochs` | arduino/libraries/Dtls-s/dtls.c:3041-3077 | the switch on a Finished message goes to the newer epoch, unless the Finished is misdirected |
| `DtlsPeer.AnswerServerHelloEpochs` | arduino/libraries/Dtls-s/dtls.c:2698-2760 | the switch after a Server Hello goes to the epoch made just before |
| `DtlsPeer.AnswerClientHelloEpochs` | arduino/libraries/Dtls-s/dtls.c:3132-3209 | a server keys the next parameters, not the ones in use |
| `DtlsPeer.DrainEpochs` | arduino/libraries/Dtls-s/dtls.c:3352-3372 | messages taken from the reorder queue, which are not checked for their epoch again |
| `DtlsPeer.DecryptEpochs` | arduino/libraries/Dtls-s/dtls.c:2763-2870 | a handshake record that opens under the expected epoch finds parameters to switch to; opening a record never frees parameters not yet in use |
| `DtlsPeer.RetransmitNumbered` | arduino/libraries/Dtls-s/dtls.c:3836-3888 | a retransmission takes a new number from the parameters of the epoch the message was first sent in |
| `DtlsPeer.RetransmitOrdered` | arduino/libraries/Dtls-s/dtls.c:3836-3888 | and these are never parameters that have not been in use yet |
| `DtlsPeer.SendNumbered` | arduino/libraries/Dtls-s/dtls.c:429-456 | each record takes the next number |
| `DtlsPeer.KeyBlocksNumbered` | arduino/libraries/Dtls-s/peer.h:90-102 | new parameters are one epoch ahead, with an unused address and number 0 |
| `DtlsPeer.SwitchUpOrdered` | arduino/libraries/Dtls-s/peer.h:117-124 | a switch to newer parameters keeps one set of parameters per epoch |
| `DtlsPeer.FreeOtherNumbered` | arduino/libraries/Dtls-s/peer.h:104-115 | only superseded parameters are freed |
| `DtlsPeer.HandleKeepsQueue` | arduino/libraries/Dtls-s/dtls.c:2921-3248 | handling a message leaves the reorder queue alone and moves the expected number by one exactly if it is accepted and is not an ignored HelloRequest |
| `DtlsSequence.SequencedInEveryRun` | arduino/libraries/Dtls-s/dtls.c:3251-3378 | for any arrival order with losses and duplicates the reorder queue holds distinct numbers above the expected one, and messages were handled in consecutive order of message_seq (section 4.2.2 of RFC 6347) |
| `DtlsSequence.EachOnce` | arduino/libraries/Dtls-s/dtls.c:3243-3245 | while what is handled is accepted the numbers increase by one each time, so no number is handled twice among 2^16 |
| `DtlsSequence.InTurnDrains` | arduino/libraries/Dtls-s/dtls.c:3341-3350 | a handled number stays expected exactly if its message failed or was a HelloRequest ignored during a handshake |
| `DtlsSequence.DrainInOrder` | arduino/libraries/Dtls-s/dtls.c:3352-3372 | the drain loop ends with the queue in order again |
| `DtlsSequence.HandleHandshakeInOrder` | arduino/libraries/Dtls-s/dtls.c:3251-3378 | early messages wait once, late ones are dropped, the expected one is handled with all that follow it |
| `DtlsSequence.StepInOrder` | arduino/libraries/Dtls-s/dtls.c:3483-3626 | every event keeps the order |
| `DtlsEngine.Engine.HandleHandshakeMsg` | arduino/libraries/Dtls-s/dtls.c:2921-3248 | computes DtlsPeer.Handle on the fields of the peer |
| `DtlsEngine.Engine.HandleHandshake` | arduino/libraries/Dtls-s/dtls.c:3251-3378 | computes DtlsPeer.HandleHandshake |
| `DtlsEngine.Engine.DrainQueue` | arduino/libraries/Dtls-s/dtls.c:3352-3372 | the loop over the reorder queue ends and computes DtlsPeer.Drain |
| `DtlsEngine.Engine.Find` | arduino/libraries/Dtls-s/dtls.c:3308-3317 | the search of the queue finds the first message with a number |
| `DtlsEngine.Engine.TakeTurn` | arduino/libraries/Dtls-s/dtls.c:3341-3350 | one message handled in its turn |
| `DtlsEngine.Engine.CheckServerHello` | arduino/libraries/Dtls-s/dtls.c:2698-2760 | key block, switch, Finished |
| `DtlsEngine.Engine.CheckFinished` | arduino/libraries/Dtls-s/dtls.c:3041-3077 | a verified Finished message; only the server role switches |
| `DtlsEngine.Engine.CheckClientHello` | arduino/libraries/Dtls-s/dtls.c:3132-3209 | a Client Hello with a valid cookie |
| `DtlsEngine.Engine.CheckHelloRequest` | arduino/libraries/Dtls-s/dtls.c:3211-3236 | a HelloRequest while connected |
| `DtlsEngine.Engine.CountReceived` | arduino/libraries/Dtls-s/dtls.c:3243-3245 | mseq_r, 16 bits wide |
| `DtlsEngine.Engine.CalculateKeyBlock` | arduino/libraries/Dtls-s/dtls.c:644-757 | fresh parameters, keyed unless the calculation fails |
| `DtlsEngine.Engine.ParamsNext` | arduino/libraries/Dtls-s/peer.h:90-102 | slot 1 is replaced by parameters one epoch after slot 0 |
| `DtlsEngine.Engine.FreeOther` | arduino/libraries/Dtls-s/peer.h:104-115 | slot 1 is freed unless it is newer |
| `DtlsEngine.Engine.Switch` | arduino/libraries/Dtls-s/peer.h:117-124 | the two slots change places |
| `DtlsEngine.Engine.SendMulti` | arduino/libraries/Dtls-s/dtls.c:1446-1534 | a record under the parameters in use; handshake records are kept for retransmission with their epoch |
| `DtlsEngine.Engine.Retransmit` | arduino/libraries/Dtls-s/dtls.c:3836-3888 | at most 7 retransmissions, under the epoch of the first transmission if its parameters still exist |
| `DtlsEngine.Engine.AlertSendFromErr` | arduino/libraries/Dtls-s/dtls.c:3451-3477 | which error codes close the connection |
| `DtlsEngine.Engine.HandleRecord` | arduino/libraries/Dtls-s/dtls.c:3483-3626 | one record of dtls_handle_message |
| `DtlsEngine.Engine.HandleAlert` | arduino/libraries/Dtls-s/dtls.c:3388-3449 | alerts of two bytes: fatal ones and close notifies; shorter ones only end the retransmissions |
| `DtlsEngine.Engine.Deliver` | arduino/libraries/Dtls-s/dtls.c:3548-3618 | the content of a record that opened |
| `DtlsEngine.Engine.HandleHandshakeRecord` | arduino/libraries/Dtls-s/dtls.c:3563-3600 | the epoch a handshake record must carry |
| `DtlsEngine.Engine.Renegotiate` | arduino/libraries/Dtls-s/dtls.c:2880-2919 | only while connected; new handshake parameters, then a Client Hello or a HelloRequest |
| `DtlsEngine.Engine.Receive` | arduino/libraries/Dtls-s/dtls.c:3483-3626 | a record keeps the invariant of the object and lowers the epoch only by a misdirected Finished |
| `DtlsRecord.RoundTripIff` | arduino/libraries/Dtls-s/dtls.c:2764-2870 | with a shared key block and opposite roles the receiver gets the data back exactly if there is a cipher, or they are not application data, or they begin with the numbers of the record |
| `DtlsRecord.RoundTrip` | arduino/libraries/Dtls-s/dtls.c:1190-1355 | what the receiver gets in every case, for records with the explicit nonce and for application records whose 8 nonce bytes are stripped and rebuilt from the header |
| `DtlsRecord.BothDirections` | arduino/libraries/Dtls-s/dtls.c:2764-2870 | what client or server seals the other one opens |
| `DtlsRecord.OpensExactlySealed` | arduino/libraries/Dtls-s/dtls.c:2804-2866 | a packet opens to some data if and only if its fragment is what the other side makes of these data under this header and nonce |
| `DtlsRecord.KeystreamNeverRepeats` | arduino/libraries/Dtls-s/dtls.c:1297-1303 | records with different epoch or sequence number never share a counter block |
| `DtlsRecord.HeaderFields` | arduino/libraries/Dtls-s/dtls.h:362-370 | where type, numbers and fragment are in a record; the additional data do not depend on its length field |
| `DtlsRecord.TagBindsRecord` | arduino/libraries/Dtls-s/dtls.c:1305-1325 | two records with the same input of the tag agree in type, version, epoch, sequence number, nonce and data |
| `DtlsRecord.AdditionalDataFields` | arduino/libraries/Dtls-s/dtls.c:1305-1325 | the additional data are epoch, sequence number, type, version and the length of the data, each read back in network order (section 6.2.3.3 of RFC 5246) |
| `DtlsRecord.AdditionalDataIsInjective` | arduino/libraries/Dtls-s/dtls.c:2838-2846 | and so determine all of them |
| `DtlsRecord.HeaderBytes` | arduino/libraries/Dtls-s/dtls.c:429-456 | the bytes of a literal header |
| `DtlsRecord.RecordLayout` | arduino/libraries/Dtls-s/dtls.c:1189-1355 | what is on the wire: header, nonce unless it is stripped, ciphertext with the tag |
| `DtlsRecord.KeyBlockLayout` | arduino/libraries/Dtls-s/crypto.h:153-200 | which parts of the key block are the keys and initial vectors of client and server (section 6.3 of RFC 5246) |
| `DtlsRecord.PrepareRecord` | arduino/libraries/Dtls-s/dtls.c:1189-1355 | dtls_prepare_record writes exactly the specified record, uses up one sequence number even on error, and fails exactly if the buffer check does |
| `DtlsRecord.CheckLeavesRoomIff` | arduino/libraries/Dtls-s/dtls.c:1284-1290 | the size check leaves room for the tag except for data within 8 bytes of the limit |
| `DtlsRecord.CopyPieces` | arduino/libraries/Dtls-s/dtls.c:1210-1221 | the copying loops of both branches |
| `DtlsRecord.Seal` | arduino/libraries/Dtls-s/dtls.c:1281-1331 | the branch with a cipher, in place |
| `DtlsRecord.Finish` | arduino/libraries/Dtls-s/dtls.c:1338-1352 | the length field, and the removal of the nonce of application records |
| `DtlsRecord.Swap` | arduino/libraries/Dtls-s/dtls.c:1155-1162 | the packet moves down by 8 bytes |
| `DtlsRecord.SetRecordHeader` | arduino/libraries/Dtls-s/dtls.c:429-456 | type, version, epoch, number and zero length; the number is used up |
| `DtlsRecord.DecryptVerify` | arduino/libraries/Dtls-s/dtls.c:2763-2870 | decrypt_verify computes the specified opening, in place |
| `DtlsRecord.ReceiverHasRoomIff` | arduino/libraries/Dtls-s/dtls.c:2784-2797 | the fragment of an application record with its nonce put back fits the temporary buffer of the receiver exactly if the record carries at most PKT_SIZE_MAX - 16 bytes of data |
| `DtlsRecord.PutBack` | arduino/libraries/Dtls-s/dtls.c:2781-2800 | the nonce of an application record is rebuilt from its header |
| `Ccm.EncryptMessage` | arduino/libraries/Dtls-s/ccm.c:227-297 | the in-place loops compute the encryption of sections 2.2 to 2.4 of RFC 3610 for any block cipher, nonce, additional data and message, and write nothing else |
| `Ccm.DecryptMessage` | arduino/libraries/Dtls-s/ccm.c:299-379 | decryption in place: length and plaintext if the tag is right, -1 otherwise |
| `Ccm.DecryptsExactlyEncryptions` | arduino/libraries/Dtls-s/ccm.c:227-379 | decryption gives a message if and only if the input is its encryption |
| `Ccm.CipherInputsDiffer` | arduino/libraries/Dtls-s/ccm.c:41-47 | under one nonce all counter blocks differ from each other and from the first authentication block |
| `Ccm.MacInputIsInjective` | arduino/libraries/Dtls-s/ccm.c:49-181 | nonce, additional data and message are determined by what the tag is computed from, although both are padded |
| `Ccm.MacOverInput` | arduino/libraries/Dtls-s/ccm.c:49-225 | the chain is the CBC-MAC of the formatted blocks of section 2.2 of RFC 3610 |
| `Ccm.PacketVector1` | arduino/libraries/Dtls-s/ccm.c:49-181 | the formatted blocks and counter blocks of packet vector 1 of section 8 of RFC 3610, byte by byte |
| `Ccm.PacketVector1Stream` | arduino/libraries/Dtls-s/ccm.c:41-47 | where its key stream starts, with S_1 |
| `Ccm.PacketVector1Tag` | arduino/libraries/Dtls-s/ccm.c:281-290 | and S_0 encrypts the tag, the start of the chain over the formatted blocks |
| `Ccm.FlagBytes` | arduino/libraries/Dtls-s/ccm.c:49-65 | the flags of the first block, with and without additional data |
| `Ccm.LengthEncodings` | arduino/libraries/Dtls-s/ccm.c:107-119 | two, six or ten bytes for the length of the additional data, with 0xFFFE or 0xFFFF in front |
| `Ccm.AddAuthData` | arduino/libraries/Dtls-s/ccm.c:86-181 | the chain over the first block, the encoded length and the additional data, for all three length encodings |
| `Ccm.FirstAadBlock` | arduino/libraries/Dtls-s/ccm.c:107-148 | the block that holds the encoded length |
| `Ccm.WriteLength` | arduino/libraries/Dtls-s/ccm.c:107-119 | the three encodings of the length |
| `Ccm.Block0` | arduino/libraries/Dtls-s/ccm.c:49-65 | the first authentication block |
| `Ccm.SetCounter` | arduino/libraries/Dtls-s/ccm.c:41-47 | the loop that stops at a zero rest writes the whole counter field |
| `Ccm.XorKeystream` | arduino/libraries/Dtls-s/ccm.c:183-203 | one block of the key stream, in place |
| `Ccm.MacStep` | arduino/libraries/Dtls-s/ccm.c:205-225 | one block of the CBC-MAC, padded with zeros |
| `Ccm.EncryptBlocks` | arduino/libraries/Dtls-s/ccm.c:252-279 | the loop and the remainder |
| `Ccm.DecryptBlocks` | arduino/libraries/Dtls-s/ccm.c:330-357 | the loop and the remainder |
| `Ccm.CheckTag` | arduino/libraries/Dtls-s/ccm.c:371-375 | the received tag under S_0 compared with the computed one |
| `Hmac.UpdateAll` | arduino/libraries/Dtls-s/hmac.c:75-80 | any number of updates amount to one with the concatenation |
| `Hmac.Context.Init` | arduino/libraries/Dtls-s/hmac.c:93-118 | the padded key XORed in place with 0x36, then with 0x6A, gives both paddings of RFC 2104 |
| `Hmac.Context.LoadKey` | arduino/libraries/Dtls-s/hmac.c:101-106 | long keys are hashed first |
| `Hmac.Context.Finalize` | arduino/libraries/Dtls-s/hmac.c:126-143 | the result is the HMAC of everything given since the initialisation |
| `Hmac.InnerToOuter` | arduino/libraries/Dtls-s/hmac.c:115-117 | 0x36 and 0x6A together are 0x5C on every byte |
| `Hmac.HmacMeaning` | arduino/libraries/Dtls-s/hmac.c:93-143 | the keyed hash of section 2 of RFC 2104, byte by byte, for keys of any length |
| `Hmac.PHashBlocks` | arduino/libraries/Dtls-s/crypto.c:196-261 | the first two blocks of P_hash of section 5 of RFC 5246 |
| `Hmac.PHashInto` | arduino/libraries/Dtls-s/crypto.c:196-261 | dtls_p_hash writes exactly the first buflen bytes of the stream of section 5 of RFC 5246, and nothing else |
| `Hmac.Prf` | arduino/libraries/Dtls-s/crypto.c:263-285 | dtls_prf, which writes nothing without a key |
| `Hmac.ShorterIsPrefix` | arduino/libraries/Dtls-s/crypto.c:196-261 | shorter outputs are prefixes of longer ones |
| `Numeric.NumberOfField` | arduino/libraries/Dtls-s/numeric.h:46-92 | a number stored in network order is read back |
| `Numeric.NetworkOrder` | arduino/libraries/Dtls-s/numeric.h:46-92 | the first byte counts most |
| `Numeric.XorBitAt` | arduino/libraries/Dtls-s/global.h:109-115 | each bit of an exclusive or is set exactly if it is set in one of the two |
| `Numeric.XorAllCancels` | arduino/libraries/Dtls-s/global.h:109-115 | memxor twice restores the data |
| `CasanSlave.EveryRun` | arduino/libraries/Casan/casan.cpp:509-704 | after every turn of every run with a nondecreasing clock: an association is younger than its time to live, exactly if that is not zero; an unassociated master has been known for less than 30 s; there is a master exactly outside COLDSTART and WAITING_UNKNOWN; the MTU is in 1..defmtu and is the one of the network |
| `CasanSlave.LoopValid` | arduino/libraries/Casan/casan.cpp:509-704 | every turn keeps the invariant behind this |
| `CasanSlave.ZeroTimeToLive` | arduino/libraries/Casan/casan.cpp:773-810 | with a time to live of zero the slave can end a turn associated although the time is over |
| `CasanSlave.ResponsesHaveADestination` | arduino/libraries/Casan/casan.cpp:645-662 | no answer is addressed to a master that is not known |
| `SlaveTurns.HelloWhileAssociated` | arduino/libraries/Casan/casan.cpp:620-629 | an associated slave that knows a hello-id stays associated after a Hello exactly if it comes from its master with this hello-id; otherwise it waits for 30 s with the sender as its master, the new hello-id and the default MTU |
| `SlaveTurns.HelloEndsAssociation` | arduino/libraries/Casan/casan.cpp:620-629 | the same in every run |
| `SlaveTurns.AcceptsIff` | arduino/libraries/Casan/casan.cpp:561-652 | an Assoc request is answered by every slave that waits, by an associated one exactly if it comes from its master, and before the first turn by none |
| `SlaveTurns.AcceptedFor` | arduino/libraries/Casan/casan.cpp:773-810 | the slave is then associated with the sender, for the time and with the MTU of the request |
| `SlaveTurns.RespondsIff` | arduino/libraries/Casan/casan.cpp:645-662 | requests for resources are answered, to the master, exactly while associated |
| `SlaveTurns.DiscoversIff` | arduino/libraries/Casan/casan.cpp:509-704 | when a slave that gets nothing of importance sends a Discover message: exactly at the first turn and when its timers say so |
| `SlaveTurns.DiscoverDestination` | arduino/libraries/Casan/casan.cpp:509-704 | to its master, or to all once it has none, with its own MTU |
| `SlaveTurns.IdleTurns` | arduino/libraries/Casan/casan.cpp:509-704 | how its status then changes with time alone |
| `SlaveTurns.HelloWhileWaiting` | arduino/libraries/Casan/casan.cpp:537-600 | a slave that waits takes the sender of a Hello for its master, for 30 s from the first one on |
| `SlaveTurns.FirstTurn` | arduino/libraries/Casan/casan.cpp:524-535 | before the first turn nothing that arrives counts |
| `SlaveTurns.Unanswered` | arduino/libraries/Casan/casan.cpp:590-607 | a slave that nobody answers, known master or not, sends its k-th Discover message in the first turn 1 + 2 + ... + k seconds after it began to wait, no term above 10 |
| `SlaveTurns.UnansweredRenewal` | arduino/libraries/Casan/casan.cpp:666-683 | an associated slave whose master is silent asks for the k-th renewal when half of the time to live, a quarter, and so on are over |
| `CasanSlave.CheckRenewalValid` | arduino/libraries/Casan/casan.cpp:666-683 | renewal and expiry keep the invariant |
| `CasanSlave.ReceiveRunningValid` | arduino/libraries/Casan/casan.cpp:609-662 | messages to an associated slave |
| `CasanSlave.ReceiveWaitingValid` | arduino/libraries/Casan/casan.cpp:537-590 | messages to a slave that waits |
| `CasanEngine.Casan.Loop` | arduino/libraries/Casan/casan.cpp:509-704 | one call of loop() with the millisecond counter and one received message computes CasanSlave.Loop on the fields and timers |
| `CasanEngine.Casan.LoopWaiting` | arduino/libraries/Casan/casan.cpp:537-607 | both waiting states |
| `CasanEngine.Casan.ReceiveRunning` | arduino/libraries/Casan/casan.cpp:609-662 | messages in RUNNING and RENEW |
| `CasanEngine.Casan.CheckRenewal` | arduino/libraries/Casan/casan.cpp:666-683 | renewal and expiry |
| `CasanEngine.Casan.ChangeMaster` | arduino/libraries/Casan/casan.cpp:169-205 | a new master or a new hello-id of the same one; an MTU of -1 leaves the MTU as it is |
| `CasanEngine.Casan.NegociateMtu` | arduino/libraries/Casan/casan.cpp:122-129 | the announced MTU if it is in 1..defmtu, else the default; the network layer is told |
| `CasanEngine.Casan.ResetMaster` | arduino/libraries/Casan/casan.cpp:142-150 | no master, unknown hello-id, default MTU |
| `CasanEngine.Casan.constructor` | arduino/libraries/Casan/casan.cpp:46-68 | the initial state, with the smaller of the two MTUs as default |
| `CasanTime.SyncTime` | arduino/libraries/Casan/time.cpp:36-46 | a counter behind the clock's low word has rolled over |
| `CasanTime.SyncIsExact` | arduino/libraries/Casan/time.cpp:36-46 | the clock shows the elapsed time again if and only if less than one turn of the 32-bit counter has passed |
| `CasanTime.ClockIsRight` | arduino/libraries/Casan/time.cpp:36-46 | over any run it is right if synchronised at least once per turn |
| `CasanTime.WaitFires` | arduino/libraries/Casan/time.cpp:68-91 | the k-th Discover message of the wait timer is due exactly from t0 + 1000 times the sum of min(j, 10) for j = 1..k on |
| `CasanTime.RenewFits` | arduino/libraries/Casan/time.cpp:106-138 | until its 500 ms floor is reached, one more interval of the renewal timer fits before the association ends |
| `CasanTime.RenewFires` | arduino/libraries/Casan/time.cpp:106-138 | the k-th firing of the renewal timer comes in the first call after k intervals: half of the time to live, then half of the one before, none below half a second |
| `CasanTime.Twait.Next` | arduino/libraries/Casan/time.cpp:78-91 | fires exactly when due; the interval grows by one second up to ten |
| `CasanTime.Trenew.Next` | arduino/libraries/Casan/time.cpp:125-138 | fires exactly when due; the interval halves down to 500 ms |
| `CasanTime.Trenew.Init` | arduino/libraries/Casan/time.cpp:106-111 | the first half of the time to live, then the limit |
| `CasanTime.Twait.Init` | arduino/libraries/Casan/time.cpp:68-73 | one second to the first Discover message, 30 s to the limit |
| `Deception.MisguidesIff` | c-master/casan/casan.cc:675-701 | after any run without such events, an event lets some continuation without further ones end with a master that takes the slave to be running on a request the slave has not accepted, if and only if the event gives an Assoc request an id that a request for a resource, or an acknowledgement or such a request under way, has, or gives a request for a resource the id of an Assoc request that is neither replied to nor accepted, or delivers such an Assoc request truncated to a slave that runs |
| `Association.RunningMeansAssociated` | c-master/casan/slave.cc:131-184 | in every run without such events over a lossy, duplicating, reordering link, SL_RUNNING means that the slave has accepted and answered the linked Assoc request since it was first sent, that the MTU it adopted is the master's, and that the master's expiry is not before the one the slave set then |
| `Association.StepExposes` | c-master/casan/casan.cc:482-701 | a step leads to a listed Assoc request, neither replied to nor accepted, whose id something stray can acknowledge, exactly if it is such an event |
| `Deception.ExposedCanBeDeceived` | c-master/casan/casan.cc:532-556 | from such a state some continuation of losses, delays and repetitions alone deceives the master |
| `Deception.EarlyReuseMisleads` | c-master/casan/msg.cc:500-505 | a run for any exchange lifetime: the acknowledgement of an expired request arrives when a new one has got its id, and the slave's association is over by then |
| `Deception.TruncationMisleads` | arduino/libraries/Casan/casan.cpp:652-661 | a run in which the answer of a running slave that an Assoc request is too large passes for an Assoc answer |
| `Association.StepSane` | c-master/casan/casan.cc:482-701 | every step of any run keeps the negotiated MTU, the limits of the lifetimes and the invariant of the slave |
| `Association.StepJustified` | c-master/casan/casan.cc:532-556 | from a state that is not exposed every step keeps a running master justified |
| `Association.TurnExposes` | arduino/libraries/Casan/casan.cpp:509-704 | a turn of the slave with any frame that was sent to it exposes the master exactly if it answers a truncated Assoc request |
| `Association.AckJustified` | c-master/casan/casan.cc:532-556 | an acknowledgement, new or old, that is linked with an Assoc request comes after its acceptance |
| `Association.SendExposes` | c-master/casan/casan.cc:388-400 | a first transmission exposes the master exactly if the id is not free in this sense, a repeated one never |
| `Association.AcceptanceIsTheSlaves` | arduino/libraries/Casan/casan.cpp:773-810 | an acceptance on record is one the slave has made: it runs, for the time and with the MTU recorded |
| `Association.Sends` | arduino/libraries/Casan/casan.cpp:839-886 | what one turn of the slave can send |
| `Association.Correlated` | c-master/casan/casan.cc:675-701 | the first listed request with the id of a reply |
| `MasterSteps.TtlEndsIff` | c-master/casan/casan.cc:379-381 | the check of the sender thread ends an association exactly if its time is over, leaves the slave without address and MTU, and changes nothing otherwise |
| `MasterSteps.RunningIsInTime` | c-master/casan/casan.cc:379-381 | after the check, in every run, no running slave has outlived its time |
| `MasterSteps.StartsIff` | c-master/casan/slave.cc:153-176 | an association starts exactly with an acknowledgement under way that is correlated with an Assoc request without a reply, from a slave with an address, with a list that parses, and then lasts for the whole time to live |
| `MasterSteps.OnlyTheCheckEnds` | c-master/casan/slave.cc:29-40 | nothing else ends it |
| `MasterSteps.DiscoverLists` | c-master/casan/casan.cc:593-660 | a Discover message lists one Assoc request with the time to live of the configuration and the negotiated MTU |
| `MasterSteps.MtuIsLeast` | c-master/casan/casan.cc:600-640 | the MTU is the least of those that are configured |
| `MasterSteps.SendsSame` | c-master/casan/msg.cc:376-454 | the first transmission gives the id, repeated ones are the same frame |
| `MasterSteps.DropsIff` | c-master/casan/casan.cc:406-411 | only requests whose lifetime is over leave the list |
| `MasterSteps.LostIsLost` | c-master/casan/casan.cc:482-701 | what the link loses does not arrive |
| `MasterSteps.Arrives` | arduino/libraries/Casan/casan.cpp:609-662 | what arrives at the slave is what was sent, or its id alone if it was cut off |
| `MasterSteps.HelloRestarts` | arduino/libraries/Casan/casan.cpp:620-629 | the Hello of a restarted master makes its slave wait for a new association |
| `Retransmit.Engine.Transmissions` | c-master/casan/casan.cc:388-400 | in every interleaving of sender and receiver turns a confirmable request has been transmitted at most 4 times, the k-th not before t1 + (2^(k-1) - 1) initial timeouts; a listed request with a linked reply is on the record of replied ones and has not been transmitted since; links are symmetric (section 4.2 of RFC 7252) |
| `Retransmit.BackOff` | c-master/casan/msg.cc:399-433 | the exponential back-off adds up |
| `Retransmit.OneToOne` | c-master/casan/msg.cc:768-784 | no two messages are linked with the same one |
| `Retransmit.TimedPaced` | c-master/casan/msg.cc:376-454 | one transmission, successful or not, keeps the pace |
| `Retransmit.Engine.Send` | c-master/casan/msg.cc:376-454 | send: a message gets its id when it is first encoded; counters and timers change only if the network takes the frame |
| `Retransmit.Engine.SenderTurn` | c-master/casan/casan.cc:388-411 | one turn of the sender thread sends exactly what is due and drops exactly what has expired |
| `Retransmit.Engine.RemoveExpired` | c-master/casan/casan.cc:406-411 | expired messages leave the list, the others keep their order |
| `Retransmit.Engine.AddRequest` | c-master/casan/casan.cc:294-300 | a new message, in general without an id, goes to the front of the list |
| `Retransmit.Engine.Correlate` | c-master/casan/casan.cc:675-701 | only acknowledgements and resets are correlated, by their id |
| `Retransmit.Engine.Receive` | c-master/casan/casan.cc:532-556 | the first reply is linked and ends the retransmissions, later ones change nothing |
| `Retransmit.Engine.Link` | c-master/casan/msg.cc:768-784 | link_reqrep and stop_retransmit |
| `Retransmit.UnexpiredMembers` | c-master/casan/casan.cc:406-411 | exactly the unexpired messages stay |
| `Retransmit.Engine.SentIff` | c-master/casan/casan.cc:388-400 | a turn of the sender thread transmits a listed message exactly if it has had no reply and its time has come: at once for the first time, and up to the fourth time when the doubled initial timeout has passed since the last transmission |
| `Retransmit.Engine.LeavesIff` | c-master/casan/casan.cc:406-411 | a message leaves the list exactly if the lifetime that its first transmission started is over |
| `Retransmit.FirstDraw` | c-master/casan/msg.cc:399-446 | id, initial timeout and lifetime are drawn at the first transmission and stay |
| `Retransmit.CorrelatesOne` | c-master/casan/casan.cc:675-701 | an acknowledgement or reset is correlated with exactly one listed message if any has its id, everything else with none |
| `Retransmit.TurnedMeaning` | c-master/casan/casan.cc:388-411 | in a turn every listed message is looked at once and no other one changes |
| `WellKnown.RecoveredIffClean` | c-master/casan/slave.cc:186-328 | the master recovers from the slave's payload exactly the resources that fitted, in order with their attributes and even if a comma was left at the end, if and only if no name holds '>' and no value a double quote |
| `WellKnown.CleanListsAreRecovered` | c-master/casan/slave.cc:186-328 | the recovering direction |
| `WellKnown.EverythingRecoveredIff` | c-master/casan/slave.cc:186-328 | the parser recovers all resources that fitted with all their attributes if and only if they are clean and the last one has no obs mark or a comma was left behind it |
| `WellKnown.LastMarkIsLost` | c-master/casan/slave.cc:311-314 | one observable resource that fits is recovered without its mark |
| `WellKnown.AnswerFits` | arduino/libraries/Casan/msg.cpp:486-498 | the encoding of the Assoc answer with the resource list as payload fits the frame of the network exactly if it would without the list |
| `WellKnown.CoapSize` | arduino/libraries/Casan/msg.cpp:443-475 | the size of header, token, options and a payload present or still to come |
| `WellKnown.AvailSpace` | arduino/libraries/Casan/msg.cpp:488-498 | what the frame leaves for the payload |
| `WellKnown.GetWellKnown` | arduino/libraries/Casan/casan.cpp:427-482 | the loop writes as many resources as fit, and reports whether that is all |
| `WellKnown.WellKnownText` | arduino/libraries/Casan/resource.cpp:127-142 | the text of one resource, or -1 if it does not fit with its final zero |
| `WellKnown.FittedFits` | arduino/libraries/Casan/casan.cpp:442-461 | what is written fits, and the next resource would not |
| `WellKnown.FittedIff` | arduino/libraries/Casan/casan.cpp:442-461 | the first m resources are in the payload if and only if their text with its final zero fits the space |
| `WellKnown.PayloadMeaning` | arduino/libraries/Casan/casan.cpp:427-482 | the payload is the longest list of first resources that fits, and a comma if there are more and two characters are left |
| `WellKnown.TextBytes` | arduino/libraries/Casan/resource.cpp:127-142 | the text of one resource, character by character |
| `WellKnown.SpaceIff` | arduino/libraries/Casan/msg.cpp:486-498 | a payload fits the frame if and only if it is no longer than the space computed for it |
| `WellKnown.FeedResource` | c-master/casan/slave.cc:205-301 | the parser over the text of one resource |
| `WellKnown.SpoiltText` | c-master/casan/slave.cc:205-301 | a delimiter inside a name or value leaves a record that no later input can repair |
| `WellKnown.ParseKeeps` | c-master/casan/slave.cc:205-327 | what the parser has recorded stays |
| `ResourceList.ParseResourceList` | c-master/casan/slave.cc:186-328 | the loop computes the state machine, and never records an attribute without a resource |
| `LinkFormat.AcceptedIff` | c-master/casan/slave.cc:186-328 | the parser accepts exactly the lists of a grammar after section 2 of RFC 6690, links with bare names, unquoted and quoted values, with or without a comma at the end |
| `LinkFormat.CleanLinksAreRecovered` | c-master/casan/slave.cc:186-328 | every such list is recovered in full, but for a name alone at the very end |
| `LinkFormat.RecordedMeaning` | c-master/casan/resource.cc:140-159 | each name of a link is recorded once, with all its values in order |
| `LinkFormat.FeedToken` | c-master/casan/slave.cc:262-301 | an unquoted value is recorded at its end |
| `LinkFormat.FeedQuote` | c-master/casan/slave.cc:277-285 | a quoted one too |
| `LinkFormat.Explained` | c-master/casan/slave.cc:205-301 | whatever the parser has read so far, unless it has failed, is the beginning of such a list |
| `ResourceList.ParseChar` | c-master/casan/slave.cc:207-301 | one character |
| `ResourceList.AddAttribute` | c-master/casan/resource.cc:140-159 | a value joins the first attribute with its name, a new name comes last |
| `ResourceList.AddValueAt` | c-master/casan/resource.cc:140-159 | the same on lists |
| `CoapCodec.DecodeAfterEncode` | c-master/casan/msg.cc:246-349 | decoding an encoded message gives it back with stably sorted options if and only if the token has at most 7 bytes and every delta and length can be expressed |
| `CoapCodec.EncodeAfterDecode` | c-master/casan/msg.cc:460-584 | encoding a decoded message gives the received bytes back if and only if the token has at most 7 bytes, the id is not zero and no lone marker ends the message |
| `CoapCodec.EightByteTokenIsLost` | c-master/casan/msg.cc:64-71 | an 8-byte token is announced with length 0 and its bytes are decoded as something else |
| `CoapCodec.WireHeader` | c-master/casan/msg.cc:507-527 | version, type, token length, code, id and token stand where figure 7 of RFC 7252 has them |
| `CoapCodec.DeltaBytes` | c-master/casan/msg.cc:528-560 | the bytes of option deltas on both sides of 13 and 269 (section 3.1 of RFC 7252) |
| `CoapCodec.LengthBytes` | c-master/casan/msg.cc:528-575 | and of lengths |
| `CoapCodec.WireBytes` | c-master/casan/msg.cc:460-584 | a message with token, options and payload, byte by byte |
| `CoapCodec.NotAMessage` | c-master/casan/msg.cc:246-277 | what is refused: less than a header, another version, a token that is cut off or longer than 8 bytes |
| `CoapCodec.HeaderIsNeverTheMarker` | c-master/casan/msg.cc:528-572 | an option header is never 0xff |
| `CoapCodec.DecodeEncodedOptions` | c-master/casan/msg.cc:279-330 | encoded options are decoded to the same list, up to the payload marker |
| `CoapCodec.EncodeDecodedOptions` | c-master/casan/msg.cc:279-330 | decoded options are re-encoded to the same bytes |
| `CoapCodec.CoapMsg.CoapEncode` | c-master/casan/msg.cc:460-584 | coap_encode sorts, takes an id if there is none, and writes the encoding |
| `CoapCodec.CoapMsg.SizeOf` | c-master/casan/msg.cc:469-494 | the sizing pass gives the number of bytes the second pass writes |
| `CoapCodec.CoapMsg.WriteOption` | c-master/casan/msg.cc:528-575 | one option, with one- and two-byte extensions |
| `CoapCodec.CoapMsg.Build` | c-master/casan/msg.cc:507-582 | the second pass |
| `CoapCodec.CoapDecode` | c-master/casan/msg.cc:246-349 | the decoding loop computes the specified decoding |
| `CoapCodec.DecodeOne` | c-master/casan/msg.cc:279-330 | one turn of the loop |
| `CoapCodec.IdSource.Take` | c-master/casan/msg.cc:500-505 | ids cycle through 1..65535 |
| `CoapCodec.IdsAreDistinct` | c-master/casan/msg.cc:500-505 | 65535 consecutive messages have distinct ids |
| `CoapMessage.StableSortCorrect` | c-master/casan/msg.cc:471 | the option list is a sorted, stable permutation |
| `CoapMessage.StableSortUnique` | c-master/casan/msg.cc:471 | which determines it |
| `OptionValue.UintRoundTrip` | c-master/casan/option.cc:357-368 | an integer option is read back, and a value of at most 8 bytes is the packing of what it reads as if and only if it has no leading zero |
| `OptionValue.UintToByte` | c-master/casan/option.cc:66-82 | the minimal network-order bytes |
| `OptionValue.Optval` | c-master/casan/option.cc:357-368 | the value, modulo 2^64 |
| `RequestCache.Cache.Get` | c-master/casan/cache.cc:23-71 | with lazy eviction every get answers like a scan of everything ever added for the first unexpired match |
| `RequestCache.Cache.Add` | c-master/casan/cache.cc:85-108 | only a request whose reply has a maximum age is added |
| `RequestCache.Cache.Scan` | c-master/casan/cache.cc:37-53 | the search loop |
| `RequestCache.CacheMatch` | c-master/casan/msg.cc:692-757 | cache_match compares types and keys, whether or not the lists were sorted before |
| `RequestCache.CompareSorted` | c-master/casan/msg.cc:715-755 | the loop with two cursors decides equality of the lists without NoCacheKey options |
| `RequestCache.SameKeyMeaning` | c-master/casan/msg.cc:692-757 | the key is, for every option number in it, the values of that option in their order |
| `RequestCache.NoCacheKeyIff` | c-master/casan/option.h:95 | an option is left out of the key exactly if bit 1 of its number is clear and bits 2 to 4 are set (section 5.4.6 of RFC 7252) |
| `RequestCache.OptionsOfTheKey` | c-master/casan/option.h:50-66 | of all options of the source only Size1 is left out |
| `RequestCache.AnswersSameResource` | c-master/casan/cache.cc:23-71 | a cached answer has the same Uri-Host, Uri-Path, Uri-Query and Accept values in the same order as the request |
| `RequestCache.FirstMatchMeaning` | c-master/casan/cache.cc:37-53 | it is the first unexpired match, and there is none exactly if nothing unexpired matches |
| `RequestCache.MaxAgeMeaning` | c-master/casan/msg.cc:667-682 | the first Max-Age option counts, as a signed number of 64 bits |
| `RequestCache.NoMaxAge` | c-master/casan/msg.cc:667-682 | -1 without such an option |
| `RequestCache.MatchesIsEquivalence` | c-master/casan/msg.cc:692-757 | matching is an equivalence |
| `RequestCache.MatchVersusDocumentation` | c-master/casan/msg.cc:686-697 | one comparison by type gives the documented answer if and only if types and methods agree or differ together or the keys differ |
| `RequestCache.AnswersByMethodIff` | c-master/casan/cache.cc:37-53 | the cache answers as a scan by method would if and only if no unexpired entry with the same key but only one of type and method comes before the first that has both |
| `RequestCache.PutAnsweredFromGet` | c-master/casan/msg.cc:692-697 | after a GET has been cached a PUT with the same options is answered with its reply |
| `RequestCache.FirstMatchIsLive` | c-master/casan/cache.cc:37-68 | eviction of expired entries never changes an answer |
| `XbeeFramer.ChunkingIsIrrelevant` | c-master/casan/l2-154.cc:491-633 | the frames found and the left-over depend only on the concatenated stream, not on how reads cut it |
| `XbeeFramer.PacketsAreDisjointPieces` | c-master/casan/l2-154.cc:526-633 | the packets are disjoint pieces of the stream in stream order, each with the right length and checksum; the left-over is a suffix shorter than one maximal packet |
| `XbeeFramer.ParseInterleaved` | c-master/casan/l2-154.cc:526-598 | valid packets between noise without a delimiter are all found, in order |
| `XbeeFramer.EncodedFramesAreReceived` | c-master/casan/l2-154.cc:358-396 | what is encoded is received unchanged between such noise |
| `XbeeFramer.AcceptedIffValid` | c-master/casan/l2-154.cc:566-592 | exactly the packets with the right length and checksum are accepted |
| `XbeeFramer.JunkIsSkipped` | c-master/casan/l2-154.cc:543-562 | bytes before the first delimiter have no effect |
| `XbeeFramer.NextPacketSplits` | c-master/casan/l2-154.cc:526-598 | the resynchronisation search ends and splits the stream |
| `XbeeFramer.ValidPacketIsPacket` | c-master/casan/l2-154.cc:399-410 | a valid packet is determined by its frame data |
| `XbeeFramer.PacketBytes` | c-master/casan/l2-154.cc:358-396 | a packet to transmit, byte by byte with its checksum |
| `XbeeFramer.AnnouncedLength` | c-master/casan/l2-154.cc:566-580 | fewer than 5 bytes wait, an announced length above 115 is rejected, others wait exactly until the packet is complete |
| `XbeeFramer.FrameFields` | c-master/casan/l2-154.cc:600-626 | each kind of frame in the list has its fields from their places in the packet |
| `XbeeFramer.Framer.Heard` | c-master/casan/l2-154.cc:492-517 | at any time the list holds the frames of exactly the packets in what was received |
| `XbeeFramer.EncodeTransmit` | c-master/casan/l2-154.cc:358-396 | encode_transmit writes header, frame and checksum |
| `XbeeFramer.ComputeChecksum` | c-master/casan/l2-154.cc:399-410 | the checksum loop |
| `XbeeFramer.Framer.ReadCompleteFrame` | c-master/casan/l2-154.cc:492-517 | the object has always found exactly the packets of everything received, whatever sizes the reads had |
| `XbeeFramer.Framer.IsFrameComplete` | c-master/casan/l2-154.cc:526-598 | the in-place resynchronisation loop ends and computes the search |
| `XbeeFramer.Framer.AlignOnDelimiter` | c-master/casan/l2-154.cc:543-562 | the delimiter is moved to the start of the buffer |
| `XbeeFramer.Framer.Examine` | c-master/casan/l2-154.cc:566-592 | length and checksum of the packet at the start |
| `XbeeFramer.Framer.ExtractFrameToList` | c-master/casan/l2-154.cc:600-633 | the frame with its fields goes to the list and its packet leaves the buffer |
| `XbeeFramer.RxRoundTrip` | c-master/casan/l2-154.cc:616-622 | a received frame is decoded to the address, signal strength, options and data it was built from |
| `XbeeFramer.CopyFitsIff` | c-master/casan/l2-154.cc:616-622 | the copy of the data of a received frame has a length within its array exactly if the frame has at least 5 bytes |
| `XbeeFramer.Framer.ExtractAll` | c-master/casan/l2-154.cc:508-513 | all packets in the buffer are extracted |
| `XbeeFramer.PyFramer.GetFrame` | py-master/l2_154.py:385-428 | the second framer finds the same frames |
| `XbeeFramer.PyFramer.PyChecksum` | py-master/l2_154.py:276-290 | the same checksum |

## Left out

- HashTable.UTHash.Add: elements and their links are addresses with one map per link field, so that an element is not at the same time memory of the application; the hash function is arbitrary instead of the Jenkins hash.
- ListSort.SortDoubly: LL_SORT and CDL_SORT, the same loops without back links or with a circular list.
- DtlsRuns.RecordNumbersNeverRepeat: records sent without security parameters, the stateless Hello Verify Request and retransmissions whose parameters are gone, carry zeros and have no number to repeat.
- DtlsRuns.SlotsInEveryRun: the 16-bit epoch does not wrap, fewer than 2^16 sets of parameters are made in one run, and allocation succeeds.
- DtlsPeer.HandleEpochs: the handshake transcript and the contents of Finished messages; verification is an arbitrary answer. The ECDSA branches are compiled out in the source.
- DtlsPeer.StepEpochs: one peer; the table of all peers is the one of HashTable, and a new peer is made by DtlsPeer.Accept or DtlsPeer.Connect.
- DtlsRecord.PrepareRecord: data that pass the size check of the source while their tag would be written behind the buffer, and application data of less than 8 bytes without a cipher, whose length would become negative.
- DtlsRecord.Seal: the same data, whose tag would be written behind the buffer.
- DtlsRecord.RoundTrip: application data of less than 8 bytes without a cipher, which no run sends and whose record would have a negative length.
- DtlsRecord.RoundTripIff: the same application data of less than 8 bytes.
- DtlsRecord.DecryptVerify: application records longer than PKT_SIZE_MAX - 8 bytes, which would be copied behind the end of the source's temporary buffer.
- DtlsRecord.PutBack: the same application records.
- Ccm.EncryptMessage: length fields of more than 3 bytes, for which the source's counter mask overflows an int; the cipher is any function on blocks.
- Hmac.UpdateAll: the hash is any function with 32-byte digests, its context the input so far.
- CasanSlave.EveryRun: the 64-bit millisecond clock does not overflow and a time to live is not negative; observed resources, the slave's own retransmission list and the contents of messages other than their kind.
- Deception.MisguidesIff: ids are unbounded numbers, an expired request may stay listed for a while, and the limits of retransmission are those of Retransmit only, so that the master may here repeat a request at any time.
- Retransmit.Engine.SenderTurn: one turn of either thread is one step; what the two threads do to one message at the same time, and a transmission to a slave that has just been reset, are not modelled.
- Retransmit.Engine.Link: unlinking, which the source never does and which would follow a null pointer.
- WellKnown.AnswerFits: splitting a path into its components; the options are the ones the answer has.
- CoapCodec.CoapDecode: what the source reads behind a truncated message, memory the message does not determine; the model stops there with its own outcome. Tokens longer than 8 bytes.
- CoapCodec.DecodeOne: the same for one truncated option.
- CoapCodec.CoapMsg.CoapEncode: the Arduino codec, which writes the same format, and its decoder, which keeps one payload byte too many.
- RequestCache.Cache.Get: the Python cache, whose loops do not do what their comments say.
- XbeeFramer.Framer.ExtractFrameToList: overlapping memory copies are taken as moves, and an RX_SHORT frame of less than 5 bytes, whose copy would have a negative length, is listed as broken.
- DtlsEngine.Engine.Renegotiate: the source leaves the reorder queue of the new handshake parameters unset, so that the first early message fails an assertion where the model queues it.
- The deduplication of received requests by the master, whose re-sending branch needs a link that received requests never have.
- Sockets, the serial port and AT commands, the HTTP servers, configuration files, the event log and debug output.
- AES, SHA-256, elliptic curves and the random number generators themselves.
- Cookies of Client Hello messages beyond being valid or not.
- Memory that is freed and used again, and allocation that fails.
