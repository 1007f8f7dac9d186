# AsterFerry in Dafny

A verification project for AsterFerry, a controller and data plane that carries
agents' services to the public ports of gateways. It models the parts whose
correctness spans many calls and proves what they are for:

* **AFDP datagrams** (`Bytes`, `Datagram`, `Fragmentation`, `Heap`, `Reassembly`,
  `ReassemblyAnswers`, `ReassemblyRuns`, `ReplayMemory`, `Reassembler`): the
  header codec, cutting a payload into datagrams, and the reassembler with its
  flow and octet budgets and its replay memory, a map indexed by a heap.
* **Camouflage packets** (`Mask`, `Camouflage`, `CamouflageReassembly`,
  `CamouflageAnswers`, `CamouflageRuns`, `CamouflageWires`, `CamouflageCap`,
  `CamouflageConn`): masking with a keystream, sealed data packets under key
  rotation, padded handshake fragments, their reassembly per source, and its octet
  cap.
* **The leader lease** (`Leadership`): one shared row, any number of controllers
  with stale caches, and writes fenced by an epoch, as interleaved atomic steps.
* **Placement** (`Ordering`, `Text`, `Domain`, `Ports`, `Scheduler`,
  `SchedulerSafety`, `SchedulerTerms`, `SchedulerGreedy`, `SchedulerFixedPoint`):
  choosing a gateway and ports for an agent's services.
* **The assignment store** (`Store`, `StoreInvariants`, `StoreRuns`, `StoreAnswers`,
  `PlacementStore`, `Repository`): assignments, services, bindings, acks, specs
  and nodes as tables, eleven transactions over them, the invariants they keep
  together, and that decisions of the scheduler are accepted.
* **Snapshots, change hints, placeholders, login limits** (`Snapshots`,
  `ChangeBus`, `Placeholders`, `LoginLimiter`).

Each part has a value-level specification (functions on immutable states), the
loops and objects of the source as methods proved equal to it, and lemmas about
the specification over all inputs or all runs. The modules named `Answers` and
`Terms`, and the lemmas named `Exactly` and `Outright`, say what each operation
accepts, answers and leaves behind in terms of its inputs alone, without the
functions that compute it. A run is a sequence of states in which each follows
from the one before by one step.

What the source leaves to libraries is left open here: the hash and the
authenticator are arbitrary functions with outputs of the right length, checksums
are injective, address normalisation is an idempotent function, label matching
and field validation are arbitrary predicates (`Domain.Rules`), and random octets
and clocks are parameters. Transactions are serial; times are integers in
nanoseconds.

Four places where the code does not do what its words or names suggest; the model
follows the code, gives the failing input, and says exactly when it fails:

* The comment on `ErrLeadershipLost` (`internal/controller/leadership.go:25-27`)
  says that a write whose transaction crosses an epoch change fails. The fence
  compares with the epoch cached when the transaction commits, so a process that
  loses the lease and takes it again in between commits under the new epoch
  (`Leadership.WriteAcrossEpochs`). A write keeps its epoch if and only if its
  process has not acquired the lease meanwhile (`Leadership.WriteKeepsItsEpoch`).
* The camouflage reassembler's cap of 2^20 octets
  (`internal/afdp/obfuscation_conn.go:27`) is tested only when an assembly is
  opened. With the default limits a run exceeds it
  (`CamouflageCap.DefaultsExceedCap`). It is kept in every run if and only if
  128 * 7 * (maximum handshake wire size - 34) does not exceed it, that is up to
  1204 octets on the wire (`CamouflageCap.CapKeptExactly`).
* Unchanged content keeps its snapshot generation
  (`internal/controller/snapshots.go:210-212`), but deleting a spec writes a new
  generation even over an empty snapshot (`internal/controller/snapshots.go:305-329`).
  A spec that is put and deleted again between two materialisations moves the
  generation with the content empty before and after
  (`Snapshots.EmptyContentIsRewritten`). That is the only exception
  (`Snapshots.KeptExactly`, `Snapshots.UnchangedKeepsGeneration`).
* A port pool without ranges for a protocol admits every port
  (`internal/controller/scheduler_ports.go:57-59`), yet automatic allocation from
  it reports exhaustion with nothing in use (`Ports.EmptyPoolIsExhausted`).
  Exhaustion means that every admitted port is taken if and only if there are
  ranges or all ports are taken (`Ports.ExhaustionMeansFull`).

## Model

| member | source | states |
|---|---|---|
| `Datagram.AcceptedHeaders` | internal/afdp/protocol_datagram.go:26-51 | a header is accepted if and only if its flow is non-zero, its index below its count, the count at most 1024, and its flags are the ones its index and count determine |
| `Datagram.DecodeAfterEncode` | internal/afdp/protocol_datagram.go:60-104 | decoding an encoded header and payload gives both back |
| `Datagram.EncodeAfterDecode` | internal/afdp/protocol_datagram.go:60-104 | re-encoding what any accepted byte string decodes to gives exactly those bytes |
| `Datagram.EncodeExactly` | internal/afdp/protocol_datagram.go:26-79 | encoding succeeds if and only if the header is one that is accepted and the payload is within the limit, which is the configured one if that is from 1 to 65535 and 65535 otherwise |
| `Datagram.EncodeDatagram` | internal/afdp/protocol_datagram.go:60-79 | filling the buffer field by field produces the encoding, with the same refusals |
| `Fragmentation.CutCount` | internal/afdp/protocol_reassembly.go:181-188 | the rounded-up division counts the parts of the recursive cut, one for an empty payload |
| `Fragmentation.CutPart` | internal/afdp/protocol_reassembly.go:192-198 | the offsets of the loop select exactly the parts of the recursive cut |
| `Fragmentation.FragmentsLoop` | internal/afdp/protocol_reassembly.go:174-210 | the loop computes the fragments of the specification, errors included |
| `Fragmentation.FragmentsExactly` | internal/afdp/protocol_reassembly.go:174-210 | cutting succeeds if and only if the flow is non-zero, the MTU leaves room, there are at most 1024 parts and a part fits its 16-bit length |
| `Fragmentation.FragmentDecodes` | internal/afdp/protocol_reassembly.go:174-210 | every fragment decodes to its index, the count and its part |
| `Fragmentation.PartsJoin` | internal/afdp/protocol_reassembly.go:117-124 | the parts joined in index order are the payload |
| `CompletedHeap.PushKeeps` | internal/afdp/protocol_reassembly.go:44-58 | pushing keeps heap order and adds exactly the new entry |
| `CompletedHeap.PopTakesRoot` | internal/afdp/protocol_reassembly.go:44-58 | popping keeps heap order and removes exactly the root |
| `CompletedHeap.RootIsOldest` | internal/afdp/protocol_reassembly.go:44-58 | in heap order no entry is older than the root |
| `CompletedHeap.HeapPush` | internal/afdp/protocol_reassembly.go:50-50 | sifting up by swaps computes the push of the specification |
| `CompletedHeap.HeapPop` | internal/afdp/protocol_reassembly.go:52-58 | sifting down by swaps computes the pop of the specification |
| `Reassembly.ExpiryIsExact` | internal/afdp/protocol_reassembly.go:141-158 | popping the heap while its root is old leaves exactly the completions younger than the timeout, in map and heap alike |
| `Reassembly.MakeRoomDropsOldest` | internal/afdp/protocol_reassembly.go:125-138 | a full replay memory loses one entry and no entry older than it remains |
| `Reassembly.AcceptStores` | internal/afdp/protocol_reassembly.go:86-139 | a datagram that passes the checks adds its part, and delivers the joined parts exactly when none is missing |
| `Reassembly.AddKeepsValid` | internal/afdp/protocol_reassembly.go:71-139 | after any datagram at any time: the octet counter is the sum of stored parts and within its limit, flows are incomplete and within theirs, indices in range, and map and heap hold the same completions, at most twice the flow limit |
| `Reassembly.EmptyIsValid` | internal/afdp/protocol_reassembly.go:60-69 | a new reassembler satisfies that invariant |
| `Reassembly.FullMeansAll` | internal/afdp/protocol_reassembly.go:117-124 | as many parts as the count means every index is there, so the missing-part branch cannot be reached |
| `ReassemblyRuns.DeliveredWhenComplete` | internal/afdp/protocol_reassembly.go:71-139 | messages with fresh distinct keys, fed in any interleaving and order within timeout and budgets: no error, and each comes out with its exact payload exactly when its last fragment arrives |
| `ReassemblyRuns.DeliveredOnce` | internal/afdp/protocol_reassembly.go:71-139 | in such a run no message is handed out twice: every arrival before another of the same message answers with nothing |
| `ReassemblyRuns.DeliveredEventually` | internal/afdp/protocol_reassembly.go:71-139 | in such a run a message all of whose fragments arrive is handed out at exactly one arrival, with its payload |
| `ReassemblyRuns.DeliveredWithinBudgets` | internal/afdp/protocol_reassembly.go:71-139 | the same from budgets that can be checked beforehand: enough flow slots and octets for everything sent |
| `ReplayMemory.ReplayNeedsTimeOrTraffic` | internal/afdp/protocol_reassembly.go:81-85 | with a strictly increasing clock a key is delivered twice only if the timeout has passed or at least 2*maxFlows other deliveries came between |
| `ReassemblyAnswers.ExpiryOutright` | internal/afdp/protocol_reassembly.go:141-158 | expiry keeps exactly the flows begun and the completions recorded less than the timeout ago, and the octet counter falls to what those flows hold |
| `ReassemblyAnswers.AnswersExactly` | internal/afdp/protocol_reassembly.go:71-139 | after that expiry: malformed if and only if the key is remembered, or it is admitted and its count differs or its index is there; transient if and only if it is not remembered and there is no slot for it, or it clashes with nothing but its octets do not fit; delivered if and only if every other index is there, with the parts joined in order; and silence in every other case |
| `ReassemblyAnswers.UndecodableIsRefused` | internal/afdp/protocol_reassembly.go:71-75 | a datagram that does not decode is refused with the codec's error and changes nothing, not even by expiry |
| `ReassemblyAnswers.OthersExpireOnly` | internal/afdp/protocol_reassembly.go:79-139 | a flow of another key is there afterwards if and only if it was and is younger than the timeout, unchanged |
| `ReassemblyAnswers.OwnFlowAfter` | internal/afdp/protocol_reassembly.go:86-139 | the message's own flow is unchanged when the key is remembered or has no slot, dropped when the datagram clashes, does not fit or completes it, and otherwise extended by the part; one that has timed out starts anew with this part alone |
| `ReassemblyAnswers.OctetsAfter` | internal/afdp/protocol_reassembly.go:79-139 | afterwards the octet counter is exactly what the remaining flows hold |
| `ReassemblyAnswers.MemoryAfter` | internal/afdp/protocol_reassembly.go:117-139 | a delivered key is remembered with the time of delivery, at the cost of others only when the memory is full; any other answer changes the memory only by expiry |
| `Reassemblers.Reassembler.constructor` | internal/afdp/protocol_reassembly.go:60-69 | starts empty and valid |
| `Reassemblers.Reassembler.Add` | internal/afdp/protocol_reassembly.go:71-139 | the updates in place compute the step of the specification, which the rows of `ReassemblyAnswers` describe, and keep the invariant |
| `Reassemblers.Reassembler.Expire` | internal/afdp/protocol_reassembly.go:141-164 | the two expiry loops compute the expiry that `ReassemblyAnswers.ExpiryOutright` describes |
| `Mask.MaskTwice` | internal/afdp/obfuscation_crypto.go:9-25 | masking twice with one key and salt gives the data back |
| `Mask.MaskedBitwise` | internal/afdp/obfuscation_crypto.go:9-25 | a bit of octet i is flipped if and only if it is set in octet i % 32 of block i / 32 of the keystream |
| `Mask.MaskInPlace` | internal/afdp/obfuscation_crypto.go:9-25 | the block loop is the pointwise exclusive or with the keystream on its range and changes nothing else |
| `Camouflage.SealInto` | internal/afdp/obfuscation_write.go:115-131 | the buffer ends as salt, masked body and tag |
| `Camouflage.OpenSealed` | internal/afdp/obfuscation_read.go:10-43 | a sealed body is recovered when the sender's key is the first in the list that authenticates it |
| `Camouflage.EncodeDataPacket` | internal/afdp/obfuscation_write.go:10-23 | filling the buffers computes the data packet, or refuses it as too large |
| `Camouflage.DataRoundTrip` | internal/afdp/obfuscation_read.go:47-59 | an accepted payload comes back unchanged if it fits the destination, and not at all otherwise |
| `Camouflage.SurvivesRotation` | internal/afdp/obfuscation_conn.go:148-156 | a receiver with a new current key still reads what was sealed with the previous one |
| `Camouflage.WriteFragments` | internal/afdp/obfuscation_write.go:34-79 | the offset loop sends the packets of the specification, with the same errors, and what is already written when an error ends it |
| `Camouflage.FillFragment` | internal/afdp/obfuscation_write.go:81-113 | the body is filled in place field by field as specified |
| `Camouflage.SendExactly` | internal/afdp/obfuscation_write.go:34-79 | with accepted options a packet is refused if and only if fragments have no room for payload or it needs more than eight |
| `Camouflage.WholeOrNothing` | internal/afdp/obfuscation_write.go:52-78 | with accepted options a packet is written whole or not at all |
| `Camouflage.FragmentsFit` | internal/afdp/obfuscation_write.go:81-113 | two to eight fragments, each with its wire size between the configured minimum and maximum |
| `Camouflage.ParseBody` | internal/afdp/obfuscation_write.go:81-113 | no length or index field is truncated: a fragment body reads back as the fragment it carries |
| `Camouflage.FragmentReadsBack` | internal/afdp/obfuscation_read.go:78-96 | every packet sent for a fragment opens to its index, the count and its part |
| `CamouflageReassembly.EvictKeepsValid` | internal/afdp/obfuscation_read.go:148-157 | eviction removes exactly the assemblies whose deadline has come and keeps the invariant |
| `CamouflageReassembly.AcceptKeepsValid` | internal/afdp/obfuscation_read.go:78-146 | after any body from any source: octets equal the sum of stored parts, every assembly is incomplete with indices in range, each source's counter is its number of assemblies and at most 16, and there are at most 128 |
| `CamouflageReassembly.BytesBounded` | internal/afdp/obfuscation_read.go:100-125 | stored octets never exceed 128 * 7 * (maximum wire size - 34) |
| `CamouflageReassembly.PacketNotEmpty` | internal/afdp/obfuscation_read.go:139-144 | a finished packet is not empty, so the last branch cannot be taken |
| `CamouflageAnswers.OpenExactly` | internal/afdp/obfuscation_read.go:10-43 | a body is read from a packet if and only if its length is from 26 to 65536, some key is the first of the list whose tag over salt and masked octets equals the tag of the packet, and that key uncovers the body with the version in front |
| `CamouflageAnswers.UnsignedIsDropped` | internal/afdp/obfuscation_read.go:10-76 | a packet of impossible length, or whose tag no key of the list gives, is dropped |
| `CamouflageAnswers.DecodeExactly` | internal/afdp/obfuscation_read.go:38-70 | a body with the data type is its payload if that fits the destination, one with the fragment type goes to reassembly, and anything else is dropped |
| `CamouflageAnswers.ParsedExactly` | internal/afdp/obfuscation_read.go:79-96 | a body is taken for a fragment if and only if it is the fixed header with two to eight parts, an index below their number and a non-empty part, followed by that part and the padding it announces, within the configured wire size |
| `CamouflageAnswers.ReturnsExactly` | internal/afdp/obfuscation_read.go:97-146 | after eviction a fragment returns a packet if and only if its assembly is open, or its source holds fewer than 16, there are fewer than 128 and its octets fit; it agrees with the assembly in their number and its index is empty; and no other index is; the packet is the parts in order |
| `CamouflageAnswers.OwnAfter` | internal/afdp/obfuscation_read.go:97-146 | the fragment's assembly is gone with its packet, extended by a new part, and otherwise all are as they were; a new one ends a second later |
| `CamouflageAnswers.OthersEndOnly` | internal/afdp/obfuscation_read.go:148-157 | any other assembly is there afterwards if and only if it was and its deadline has not come, unchanged |
| `CamouflageAnswers.NoFragmentNoChange` | internal/afdp/obfuscation_read.go:79-96 | a body that is no fragment changes nothing and returns nothing |
| `CamouflageRuns.RunKeepsValid` | internal/afdp/obfuscation_read.go:78-157 | the invariant and the octet bound hold in every state of every run |
| `CamouflageRuns.PartsAreHeld` | internal/afdp/obfuscation_read.go:117-125 | until a packet is complete the state holds exactly the parts that have arrived, whatever their order and repetition |
| `CamouflageRuns.PacketReturnsWhenComplete` | internal/afdp/obfuscation_read.go:78-146 | the parts of a cut packet, in any order, repeated before completion and among any other traffic, return the packet exactly when the last one arrives and nothing before |
| `CamouflageWires.SentPacketReturns` | internal/afdp/obfuscation_conn.go:173-227 | end to end: the wire packets sent for a packet, decoded and accepted in any order and among any traffic, return it exactly when the last of them arrives |
| `CamouflageWires.SmallPacketReturns` | internal/afdp/obfuscation_write.go:44-50 | a packet that needs no fragments comes back at once if it fits the destination |
| `CamouflageCap.CapExceeded` | internal/afdp/obfuscation_read.go:106-125 | whenever entries, parts and wire size allow more than 2^20 octets, a run from a new connection stores more |
| `CamouflageCap.DefaultsExceedCap` | internal/afdp/obfuscation_conn.go:130-138 | such a run under the options the constructor fills in |
| `CamouflageCap.CapKeptExactly` | internal/afdp/obfuscation_read.go:106-125 | every state of every run is within the cap if and only if 128 * 7 * (maximum wire size - 34) is, which is a wire size of at most 1204 |
| `CamouflageConns.PacketConn.EvictFragments` | internal/afdp/obfuscation_read.go:148-157 | deleting in any map order computes the eviction of the specification |
| `CamouflageConns.PacketConn.AcceptFragment` | internal/afdp/obfuscation_read.go:78-146 | the updates in place compute the step of the specification and keep the invariant |
| `CamouflageConns.PacketConn.Receive` | internal/afdp/obfuscation_read.go:10-76 | computes what the rows of `CamouflageAnswers` describe; a packet of impossible length or that no key authenticates returns nothing and changes nothing |
| `Leadership.RunKeepsInv` | internal/controller/leadership.go:196-333 | in every run each cached epoch was granted to its process and the row belongs to the last grant |
| `Leadership.EpochsNeverDecrease` | internal/controller/leadership.go:196-228 | the row's epoch never decreases |
| `Leadership.OneOwnerPerEpoch` | internal/controller/leadership.go:196-263 | an epoch has one owner forever |
| `Leadership.OneWriter` | internal/controller/leadership.go:315-333 | in any reachable state at most one process passes the write fence |
| `Leadership.FencedAfterAcquire` | internal/controller/leadership.go:315-388 | after an acquisition commits, another process commits a write only if it has itself acquired a higher epoch since |
| `Leadership.WritesOrderedByEpoch` | internal/controller/leadership.go:346-388 | committed writes are ordered by epoch and one epoch has one writer |
| `Leadership.WriteKeepsItsEpoch` | internal/controller/leadership.go:315-333 | a write commits under the epoch it began under if and only if its process has not acquired the lease in between |
| `Leadership.WriteAcrossEpochs` | internal/controller/leadership.go:25-27 | a run in which a write begun under one epoch, with the timestamp of its beginning, commits under the next |
| `Leadership.AcquiresExactly` | internal/controller/leadership.go:196-228 | an acquisition commits if and only if the process stands by and the row has no owner or has run out at the timestamp of the statement; the row then names the process, under the next epoch, until 15 seconds after that timestamp |
| `Leadership.RenewsExactly` | internal/controller/leadership.go:230-249 | a renewal moves the expiry to 15 seconds after its timestamp if and only if the row is the process's, at the epoch of the call, and has not run out; otherwise the row stays and the process steps down |
| `Leadership.ReleasesExactly` | internal/controller/leadership.go:251-263 | a release that takes effect frees the row under its epoch if and only if it is the process's at the epoch of the call; the process steps down either way |
| `Leadership.WritesExactly` | internal/controller/leadership.go:315-333 | a write commits if and only if the row is the process's, at its cached epoch, and had not run out at the timestamp |
| `Leadership.CachesChangeLocally` | internal/controller/leadership.go:265-298 | a cached epoch changes only when its process caches the epoch it was granted, or steps down |
| `Leadership.LeaseIsRespected` | internal/controller/leadership.go:196-263 | in every run, after the last grant or renewal and unless the lease is released, any acquisition has a timestamp at or after the expiry which that grant or renewal set |
| `Leadership.Leader.AcquireLease` | internal/controller/leadership.go:196-228 | takes the row if and only if it is free or has run out at the timestamp, with the next epoch and a new expiry, and otherwise leaves it alone and reports no epoch |
| `Leadership.Leader.RenewLease` | internal/controller/leadership.go:230-249 | extends the row only while it is this process's at its cached epoch and unexpired |
| `Leadership.Leader.ReleaseLease` | internal/controller/leadership.go:251-263 | frees the row only if it is this process's at its cached epoch, and steps down |
| `Leadership.Leader.BecomeLeader` | internal/controller/leadership.go:265-280 | caches the granted epoch |
| `Leadership.Leader.BecomeStandby` | internal/controller/leadership.go:282-298 | forgets the epoch |
| `Leadership.Leader.AssertWrite` | internal/controller/leadership.go:315-333 | passes if and only if leadership is off, or the process is active and the row is its own at its cached epoch and unexpired |
| `Domain.PortInPool` | internal/controller/scheduler_ports.go:50-66 | a port is in the pool if some range holds it or the protocol has no ranges |
| `Ports.AllocateIs` | internal/controller/scheduler_ports.go:22-48 | a granted port is free and in the pool, and the requested one if there was a request; conflict if and only if the requested port is taken, outside the pool if and only if it is free and not admitted, exhausted if and only if none was requested and every port of the ranges is taken |
| `Ports.FirstFree` | internal/controller/scheduler_ports.go:34-47 | an automatic port is free, and every port before it in the order of the ranges and upwards in each is taken |
| `Ports.EmptyPoolIsExhausted` | internal/controller/scheduler_ports.go:34-47 | without ranges for the protocol automatic allocation fails whatever is in use, while every free port can be had by asking |
| `Ports.ExhaustionMeansFull` | internal/controller/scheduler_ports.go:34-66 | exhaustion means that every port the pool admits is taken if and only if there are ranges or all ports are taken |
| `Ports.AllocatePort` | internal/controller/scheduler_ports.go:22-48 | the nested loops compute the lowest free port in range order |
| `Scheduler.CollectOccupied` | internal/controller/scheduler_placement.go:215-256 | the occupancy is a new set: the loaded keys less the current placement's own, and the keys of every other active assignment; the caller's set is unchanged |
| `Scheduler.CloneBindingSet` | internal/controller/scheduler_ports.go:76-85 | the copy is a new set with the same keys |
| `Scheduler.PlaceServices` | internal/controller/scheduler_placement.go:261-318 | the service loop places each service against everything placed before it, errors included |
| `Scheduler.Schedule` | internal/controller/scheduler_placement.go:145-334 | the candidate loop computes the decision that the rows of `SchedulerTerms` and `SchedulerSafety` describe, refusals included, and changes none of the caller's occupancy sets |
| `SchedulerSafety.RankOrder` | internal/controller/scheduler_placement.go:181-200 | current gateway first, then load, then id is a strict total order |
| `SchedulerSafety.DecisionIgnoresOrder` | internal/controller/scheduler_placement.go:180-334 | success or error is the same for every permutation of the candidates |
| `SchedulerSafety.PicksBest` | internal/controller/scheduler_placement.go:180-334 | the chosen gateway precedes in that order every other one that would take the services |
| `SchedulerSafety.FailsOnlyWithoutFit` | internal/controller/scheduler_placement.go:203-334 | with valid services a decision fails if and only if no gateway takes them, and the error is one a gateway gave, port conflicts first, or that none was eligible |
| `SchedulerSafety.DecisionIsSafe` | internal/controller/scheduler_placement.go:203-327 | the chosen gateway is a healthy, enabled gateway whose certificate is not revoked, expired or decommissioned; it is the fixed one, or without one matches the selector; one binding per service with its protocol, address and fixed port, in the pool or inherited; keys distinct and disjoint from all occupancy that stays; agents and services within capacity afterwards |
| `SchedulerTerms.WellFormedExactly` | internal/controller/scheduler_placement.go:145-179 | a request is looked at if and only if its agent id and spec are valid and agree, it has a generation and services, these have distinct ids and are all the agent's |
| `SchedulerTerms.EligibleExactly` | internal/controller/scheduler_placement.go:203-252 | a gateway is considered if and only if it is healthy, enabled, a gateway with a pending or active certificate, the fixed one or without one matches the selector, and has room for one more agent and for the services, not counting the current placement that stays there |
| `SchedulerTerms.RanksByPreference` | internal/controller/scheduler_placement.go:181-200 | the order of candidates is: the current gateway, then 1000 per active agent plus one per active service, then the id |
| `SchedulerTerms.OccupiedExactly` | internal/controller/scheduler_placement.go:215-256 | a key is occupied if and only if it was loaded and is not released with the current placement that stays, or another active assignment of the gateway holds it |
| `SchedulerTerms.LoadedExactly` | internal/controller/scheduler_placement.go:48-67 | the keys loaded for a gateway are exactly those of its listeners and of its active assignments' bindings |
| `SchedulerTerms.DecisionOutright` | internal/controller/scheduler_placement.go:180-334 | the gateway chosen may serve the agent, has room, takes the services, and is preferred to every other that does; the assignment names it, the agent, the services in order, the generation, its first endpoint and its policy, is pending, and keeps the id of the current placement if that stays |
| `SchedulerTerms.DecisionCollidesWithNothing` | internal/controller/scheduler_placement.go:254-318 | no binding of a decision has the key of a binding of another active assignment on the gateway, nor of one of its listeners unless the current placement that stays is on it |
| `SchedulerTerms.PlacedOneByOne` | internal/controller/scheduler_placement.go:261-318 | each service keeps the port it has if that is still allowed and free, else gets the port it asks for, which is free and in the pool, else the first free port of the ranges, against what is occupied and what the services before it got |
| `SchedulerTerms.PlaceStopsAt` | internal/controller/scheduler_placement.go:261-318 | a gateway that fails does so at the first service that cannot be placed after those before it, with the reason that applies: invalid, selector, port taken, port outside the pool, or no free port |
| `SchedulerTerms.RefusedBecause` | internal/controller/scheduler_placement.go:166-334 | a refused decision reports what is wrong with the request; else the first invalid service over the gateways in order of preference; else the last port conflict, else the first other refusal, else that none was eligible |
| `SchedulerGreedy.KeyTells` | internal/controller/scheduler_ports.go:68-74 | equal binding keys mean equal protocol, normal address and port, when no protocol name has a bar |
| `SchedulerGreedy.GreedyExactly` | internal/controller/scheduler_placement.go:261-318 | placing one service after the other without inherited ports succeeds if and only if any placement exists, unless an automatic port comes before a service that asks for one it could be given |
| `SchedulerGreedy.FailsOnlyWithoutPlacement` | internal/controller/scheduler_placement.go:203-334 | such a first placement fails if and only if the request is not well formed or no gateway that may serve the agent and has room, in the terms of `SchedulerTerms`, has any placement for the services |
| `SchedulerGreedy.TrapFails` | internal/controller/scheduler_placement.go:281-294 | an automatic port taken before the service that asks for it: no result, though a placement exists and the other order finds it |
| `SchedulerGreedy.FixedFirst` | internal/controller/scheduler_placement.go:261-263 | services that ask for ports before those that do not are never such a case |
| `SchedulerFixedPoint.SameAssignmentPlacement` | internal/controller/scheduler_placement.go:368-395 | the sort-and-compare loops decide sameness of placements |
| `SchedulerTerms.SamePlacementExactly` | internal/controller/scheduler_placement.go:368-395 | placements are the same if and only if they agree in id, gateway, agent, endpoint and policy and hold the same services and the same bindings, up to order and the spelling of addresses, when no two bindings of one share a key |
| `SchedulerFixedPoint.LoadUsedKeys` | internal/controller/scheduler_placement.go:48-67 | loaded occupancy is the listeners' keys and those of every active assignment |
| `SchedulerFixedPoint.SchedulingIsFixedPoint` | internal/controller/scheduler_reconcile.go:257-272 | once a decision is stored and the candidates reloaded, scheduling the same services in any order decides a placement the comparison accepts, so nothing is written |
| `PlacementStore.DecisionIsAccepted` | internal/controller/scheduler_reconcile.go:274-291 | a decision made on a fresh view of the tables, for services no other active assignment holds, is accepted by the store when put under the right revision |
| `PlacementStore.InheritedInPool` | internal/controller/scheduler_placement.go:281-288 | a port kept from the current placement is in the pool, although the scheduler does not look, because the store keeps it there |
| `StoreInvariants.PutKeepsInv` | internal/controller/store_assignment_write.go:14-197 | putting an assignment keeps all store invariants |
| `StoreInvariants.UpdateStateKeepsInv` | internal/controller/store_assignment_state.go:17-88 | setting a state keeps all store invariants |
| `StoreInvariants.NodeResultKeepsInv` | internal/controller/store_assignment_state.go:96-213 | a node's report on every assignment it takes part in keeps all store invariants |
| `StoreInvariants.CountIsBoth` | internal/controller/store_assignment_query.go:15-19 | counting two distinct applied nodes means both participants have applied |
| `StoreInvariants.BumpKeepsInv` | internal/controller/store_assignment_links.go:50-127 | invalidating the assignments of a changed service keeps all store invariants |
| `StoreInvariants.PutServiceKeepsInv` | internal/controller/store_services.go:12-111 | putting a service keeps all store invariants, because one in use cannot change what bindings depend on |
| `StoreInvariants.DeleteServiceKeepsInv` | internal/controller/store_assignment_links.go:142-208 | deleting a service, which detaches it first, keeps all store invariants |
| `StoreInvariants.PutSpecKeepsInv` | internal/controller/store_node_specs.go:49-165 | writing a node spec, whose pool and listeners must fit the bindings in place and whose endpoints are pushed into the assignments, keeps all store invariants |
| `StoreInvariants.EndpointsRepaired` | internal/controller/store_node_spec_validation.go:16-114 | after a gateway spec edit every assignment's endpoint is empty or advertised |
| `StoreInvariants.DeleteSpecKeepsInv` | internal/controller/store_node_specs.go:167-238 | deleting a spec without dependents keeps all store invariants |
| `StoreInvariants.WriteNodeKeepsInv` | internal/controller/store_resources.go:431-508 | writing a node and quarantining its assignments keeps all store invariants |
| `StoreInvariants.RunKeepsInv` | internal/controller/store_assignment_write.go:98-182 | in every state of every run: acks belong to participants and carry the current generation; applied implies both applied acks; degraded and draining rows hold no bindings; every binding fits its service, its gateway's pool and listeners; services and sockets are held once; participants keep their roles |
| `StoreRuns.OneBindingPerSocket` | internal/controller/resource_assignment_codec.go:111-138 | two stored bindings on one gateway with one protocol, address and port are the same row |
| `StoreRuns.StepMoves` | internal/controller/store_assignment_state.go:60-82 | over any transaction a surviving assignment's generation and revision do not fall, any change takes a new revision, and degraded or draining is left only by putting it or setting its state |
| `StoreRuns.RunMoves` | internal/controller/store_assignment_state.go:17-213 | over whole runs, while an assignment exists its generation and revision do not fall, and once degraded or draining it stays so until it is put or its state is set |
| `StoreRuns.BecomesApplied` | internal/controller/store_assignment_state.go:143-175 | a pending assignment becomes applied if and only if a participant reports success for a generation that covers it and its peer's ack is there |
| `StoreRuns.BothReportsApply` | internal/controller/store_assignment_state.go:96-213 | success reported by both participants, in either order, applies a pending assignment |
| `StoreRuns.PutStores` | internal/controller/resource_assignment_codec.go:111-138 | a put stores the placement and services asked for, without acks, and exactly the bindings asked for in normal form, or none for a degraded or draining row |
| `StoreRuns.PutReplaces` | internal/controller/store_assignment_write.go:155-182 | a put removes exactly the other assignments that hold one of its services, all of them degraded or draining, and leaves every other with its bindings and acks |
| `StoreRuns.FailureReleases` | internal/controller/store_assignment_state.go:176-190 | a failure report degrades every assignment it concerns under the next revision, releases its bindings and records the rejection; other rows and bindings stay |
| `StoreRuns.DisablingCloses` | internal/controller/store_resources.go:306-338 | an update that disables a node or leaves it without an active certificate degrades every placement it takes part in, without bindings and acks, and touches no other |
| `StoreRuns.ServiceChangeReopens` | internal/controller/store_assignment_links.go:98-121 | a changed service gives exactly its holder the next generation and revision, without acks and pending unless relinquished, and keeps its services, bindings, endpoint and policy |
| `StoreRuns.GatewayChangeReopens` | internal/controller/store_node_spec_validation.go:55-96 | a gateway edit does so for exactly its assignments whose endpoint is no longer advertised, which then get the first one that is, or whose policy differs, which is replaced; services and bindings stay |
| `StoreRuns.ServiceDeletionDetaches` | internal/controller/store_assignment_links.go:142-208 | deleting a service removes it, in place, and its bindings from its holder, which gets the next generation, or the holder with it, and touches no other assignment |
| `StoreAnswers.PutExactly` | internal/controller/store_assignment_write.go:14-197 | a put is accepted if and only if the document may be put, both nodes are enabled and of their kinds, the endpoint is advertised, the generation is not behind, no serving assignment holds a service of it, its services exist, are the agent's, match the gateway and are named once, its bindings fit services, pool and listeners, no address of them is taken by an assignment that stays, and ifMatch is the stored revision, or not positive if there is none; with a wrong revision alone it is a revision conflict |
| `StoreAnswers.PutRefusals` | internal/controller/store_assignment_write.go:14-155 | each of these refusals of a put in exactly its case: applied state, disabled participant, endpoint, stale generation, active holder or repeated service, first service that is another agent's or leaves out the gateway, revision |
| `StoreAnswers.PutOutright` | internal/controller/store_assignment_write.go:155-197 | the row stored is the document under the next revision, or revision 1, and services, specs and nodes stay |
| `StoreAnswers.UpdateStateExactly` | internal/controller/store_assignment_state.go:17-54 | setting a state is accepted if and only if it is not the applied one, the assignment exists, ifMatch is its revision and there is a next one; a revision conflict if and only if only the revision is wrong |
| `StoreAnswers.UpdateStateOutright` | internal/controller/store_assignment_state.go:60-88 | the state asked for is stored under the next revision, acks are gone, bindings stay only if it serves, and nothing else changes |
| `StoreAnswers.DeleteAssignmentExactly` | internal/controller/store_assignment_write.go:251-289 | a deletion is accepted if and only if the assignment exists at the revision ifMatch, and another revision is a conflict |
| `StoreAnswers.DeleteAssignmentOutright` | internal/controller/store_assignment_write.go:251-289 | the row is gone with its bindings and acks, and nothing else changes |
| `StoreAnswers.ReportAccepted` | internal/controller/store_assignment_state.go:96-190 | a report is accepted if and only if it names a node and a generation the column holds, and no row that it moves on is at its last revision |
| `StoreAnswers.ReportOutright` | internal/controller/store_assignment_state.go:96-213 | a report on a generation that covers a participant's assignment that is not draining degrades it on failure, without bindings, applies it on success if it is pending and its peer's ack of success is there, under the next revision, and leaves every other row and its bindings alone |
| `StoreAnswers.ReportAcksExactly` | internal/controller/store_assignment_state.go:142-165 | a report adds or replaces the node's ack of exactly those assignments, at their generation, and no other ack |
| `StoreAnswers.PutServiceExactly` | internal/controller/store_services.go:12-111 | a service is put if and only if it is valid, its agent has an agent spec, ifMatch is the stored revision or not positive for a new one, and a changed one that is in use keeps agent, protocol, address and port, still matches the gateways with its selector, and its holder can take another generation; with a wrong revision it is a conflict |
| `StoreAnswers.PutServiceOutright` | internal/controller/store_services.go:12-111 | it is stored with its address in normal form under the next revision; an unchanged or a new one touches no assignment |
| `StoreAnswers.DeleteServiceExactly` | internal/controller/store_services_api.go:115-156 | a service is deleted if and only if it exists at the revision ifMatch and a holder with other services can take another generation |
| `StoreAnswers.DeleteServiceOutright` | internal/controller/store_services_api.go:115-156 | it is gone from the services, and specs and nodes stay |
| `StoreAnswers.PutSpecExactly` | internal/controller/store_node_specs.go:49-165 | a spec is put if and only if it is valid, the node exists, bindings in place fit a gateway's pool and listeners and those to repair can take another generation, an agent's assignments are where it allows them and its fixed gateway is one, a change of kind has no dependents, and ifMatch is the stored revision or not positive for a new one |
| `StoreAnswers.PutSpecOutright` | internal/controller/store_node_specs.go:49-165 | it is stored under the next revision; other specs, services and nodes stay, and an agent's spec touches no assignment |
| `StoreAnswers.DeleteSpecExactly` | internal/controller/store_node_specs.go:167-238 | a spec is deleted if and only if it exists at the revision ifMatch and nothing depends on it: assignments on or agents fixed to a gateway, an agent's services and assignments; then only it is gone |
| `StoreAnswers.UpdateNodeExactly` | internal/controller/store_resources.go:259-347 | a node is updated if and only if it exists at the revision ifMatch, decommissioning is neither undone nor left enabled, and placements to close can take another revision; with a wrong revision it is a conflict |
| `StoreAnswers.UpdateNodeOutright` | internal/controller/store_resources.go:259-347 | the node is stored as asked; its placements are degraded, without bindings and acks, if and only if it is disabled, left without an active certificate, or comes back from a revoked one, and otherwise no placement is touched |
| `StoreAnswers.DecommissionExactly` | internal/controller/store_resources.go:353-425 | a node is decommissioned if and only if it exists at the revision ifMatch and either is already, or it and its placements can take another revision |
| `StoreAnswers.DecommissionOutright` | internal/controller/store_resources.go:376-425 | it is disabled with the decommissioned certificate and its placements closed; a second time nothing changes |
| `StoreAnswers.AddNodeExactly` | internal/controller/store_resources.go:15-59 | a node is added at revision 1 if and only if its id is new, and nothing else changes |
| `Repositories.ApplyNodeResult` | internal/controller/store_assignment_state.go:96-213 | the row-by-row loop, with acks recorded as it goes, is the pointwise report of the specification in any row order |
| `Repositories.BumpAssignments` | internal/controller/store_assignment_links.go:50-127 | the loop is the pointwise edit of the specification, or refuses it whole when a counter is used up |
| `Repositories.UpdateEndpoints` | internal/controller/store_node_spec_validation.go:16-114 | the loop updates endpoint and policy of exactly the rows the specification edits, or refuses the whole when a counter is used up |
| `Repositories.QuarantineAssignments` | internal/controller/store_resources.go:431-508 | the loop degrades, releases and forgets acks of exactly the node's rows, or refuses the whole when a revision is used up |
| `Repositories.DetachService` | internal/controller/store_assignment_links.go:142-208 | editing or deleting the one holder found is detaching the service from every holder |
| `Repositories.CheckPut` | internal/controller/store_assignment_write.go:14-155 | the checks run in order report the first refusal of the specification, which `StoreAnswers.PutRefusals` gives case by case |
| `Repositories.InsertPorts` | internal/controller/resource_assignment_codec.go:129-136 | inserting row by row succeeds if and only if no two new rows and no old and new row share a socket, and no two new rows a service |
| `Repositories.CheckObstructed` | internal/controller/store_node_spec_validation.go:116-138 | the scan finds whether any stored binding is outside the new pool or on a new listener |
| `Repositories.Repository.PutAssignment` | internal/controller/store_assignment_write.go:14-197 | commits the put that `StoreAnswers.PutExactly` accepts with its superseded rows removed, or reports the refusal and changes nothing; the invariants hold after |
| `Repositories.Repository.UpdateAssignmentState` | internal/controller/store_assignment_state.go:17-88 | commits the new state without acks, and without bindings if relinquished, or changes nothing; the invariants hold after |
| `Repositories.Repository.ApplyResult` | internal/controller/store_assignment_state.go:96-213 | commits a node's report on all its assignments together or changes nothing; the invariants hold after |
| `Repositories.Repository.DeleteAssignment` | internal/controller/store_assignment_write.go:251-289 | removes the row with its bindings and acks under its revision, or changes nothing; the invariants hold after |
| `Repositories.Repository.PutService` | internal/controller/store_services.go:12-111 | commits the service together with the invalidated assignments, or changes nothing; the invariants hold after |
| `Repositories.Repository.DeleteService` | internal/controller/store_services_api.go:115-156 | commits the deletion together with the detached assignment, or changes nothing; the invariants hold after |
| `Repositories.Repository.PutNodeSpec` | internal/controller/store_node_specs.go:49-165 | commits the spec together with the repaired endpoints, or changes nothing; the invariants hold after |
| `Repositories.Repository.DeleteNodeSpec` | internal/controller/store_node_specs.go:167-219 | removes a spec without dependents under its revision, or changes nothing; the invariants hold after |
| `Repositories.Repository.UpdateNode` | internal/controller/store_resources.go:259-347 | decides on quarantine from the old and new enablement and certificate and commits node and assignments together, or changes nothing; the invariants hold after |
| `Repositories.Repository.DecommissionNode` | internal/controller/store_resources.go:376-425 | disables the node for good and closes its placements in one step, once; the invariants hold after |
| `Snapshots.HighestGeneration` | internal/controller/snapshots.go:190-194 | the loop finds the largest generation among the contained assignments |
| `Snapshots.BuildDesiredSnapshot` | internal/controller/snapshots.go:123-244 | computes the candidate of the specification |
| `Snapshots.EnsureDesiredSnapshot` | internal/controller/snapshots.go:249-298 | stores that candidate, or the empty snapshot of a node without a spec |
| `Snapshots.EnsureStores` | internal/controller/snapshots.go:184-298 | a materialisation stores exactly the current content: unchanged content keeps its record, changed content gets a strictly larger generation, and it covers every contained assignment |
| `Snapshots.EnsureFails` | internal/controller/store_snapshots.go:66-92 | it never fails on a conflicting row, and reports nothing to store exactly when there is neither content nor an earlier snapshot |
| `Snapshots.ToldExactly` | internal/controller/snapshots.go:123-183 | a node with a spec is told of exactly the assignments that name it in its role, with their port rows, and of the services these hold, or for an agent of all its services, each as stored |
| `Snapshots.GenerationIsLeast` | internal/controller/snapshots.go:184-298 | the generation stored is the least that covers every assignment contained and is not below the stored one for unchanged content, above it for changed content, and 1 for a first snapshot |
| `Snapshots.DeletionClears` | internal/controller/snapshots.go:305-329 | a spec deletion that commits leaves the node an empty snapshot of the next generation, or 1, and every other node its own, and is refused when there is no next generation |
| `Snapshots.GenerationsNeverFall` | internal/controller/snapshots.go:249-329 | over every run of edits, spec deletions and materialisations a node's stored generation never decreases, different snapshots of a node have different generations, and each covers its assignments |
| `Snapshots.KeptExactly` | internal/controller/snapshots.go:184-329 | over one event unchanged content keeps its record and changed content gets a larger generation, if and only if the event is not a committed spec deletion over a snapshot that is already empty |
| `Snapshots.UnchangedKeepsGeneration` | internal/controller/snapshots.go:184-329 | over any stretch of a run in which a node's content does not change, its record is the same at both ends if and only if no such deletion lies between |
| `Snapshots.EmptyContentIsRewritten` | internal/controller/snapshots.go:305-329 | a run in which the empty content takes a new generation |
| `Snapshots.StreamAscends` | internal/controller/grpc_snapshots.go:55-79 | generations sent on a stream are strictly increasing, none is below what the node reported, and nothing seen is newer than the last one sent |
| `Snapshots.OpensExactly` | internal/controller/grpc_connect.go:242-256 | a stream begins with a snapshot if and only if there is one that is newer than what the node reports, or as new with another checksum |
| `ChangeBus.MergeIsUnion` | internal/controller/changes.go:113-127 | a merged hint names every node of both once and keeps the pending-services bit |
| `ChangeBus.MergeResourceChanges` | internal/controller/changes.go:113-127 | the loop computes the merge of the specification |
| `ChangeBus.BuildHint` | internal/controller/changes.go:63-83 | the loop drops empty and repeated ids, and there is no hint without a node |
| `ChangeBus.HintExactly` | internal/controller/changes.go:63-83 | a notification gives no hint if and only if every id is empty; a hint names exactly the non-empty ids, each once, with the bit as it was given |
| `ChangeBus.StepsExactly` | internal/controller/changes.go:84-111 | when each step can happen and what it moves: a notification takes its hint in hand, a write moves it to the empty channel, the consumer takes what waits |
| `ChangeBus.NoHintIsLost` | internal/controller/changes.go:84-111 | under every interleaving of producers and consumer: consumed, queued and in hand together name exactly the nodes notified, the pending-services bit survives, hints have no duplicates |
| `ChangeBus.LoopEndsAfterOneRead` | internal/controller/changes.go:102-111 | the enqueue loop always has a step and after one receive its next step can only be the write |
| `ChangeBus.EverythingArrives` | internal/controller/changes.go:102-111 | with channel and hand empty, everything notified has been consumed |
| `Placeholders.BindPlaceholders` | internal/controller/db_dialect.go:364-469 | the single pass computes the recursive lexical specification |
| `Placeholders.LexRestores` | internal/controller/db_dialect.go:364-469 | putting a question mark back for every rewritten marker gives the query |
| `Placeholders.PieceByPiece` | internal/controller/db_dialect.go:364-469 | quotations, comments and code are copied verbatim, and each marker becomes its number in order, in a decimal that reads back as it |
| `Placeholders.NoMarkersNoChange` | internal/controller/db_dialect.go:364-469 | text without markers is unchanged |
| `Placeholders.MarkerInCode` | internal/controller/db_dialect.go:364-469 | in code, a question mark that is no operator is a marker |
| `Placeholders.PlainInCode` | internal/controller/db_dialect.go:364-469 | in code, any other character that opens no quotation or comment is copied |
| `Placeholders.QuotedInCode` | internal/controller/db_dialect.go:382-432 | text between quotation marks, where a backslash shields the next character and a doubled mark is text, is copied up to the closing mark |
| `Placeholders.LineCommentInCode` | internal/controller/db_dialect.go:401-445 | a line comment is copied up to the end of its line |
| `Placeholders.BlockCommentInCode` | internal/controller/db_dialect.go:406-445 | a block comment is copied up to the first mark that closes it |
| `Placeholders.DollarQuotedInCode` | internal/controller/db_dialect.go:413-490 | dollar-quoted text is copied up to the next occurrence of what opened it |
| `Placeholders.UnclosedQuote` | internal/controller/db_dialect.go:382-432 | a quotation that is never closed is copied to the end of the query |
| `Placeholders.UnclosedComment` | internal/controller/db_dialect.go:401-445 | so is a comment |
| `Placeholders.UnclosedDollar` | internal/controller/db_dialect.go:413-490 | so is dollar-quoted text |
| `Placeholders.DelimiterExactly` | internal/controller/db_dialect.go:471-498 | a dollar opens a quotation if and only if a tag, empty or a name, and a dollar follow |
| `Placeholders.OperatorExactly` | internal/controller/db_dialect.go:500-520 | a question mark is taken for an operator if and only if a bar or ampersand follows, or the nearest characters that are not blank end an expression before it and start an operand after it |
| `Placeholders.TagDelimiter` | internal/controller/db_dialect.go:471-490 | the scan finds the dollar quote that opens at a position |
| `Placeholders.TestOperator` | internal/controller/db_dialect.go:500-520 | the two scans decide whether a question mark is taken for an operator |
| `Placeholders.Itoa` | internal/controller/db_dialect.go:522-534 | the digits are the decimal of any machine integer and fit the buffer of twenty |
| `LoginLimiters.PurgingIsInvisible` | internal/controller/ratelimit.go:42-131 | with window and block no longer than the idle expiry and no capacity eviction, whatever is purged and when, every answer is that of a limiter that never purges |
| `LoginLimiters.CapBlocks` | internal/controller/ratelimit.go:69-92 | failures within one window block a key if and only if they reach the cap, from the last of them for the length of the block |
| `LoginLimiters.PurgeableIsStale` | internal/controller/ratelimit.go:116-131 | a bucket the purge may delete is neither blocked nor in its window |
| `LoginLimiters.CallsOutright` | internal/controller/ratelimit.go:42-103 | an attempt forgets a bucket if and only if it is asked for, not blocked and past its window; a failure counts the bucket up or begins a new window, and blocks it from the cap on; a success forgets it; no call touches the bucket of a key it does not name |
| `LoginLimiters.AnsweredExactly` | internal/controller/ratelimit.go:42-67 | the wait answered is the longest time that any key asked for is still blocked, and zero if none is |
| `LoginLimiters.PurgeableExactly` | internal/controller/ratelimit.go:116-131 | a bucket may be purged if and only if it has not been seen for the idle expiry, or is not blocked and past its window |
| `LoginLimiters.UniqueKeys` | internal/controller/ratelimit.go:145-159 | drops empty and repeated keys and no other |
| `LoginLimiters.LoginLimiter.PurgeSome` | internal/controller/ratelimit.go:116-131 | removes only purgeable buckets, at most 64 |
| `LoginLimiters.LoginLimiter.Allow` | internal/controller/ratelimit.go:42-67 | answers the longest wait of the keys after some purge, and forgets only lapsed buckets |
| `LoginLimiters.LoginLimiter.Failure` | internal/controller/ratelimit.go:69-92 | counts a failure for every key; the table stays within its capacity, every bucket left is untouched or has counted one failure, and nothing else is lost while there is room |
| `LoginLimiters.LoginLimiter.Success` | internal/controller/ratelimit.go:94-103 | forgets the keys and nothing else |

## Left out

- HTTP handlers, authentication, dashboard, command line, metrics, update and backup commands: input and output with single-branch rules.
- TLS, X.509, password hashing, encryption at rest and the hash function: library code, kept as open functions.
- Protobuf control frames: their round trips rest on a library marshaller.
- SQL text, drivers, pooling and schema checks: tables are maps, unique constraints are refusals of the write, foreign keys cascade; transactions are serial.
- Domain validators, address parsing and selector matching: open predicates in `Domain.Rules`; only idempotence of normalisation is used.
- Obfuscation policies: one opaque identity; protecting and comparing their keys is not modelled.
- Idempotency keys, audit records and notification of changed nodes: a repeated key skips its transaction, and the rest is recorded beside it.
- Reloading and revalidating stored rows: rows are taken to be readable as they were written.
- Node purging, replacement enrolment and certificate issuing: a node is added, updated or decommissioned.
- Target partition and retries of a reconcile pass (`internal/controller/scheduler_reconcile.go`): one placement of one group of services is modelled.
- Scheduler.Schedule: does not model the timestamp of the new assignment.
- Repositories.Repository.PutAssignment: does not model wrap-around of the revision at 2^63; the same holds for services, specs and node updates.
- Repositories.CheckObstructed: does not tell a port outside the pool from one on a listener, since the scan order of the rows is not fixed.
- LoginLimiters.LoginLimiter.Failure: does not say which bucket is dropped when the table is full; the source takes any.
- Snapshots.BuildDesiredSnapshot: reads one state of the tables; the source reads node, spec, assignments and services in separate statements, between which an edit may commit.
- SchedulerGreedy.GreedyExactly: speaks of placements that inherit no ports; a kept port can be in the way of a later request like an automatic one.
- Overflow of the 64-bit lease epoch and saturation of durations: times and epochs are unbounded.
- Closing of subscriptions, and delivery of leadership events, whose queue drops notifications by design.
- Retries while a snapshot cannot be prepared for the wire: a stream sends a snapshot or ends.
- Buffer pools, socket deadlines and the random buffer: performance only.
- Runtime telemetry and user management: counters and single-guard rules.
