# A verified model of NimbleBLE-Esphome

The components of the repository that carry state or arithmetic worth proving, modelled in Dafny with the NimBLE stack, the
API socket, the clients and the radio as an environment that may do anything its contract allows: every accepted or refused
frame, every return code and every event is an argument or a free choice.

| file | models |
|---|---|
| `ServiceStream.dfy`, `ServiceBatch.dfy` | one device as the proxy serves it: the life of its slot, the service stream it sends a subscriber, and the replies it owes |
| `Proxy.dfy` | slot accounting, the pool of owed disconnect notices, the unpair latch |
| `Gatt.dfy`, `PeerReport.dfy`, `Discovery.dfy`, `ClientLookup.dfy` | a peer's attribute tree, what it tells when answers may stop early, the discovery walk, the flat table and a lookup in it |
| `Gf256.dfy`, `Aes.dfy`, `Ccm.dfy` | AES-128 (FIPS 197) and CCM decryption (RFC 3610) over byte arrays |
| `AesVectors.dfy`, `CcmVector.dfy` | the standards' worked examples, derived from the definitions |
| `Merger.dfy`, `Tracker.dfy` | the scan-response merger, the advertisement queue and the tracker loop |
| `Basics.dfy` | options, clipping, powers of 256 |
| `AdvParser.dfy`, `Uuid.dfy`, `Address.dfy` | the advertisement parser, UUIDs and their wire and text forms, device addresses |
| `ConnectionFsm.dfy`, `ConnectBackoff.dfy` | the connection state machine and its deadlines, reconnect delays and pacing |
| `Digraph.dfy`, `Tarjan.dfy`, `Verdict.dfy` | the strongly-connected-component search of the reachability checker and its verdict |

`dafny verify dfyconfig.toml` checks everything. Classes mirror the objects of the repository; their methods state the whole
new state and keep `Valid()`, and ghost fields (`trace`, `notices`, `held`, `arrived`, `seen`) record what happened, so that
what a class promises is a statement about every run. `ServiceStream.Run` and `Proxy.Run` say so outright for any sequence of
steps, and return the history of states with each two neighbours related by their step.

## Where the code and its promises differ

The model follows the code. Each difference has an exact condition:

- Services-done is to follow complete streams only (`bluetooth_connection_hub.cpp:3-21`). On a discovered connection a list is
  complete if and only if the request was neither disturbed nor late, on one that was never discovered it is what the request
  outlived the last connection with (`ServiceStream.CachedListIsComplete`). The code can break the rule in four ways:
  - a GetServices is taken from any API client, and one that arrives mid-stream restarts the cursor under the subscriber's open
    request, which takes some services twice (`ServiceStream.OtherClientMidStream`);
  - on a connection opened with cached services nothing was discovered, so the very first GetServices is answered with
    services-done, and the subscriber takes an empty list (`ServiceStream.CachedConnectionTakesNothing`);
  - the notice that the connection ended can be refused, and superseded or displaced before it is sent again, so that a request
    outlives its connection and is closed by the services-done of the next (`ServiceStream.UntoldEndMidStream`);
  - the error frame that rejects a request during a teardown can be refused, and the stream that runs on closes the request
    (`ServiceStream.UnheardRejection`).
- The discovery walk ignores the status a procedure ends with. A success therefore stands for what was told, which is the
  peer's tree if and only if every answer was whole, and so whenever every procedure ended cleanly
  (`Discovery.NimbleGattEngine.Run`); a broken-off one is reported as a success all the same
  (`Discovery.BrokenOffListSucceeds`).
- The deadline comparison is not safe across a wrap of the 32-bit clock (`ConnectionFsm.TimeoutExact`), so the bounded wait of
  `spec/transitions.json` holds if and only if no poll can skip over a deadline there (`ConnectionFsm.BoundedWaitExact`).
- The backoff shift is cast to eight bits before it is capped (`ConnectBackoff.BaseIsCurve`).
- The CCM code emits one of the three length encodings (`Ccm.ShortAadIsStandard`).
- The reachability checker tests whole components, not cycles, against the deadline states (`Verdict.Check`,
  `Verdict.ConfinedCycleCanPass`).
- A merged frame parses as its two parts if and only if the advertisement is well-formed (`AdvParser.MergedFrameExact`).
- Any text of 36 characters is parsed as a dashed UUID. That stays inside the buffers if and only if at least four octets have a
  dash in front and the text ends with an octet (`Uuid.InsideExact`).

## Domain

Numbers that are unbounded here are bounded where the width matters: counters, clocks, 16-bit table indices and the pool's
words wrap as in the code. Preconditions that are not the code's own:

- CCM: nonces of 7 to 10 octets pass the guard but shift a 32-bit value by 32 or more, which C++ leaves undefined; message
  lengths are below 2^32, the width of the counter.
- Streaming: at most 32767 services, the width of the cursor; a device is not numbered 0.
- Proxy: device addresses are 48 bits and not zero; errors fit 16 bits.
- Discovery: the stack never ends a procedure with the clean status that has not delivered its whole answer.
- Clients: a subscriber has at most one open GetServices per device. A new one of its own takes the place of the old; it ends by a
  services-done, by a frame of a disconnect or of an error, by a timeout at any time, or with the session.
- Polling: for the converse of `ConnectionFsm.BoundedWaitExact` the period is below a quarter of the clock's turn, 12 days.

## Model

| member | source | states |
|---|---|---|
| `ServiceStream.Run` | components/bluetooth_connection/bluetooth_connection_hub.cpp:3-21 | The streaming rule on every run of a device, from a free slot, in any order of reservations, link and discovery reports, requests of the subscriber or of others, loop passes, drains, teardowns, subscriber changes and client timeouts, with any frame refused, the notice that the connection ended and the error that rejects a request included: each step makes of the slot what its case of `Does` says, and on a discovered connection the list the subscriber takes is the complete database if and only if its request was neither disturbed nor late; on one never discovered it takes what its request outlived the last connection with |
| `ServiceStream.Take` | components/bluetooth_connection/bluetooth_connection_hub.cpp:107-214 | One step keeps the invariant and does exactly what the relation says: every field of the slot and every event of the history |
| `ServiceStream.CachedListIsComplete` | components/bluetooth_connection/bluetooth_connection_hub.cpp:3-21 | The same for any history a device can have, for every services-done that closes an open request: on a discovered connection the list is complete if and only if nobody else restarted the stream under the request, no end of the connection the subscriber was not told of cut it short, and it did not open mid-stream by a rejection the subscriber never got |
| `ServiceStream.SoleClientTakes` | components/bluetooth_proxy/bluetooth_proxy.cpp:473-509 | With only the subscriber asking, and every rejection heard, the list it takes is the whole database on a discovered connection and nothing on one that was never discovered, whatever notices of ended connections it missed |
| `ServiceStream.SoleRequest` | components/bluetooth_proxy/bluetooth_proxy.cpp:473-509 | A request opened after the connection came up, with nobody else asking, is neither disturbed nor late |
| `ServiceStream.StaleMeansDisturbed` | components/bluetooth_proxy/bluetooth_proxy.cpp:264-275 | What an open request holds from before the stream last started is non-empty exactly when another client's request or an untold end of the connection disturbed it, and it misses the head of the stream exactly when it came late |
| `ServiceStream.OtherClientMidStream` | components/bluetooth_proxy/bluetooth_proxy.cpp:487-496 | A run that breaks the rule: two services too large for one frame, and a GetServices of another API client between them makes the subscriber take the first service twice |
| `ServiceStream.CachedConnectionTakesNothing` | components/bluetooth_proxy/bluetooth_proxy.cpp:479-486 | On a connection opened with cached services the subscriber's own GetServices is answered with services-done at once, and it takes an empty list whatever the device has |
| `ServiceStream.UntoldEndMidStream` | components/bluetooth_proxy/bluetooth_proxy.cpp:264-316 | The connection ends mid-stream and the notice is refused; another API client connects the device with cached services and asks for them: the subscriber takes the part it had gathered |
| `ServiceStream.UnheardRejection` | components/bluetooth_proxy/bluetooth_proxy.cpp:143-150 | The error frame that rejects the subscriber's request during a teardown is refused, the stream runs on, and the subscriber takes what was left of it |
| `ServiceStream.RequestIsAnswered` | components/bluetooth_proxy/bluetooth_proxy.cpp:487-496 | Every request of the subscriber's own on a discovered connection whose stream is not over, mid-stream too, is answered in full: once as many frames were accepted as there are services, the next accepted one is a services-done, and the list it closes is the complete database |
| `ServiceStream.OwnRequestStreams` | components/bluetooth_proxy/bluetooth_proxy.cpp:487-496 | Such a request leaves the cursor at 0, the request open and empty, and the database what it was |
| `ServiceStream.FirstErrorIsReported` | components/bluetooth_connection/bluetooth_connection_hub.cpp:81-103 | On every run: a freed slot's notice gives the first error told since the slot was taken, and only if there was none the reason of the step that freed it; a slot enters each state exactly by the steps that lead there, and is freed exactly with a notice |
| `ServiceStream.StepIsLawful` | components/bluetooth_connection/bluetooth_connection_hub.cpp:63-188 | The same for one step, with what a free slot must not hold |
| `ServiceStream.DiscoveredTableStreams` | components/bluetooth_connection/bluetooth_connection_hub.cpp:505-545 | From peer to subscriber: a table that stands for a peer's tree never makes the stream abort, and what the stream carries is that tree |
| `ServiceStream.BluetoothConnection.ProcessPendingServices` | components/bluetooth_connection/bluetooth_connection_hub.h:101-107 | One loop pass: a refused frame changes nothing; an accepted one moves the cursor past exactly the services it carried; services-done is offered only behind the last service; without a subscriber the stream parks; a service that cannot be packed, once the batch gets to it, tears down |
| `ServiceStream.BluetoothConnection.SendServiceForDiscovery` | components/bluetooth_connection/bluetooth_connection_hub.cpp:462-563 | The four ways a pass goes: end of table, no subscriber, a batch from the cursor, or an abort exactly when the batch gets to a service that cannot be packed |
| `ServiceStream.BluetoothConnection.SendBatch` | components/bluetooth_connection/bluetooth_connection_hub.cpp:480-562 | A batch is the services from the old to the new cursor of the database discovered, cut where the budget says; an abort tears down with the first latched cause and never sends services-done |
| `ServiceStream.BluetoothConnection.OfferBatch` | components/bluetooth_connection/bluetooth_connection_hub.cpp:553-562 | A filled batch moves the cursor only if its frame was accepted |
| `ServiceStream.BluetoothConnection.SendServicesDone` | components/bluetooth_connection/bluetooth_connection_hub.cpp:438-452 | A services-done is sent, or owed with a fresh count, or aged and finally abandoned; with nobody subscribed nothing is owed. It may be called only when no service is left to send, or none was discovered |
| `ServiceStream.BluetoothConnection.AgeServicesDone` | components/bluetooth_connection/bluetooth_connection_hub.cpp:454-460 | The retry count advances and the owed services-done ends at the limit |
| `ServiceStream.BluetoothConnection.GetServices` | components/bluetooth_proxy/bluetooth_proxy.cpp:473-509 | Rejected when not established, by a frame that may be refused; answered at once when nothing was discovered; put back to the start when the stream runs or has not been; superseding an owed services-done; ignored when the stream is over |
| `ServiceStream.BluetoothConnection.StartStream` | components/bluetooth_proxy/bluetooth_proxy.cpp:487-508 | A running or fresh stream starts at 0, whoever asks; one that is over or whose services-done is owed is parked |
| `ServiceStream.BluetoothConnection.ParkServiceStream` | components/bluetooth_connection/bluetooth_connection_hub.h:192-203 | An interrupted stream or an owed services-done ends silently |
| `ServiceStream.BluetoothConnection.EndSession` | components/bluetooth_proxy/bluetooth_proxy.cpp:700-726 | A subscriber change leaves no stream, no owed services-done, no owed ack and no owed connected reply of the old session, and touches nothing else of the slot |
| `ServiceStream.BluetoothConnection.AbortServiceStream` | components/bluetooth_connection/bluetooth_connection_hub.h:54-59 | An abort parks the cursor and leaves a closing link with its error latched, or a slot freed with the first latched cause |
| `ServiceStream.BluetoothConnection.Reserve` | components/bluetooth_proxy/bluetooth_proxy.cpp:305-316 | A slot taken for the device starts with no stream and owing nothing |
| `ServiceStream.BluetoothConnection.FreeHoldsNothing` | components/bluetooth_connection/bluetooth_connection_hub.cpp:91-103 | A free slot holds nothing of the device, whichever slot served it |
| `ServiceStream.BluetoothConnection.InitiateConnection` | components/bluetooth_connection/bluetooth_connection_hub.cpp:52-61 | Connecting, or a slot freed at once with the stack's error |
| `ServiceStream.BluetoothConnection.ConnectRequest` | components/bluetooth_proxy/bluetooth_proxy.cpp:328-358 | Only a fresh slot starts connecting; an open link repeats its connected reply; a request without an address type is answered with a disconnect; any other changes nothing |
| `ServiceStream.BluetoothConnection.Disconnect` | components/bluetooth_connection/bluetooth_connection_hub.cpp:63-79 | Idempotent teardown: unchanged when idle or closing, else closing, or freed with the first latched cause |
| `ServiceStream.BluetoothConnection.DisconnectRequest` | components/bluetooth_proxy/bluetooth_proxy.cpp:360-374 | A requested teardown; the branch for an idle slot that still has an address is dead |
| `ServiceStream.BluetoothConnection.ResetConnection` | components/bluetooth_connection/bluetooth_connection_hub.cpp:91-103 | Freeing a slot sends the first latched cause, leaves nothing of the connection, and ends the client's request exactly if that frame lands |
| `ServiceStream.BluetoothConnection.OnConnectionState` | components/bluetooth_connection/bluetooth_connection_hub.cpp:107-171 | Every outcome of a link report: late, up while closing, cached, uncached with or without a started discovery, and down |
| `ServiceStream.BluetoothConnection.OnServiceDiscoveryDone` | components/bluetooth_connection/bluetooth_connection_hub.cpp:173-188 | Success makes the table the database of this connection; failure latches its error as the cause of the teardown, one already under way included |
| `ServiceStream.BluetoothConnection.SendConnectedReply` | components/bluetooth_connection/bluetooth_connection_hub.cpp:216-227 | A connected reply is owed exactly when a subscriber refused it |
| `ServiceStream.BluetoothConnection.SendAck` | components/bluetooth_connection/bluetooth_connection_hub.cpp:274-287 | A refused ack displaces the owed one and starts its count again |
| `ServiceStream.BluetoothConnection.SupersedePendingAck` | components/bluetooth_connection/bluetooth_connection_hub.h:140-148 | A new request for a handle drops an owed error for it, and an owed ack of its own kind, and nothing else |
| `ServiceStream.BluetoothConnection.FlushPendingAck` | components/bluetooth_connection/bluetooth_connection_hub.cpp:289-297 | The owed ack is settled, stays the same one and ages, or is abandoned at its limit |
| `ServiceStream.BluetoothConnection.FlushOwedReplies` | components/bluetooth_connection/bluetooth_connection_hub.cpp:190-214 | One drain of a slot is one step of the debts: connected first, the other two deferred but ageing while it stays owed |
| `ServiceStream.StreamAll` | components/bluetooth_connection/bluetooth_connection_hub.cpp:462-563 | An undisturbed stream gets through: whatever frames are refused in between, once as many were accepted as there are services the subscriber holds the whole database and the cursor stands at its end |
| `ServiceStream.StreamOnce` | components/bluetooth_connection/bluetooth_connection_hub.cpp:553-562 | One pass over an undisturbed stream: refused it stays where it is, accepted it comes at least one service further |
| `ServiceStream.PassIsTick` | components/bluetooth_connection/bluetooth_connection_hub.cpp:553-562 | A pass of the slot inside a stream is one tick of the stream of batches |
| `ServiceStream.FlushedDebts` | components/bluetooth_connection/bluetooth_connection_hub.cpp:190-214 | On what a slot owes, its drain is one step of the debts |
| `ServiceStream.DebtsAge` | components/bluetooth_connection/bluetooth_connection_hub.cpp:190-214 | After any drains a debt is settled or has aged by exactly their number, and the counters stay in their five and eight bits |
| `ServiceStream.DebtsSettle` | components/bluetooth_connection/bluetooth_connection.h:72-79 | An owed services-done is settled within 30 drains and an owed ack within 250, whatever is accepted, also behind a connected reply that never lands |
| `ServiceStream.DebtsLast` | components/bluetooth_connection/bluetooth_connection.h:72-79 | The bounds are met: a debt nothing accepts is still owed one drain before its limit |
| `ServiceStream.RestartsStream` | components/bluetooth_proxy/bluetooth_proxy.cpp:487-508 | A GetServices puts the cursor of a running or fresh stream to 0 and parks an owed or finished one, whoever asks, and changes nothing else of the slot |
| `ServiceStream.AnsweredAtOnce` | components/bluetooth_proxy/bluetooth_proxy.cpp:479-486 | When nothing was discovered a services-done is offered at once: it lands, or is owed with a fresh count |
| `ServiceStream.RejectedLeavesAlone` | components/bluetooth_proxy/bluetooth_proxy.cpp:473-478 | A rejected GetServices changes nothing but what the subscriber is told |
| `ServiceStream.OverStaysOver` | components/bluetooth_connection/bluetooth_connection_hub.cpp:462-476 | Once the stream of a connection is over, no step but a new discovery sends a batch or a services-done, or restarts it |
| `ServiceStream.PassLaw` | components/bluetooth_connection/bluetooth_connection_hub.cpp:462-563 | What a pass leaves at the end of the table, with nobody subscribed, on an abort, and around an accepted or a refused batch |
| `ServiceStream.WantedLaw` | components/bluetooth_proxy/bluetooth_proxy.cpp:318-358 | Which state and which debts a connect request leaves, by the state it finds |
| `ServiceStream.LinkUpLaw` | components/bluetooth_connection/bluetooth_connection_hub.cpp:107-158 | A link that comes up is established at once with cached services, else waits for a discovery, and is torn down with the latched error if that does not start |
| `ServiceStream.LinkDownLaw` | components/bluetooth_connection/bluetooth_connection_hub.cpp:107-171 | A link that goes down, or comes up late, frees the slot or lets it close |
| `ServiceStream.DiscoveryLaw` | components/bluetooth_connection/bluetooth_connection_hub.cpp:173-188 | A finished discovery establishes the connection with the table as its database; a failed one tears it down with its error latched |
| `ServiceStream.DroppedLaw` | components/bluetooth_connection/bluetooth_connection_hub.cpp:63-79 | A teardown leaves a closing link that is otherwise the same, or a freed slot with its notice |
| `ServiceStream.ConnectedFirst` | components/bluetooth_connection/bluetooth_connection_hub.cpp:190-214 | Nothing overtakes a connected reply that is still owed; once it has landed, the owed services-done and the owed ack are offered, and an accepted one is settled |
| `ServiceStream.SessionStartsClean` | components/bluetooth_proxy/bluetooth_proxy.cpp:700-726 | A new subscriber is owed nothing, has no stream running and no request open, on a connection that goes on as it was |
| `ServiceStream.StaleAckDropped` | components/bluetooth_connection/bluetooth_connection_hub.h:140-148 | An owed ack goes stale exactly when it is an error for the handle asked about, or of the same kind for it |
| `ServiceBatch.FillBatch` | components/bluetooth_connection/bluetooth_connection_hub.cpp:487-551 | A batch is exactly the services from its start to the new cursor, cut where the budget says: accounted at 1360 octets at most unless it holds a single service, and no service more would fit; it gives up exactly when nothing cuts it before a service whose ranges leave the table |
| `ServiceBatch.CutFits` | components/bluetooth_connection/bluetooth_connection_hub.cpp:487-551 | A frame holds at least one service and is accounted at 1360 octets at most unless it holds only one; it ends early only before a service that is estimated, at 10 or 25 octets and 60 for each characteristic, or found not to fit |
| `ServiceBatch.CloseServiceBatch` | components/bluetooth_connection/bluetooth_connection.cpp:12-38 | What is kept, accounted and passed after packing one more service |
| `ServiceBatch.PackService` | components/bluetooth_connection/bluetooth_connection_hub.cpp:500-545 | A service is refused exactly when one of its index ranges leaves the table, and otherwise packed with everything it owns |
| `ServiceBatch.PackDescriptors` | components/bluetooth_connection/bluetooth_connection_hub.cpp:526-543 | The same for the descriptors of one characteristic |
| `ServiceBatch.WholeIsTree` | components/bluetooth_connection/bluetooth_connection_hub.cpp:505-545 | A table within bounds can be streamed to the end and streams the tree it stands for |
| `ServiceBatch.WireKeeps` | components/bluetooth_connection/bluetooth_connection_hub.cpp:505-545 | A service on the wire keeps its UUID, its handle and, of each characteristic, everything but where it ends |
| `ServiceBatch.StreamAdvances` | components/bluetooth_connection/bluetooth_connection_hub.cpp:553-562 | Under any refusals what was accepted is a prefix of the database, and every accepted frame adds at least one service to it |
| `ServiceBatch.StreamCompletes` | components/bluetooth_connection/bluetooth_connection_hub.cpp:553-562 | Once as many frames were accepted as there are services, all of them were sent, each once and in order |
| `Proxy.Run` | components/bluetooth_proxy/bluetooth_proxy.cpp:206-316 | Every run of the proxy: no device on two slots, the clients' message lists the slots and counts the free ones, at most one owed disconnect per device and none for a device that holds a slot, every unsettled notice still in the pool with its reason; each step changes exactly the slot it is about and takes every notice to exactly the fate its cause calls for |
| `Proxy.Take` | components/bluetooth_proxy/bluetooth_proxy.cpp:206-316 | One step: which slot a connect takes and a release frees, what notice it issues, and what becomes of every other |
| `Proxy.EveryEndHasItsCause` | components/bluetooth_proxy/bluetooth_proxy.cpp:218-316 | On every run a notice that ended did so at some step and for the cause its fate names: delivered only in an accepted frame with its device and reason, superseded only by a reconnect of its device, satisfied only by a landed answer, displaced only from a pool full of other devices, dropped only with its subscriber or with nobody subscribed |
| `Proxy.EndedByCause` | components/bluetooth_proxy/bluetooth_proxy.cpp:218-316 | The same for one step |
| `Proxy.ClearAccounts` | components/bluetooth_proxy/bluetooth_proxy.cpp:241-250 | A reservation or a landed answer settles the notice owed to its own device and no other |
| `Proxy.ReleaseAccounts` | components/bluetooth_proxy/bluetooth_proxy.cpp:218-239 | A refused notice displaces another only from a full pool, and then the first |
| `Proxy.NoticeIssued` | components/bluetooth_proxy/bluetooth_proxy.cpp:264-283 | The notice of a freed slot names its device and its reason, and is delivered, owed, or dropped exactly as the subscriber accepts it, refuses it, or is not there |
| `Proxy.NothingLeftOwed` | components/bluetooth_proxy/bluetooth_proxy.cpp:241-316 | A device that gets a slot or a landed answer is owed nothing; an ended session, or a drain that lands entirely, owes nobody anything |
| `Proxy.DrainAccounts` | components/bluetooth_proxy/bluetooth_proxy.cpp:645-654 | A drain delivers exactly the owed notices whose frames were accepted |
| `Proxy.BluetoothProxy.SetAddress` | components/bluetooth_proxy/bluetooth_proxy.h:257-274 | A slot takes or gives up an address and the accounting follows; neither mismatch branch can be reached |
| `Proxy.BluetoothProxy.ReplaceAllocatedSlot` | components/bluetooth_proxy/bluetooth_proxy.cpp:206-216 | Found exactly when listed, and then one entry is replaced |
| `Proxy.BluetoothProxy.GetConnection` | components/bluetooth_proxy/bluetooth_proxy.cpp:285-316 | The slot that holds the device wins over any free one; a reservation takes the first free slot and supersedes what is owed to the device |
| `Proxy.BluetoothProxy.FindSlot` | components/bluetooth_proxy/bluetooth_proxy.cpp:289-304 | The scan ends at the holder, else knows the first free slot |
| `Proxy.BluetoothProxy.ResetConnectionSlot` | components/bluetooth_proxy/bluetooth_proxy.cpp:277-283 | A freed slot issues exactly one notice for its device: delivered, pooled, or dropped with nobody subscribed; no other notice changes unless a full pool loses its first |
| `Proxy.BluetoothProxy.SendDeviceDisconnected` | components/bluetooth_proxy/bluetooth_proxy.cpp:264-275 | A landed notice settles what the device was owed; a refused one is pooled under the device and evicts at most one other |
| `Proxy.BluetoothProxy.AnswerDeviceDisconnected` | components/bluetooth_proxy/bluetooth_proxy.cpp:252-262 | An answer that lands satisfies what is owed to its device; a refused one is never pooled |
| `Proxy.BluetoothProxy.LatchPendingDisconnection` | components/bluetooth_proxy/bluetooth_proxy.cpp:218-239 | The refused notice goes to its device's entry, else the first free one, else the first |
| `Proxy.BluetoothProxy.ClearPendingDisconnection` | components/bluetooth_proxy/bluetooth_proxy.cpp:241-250 | Afterwards nothing is owed to the device, and every other device is owed what it was |
| `Proxy.BluetoothProxy.DrainPendingDisconnections` | components/bluetooth_proxy/bluetooth_proxy.cpp:645-654 | Every owed notice is offered once: accepted it is settled and leaves the pool, refused it stays word for word where it was |
| `Proxy.BluetoothProxy.EndSession` | components/bluetooth_proxy/bluetooth_proxy.cpp:700-762 | A subscriber change empties the pool and the unpair latch; what was pooled ends as dropped |
| `Proxy.BluetoothProxy.SendDeviceUnpairing` | components/bluetooth_proxy/bluetooth_proxy.cpp:825-854 | What the frame reports and what stays owed after one attempt |
| `Proxy.SuccessStands` | components/bluetooth_proxy/bluetooth_proxy.cpp:828-834 | A bond that was removed is reported as removed: after a refused success every later attempt for the device reports success until one lands |
| `Proxy.OwnErrorReported` | components/bluetooth_proxy/bluetooth_proxy.cpp:825-854 | With no success owed to its device, a frame reports the attempt's own error |
| `Proxy.AttemptLeaves` | components/bluetooth_proxy/bluetooth_proxy.cpp:825-854 | A refused reply is owed to its device with what it reported; one that lands settles its own device only |
| `Proxy.LatchKeeps` | components/bluetooth_proxy/bluetooth_proxy.cpp:218-239 | Latching keeps one entry per device and loses no other notice than the one whose entry it takes |
| `Proxy.ClearKeeps` | components/bluetooth_proxy/bluetooth_proxy.cpp:241-250 | Clearing a device loses no other device's notice |
| `Proxy.OwedIsPooled` | components/bluetooth_proxy/bluetooth_proxy.cpp:218-250 | A notice still owed stands in the pool under its device, with its reason, exactly once |
| `Proxy.SlotMoves` | components/bluetooth_proxy/bluetooth_proxy.h:257-274 | One slot changing hands keeps the listing a permutation of the slots and the count right |
| `Proxy.PackRoundTrip` | components/bluetooth_proxy/bluetooth_proxy.h:64-86 | Address and 16-bit error survive packing; stray high address bits cannot reach the error or defeat a lookup; only address 0 with error 0 reads as empty |
| `Proxy.Repack` | components/bluetooth_proxy/bluetooth_proxy.cpp:645-654 | Re-latching an entry from its own parts changes no bit of it |
| `Discovery.NimbleGattEngine.Run` | components/nimble_ble/nimble_gattc.cpp:273-282 | A discovery reported as a success leaves a table within bounds that unflattens to exactly what the peer told; that is the peer's tree if and only if every answer was whole, and so whenever every procedure ended with a clean status; what is reported is the code the stack refused a request with, and success exactly when it refused none. The walk ends on every run, reports once, tells the state machine once, and never asks for an empty descriptor range |
| `Discovery.BrokenOffListSucceeds` | components/nimble_ble/nimble_gattc.cpp:561-564 | The service list breaks off with an ATT error, the walk reports success, and the table is not the peer's tree |
| `Discovery.NimbleGattEngine.DiscoverServices` | components/nimble_ble/nimble_gattc.cpp:273-282 | Without a connection nothing happens; else the walk starts from an empty table, or the refusal is returned and nothing follows |
| `Discovery.NimbleGattEngine.StartNextServiceChrDiscovery` | components/nimble_ble/nimble_gattc.cpp:473-487 | Asks for the next service's characteristics, or moves on to descriptors when all services are flattened |
| `Discovery.NimbleGattEngine.StartNextChrDscDiscovery` | components/nimble_ble/nimble_gattc.cpp:489-514 | Characteristics without room are passed over; when none is left the table is the flat form of what was told |
| `Discovery.NimbleGattEngine.FinishDiscovery` | components/nimble_ble/nimble_gattc.cpp:516-538 | One completion is reported, the state machine gets its done or timeout event, and an error tears the link down |
| `Discovery.NimbleGattEngine.AddCharacteristic` | components/nimble_ble/nimble_gattc.cpp:569-579 | One declaration extends the flat form by one characteristic |
| `Discovery.NimbleGattEngine.HandleNext` | components/nimble_ble/nimble_gattc.cpp:540-600 | Every event of the running procedure keeps the walk's invariant and moves it forward |
| `Discovery.NimbleGattEngine.OnSvc` | components/nimble_ble/nimble_gattc.cpp:553-560 | A service told is a service recorded |
| `Discovery.NimbleGattEngine.OnSvcDone` | components/nimble_ble/nimble_gattc.cpp:561-564 | After the services come their characteristics |
| `Discovery.NimbleGattEngine.OnChr` | components/nimble_ble/nimble_gattc.cpp:565-580 | A declaration closes the previous characteristic one handle earlier and extends the service's range |
| `Discovery.NimbleGattEngine.OnChrDone` | components/nimble_ble/nimble_gattc.cpp:581-588 | The last characteristic of a service reaches to its end; the service is then in its final flat form |
| `Discovery.NimbleGattEngine.OnDsc` | components/nimble_ble/nimble_gattc.cpp:589-596 | A descriptor extends the range of the characteristic being asked about |
| `Discovery.NimbleGattEngine.OnDscDone` | components/nimble_ble/nimble_gattc.cpp:597-600 | A characteristic is then in its final flat form |
| `PeerReport.ToldIsTree` | components/nimble_ble/nimble_gattc.cpp:553-600 | What is told is the peer's whole tree exactly when nothing of the tree is missing from an answer |
| `PeerReport.AnsweredIsTree` | components/nimble_ble/nimble_gattc.cpp:473-514 | The same in terms of the requests the walk makes: exactly when every answer it asks for is whole |
| `PeerReport.TableFits` | components/nimble_ble/nimble_gattc.cpp:480 | The 16-bit counts and indices of services, characteristics and descriptors cannot wrap at any point of a walk |
| `Gatt.ServiceRange` | components/nimble_ble/nimble_gattc.cpp:481-482 | A service's handle range selects its own characteristics and no others |
| `Gatt.CharacteristicRange` | components/nimble_ble/nimble_gattc.cpp:503-504 | The handles after a value up to the computed end select exactly the characteristic's descriptors on the whole peer |
| `Gatt.UnflattenFlatten` | components/nimble_ble/nimble_gattc.cpp:375-384 | Reading a flat table back gives the tree it was made from, with every range in bounds |
| `ClientLookup.GetCharacteristic` | components/esp32_ble_client/ble_client_base.cpp:107-121 | The lookup in the flat table is the lookup in the tree, and never leaves the table |
| `ClientLookup.FindInService` | components/esp32_ble_client/ble_client_base.cpp:114-118 | The scan of a service's index range finds the first matching characteristic of that service in the tree |
| `ClientLookup.InTreeFinds` | components/esp32_ble_client/ble_client_base.cpp:107-121 | It finds something exactly when the tree has it, and then the first such characteristic of the tree |
| `Aes.CipherIsPermutation` | components/ble_device_base/ble_aes_ccm.cpp:54-83 | For every key the cipher is a permutation of blocks: the standard's inverse cipher undoes it on both sides |
| `Aes.Aes128.constructor` | components/ble_device_base/ble_aes_ccm.cpp:38-52 | The expanded key is the key schedule of section 5.2 of FIPS 197 |
| `Aes.Aes128.NextWord` | components/ble_device_base/ble_aes_ccm.cpp:40-51 | Each step appends the next word of the schedule |
| `Aes.RconPowers` | components/ble_device_base/ble_aes_ccm.cpp:31 | The round constants are the powers of {02}, from 1 (section 5.2 of FIPS 197) |
| `Aes.RoundKeyStep` | components/ble_device_base/ble_aes_ccm.cpp:40-51 | Each round key is the previous one with a rotated, substituted and constant-added word carried through its four words |
| `AesVectors.ExampleKeys` | components/ble_device_base/ble_aes_ccm.cpp:38-52 | The schedule gives all eleven round keys of Appendix A.1 of FIPS 197 |
| `AesVectors.ExampleCipher` | components/ble_device_base/ble_aes_ccm.cpp:54-103 | The cipher gives the output of Appendix B of FIPS 197 |
| `Aes.ShiftRowsByRow` | components/ble_device_base/ble_aes_ccm.cpp:86-103 | Row r is rotated to the left by r places |
| `Aes.MixColumnsByMatrix` | components/ble_device_base/ble_aes_ccm.cpp:64-72 | Each octet of a mixed column is its row of the matrix {02}, {03}, {01}, {01} times the column, in GF(2^8) |
| `Aes.Aes128.Encrypt` | components/ble_device_base/ble_aes_ccm.cpp:54-83 | The in-place rounds compute the cipher of section 5.1 of FIPS 197, also when input and output are one buffer |
| `Aes.Aes128.Mix` | components/ble_device_base/ble_aes_ccm.cpp:64-72 | The factored column products are MixColumns |
| `Aes.Aes128.RotateRows` | components/ble_device_base/ble_aes_ccm.cpp:86-103 | The byte moves are ShiftRows |
| `Aes.Aes128.AddRoundKey` | components/ble_device_base/ble_aes_ccm.cpp:73-74 | A round key of the schedule is added |
| `Gf256.FactoredColumn` | components/ble_device_base/ble_aes_ccm.cpp:66-71 | Four doublings and the column sum give the four matrix products |
| `Gf256.SBoxIsStandard` | components/ble_device_base/ble_aes_ccm.cpp:12-29 | Every entry of the table is the affine image of the multiplicative inverse (of zero, for zero) |
| `Gf256.SBoxInverse` | components/ble_device_base/ble_aes_ccm.cpp:12-29 | The table is undone by the standard's inverse table |
| `Gf256.ConstantFactors` | components/ble_device_base/ble_aes_ccm.cpp:33 | The constant multiples are products in GF(2^8) |
| `Gf256.MixColumnInverse` | components/ble_device_base/ble_aes_ccm.cpp:64-72 | A mixed column can be unmixed |
| `Ccm.DecryptAcceptsExactlyEncryptions` | components/ble_device_base/ble_aes_ccm.cpp:115-200 | For any block function, decryption accepts exactly the encryptions under RFC 3610 and returns what was encrypted |
| `Ccm.OpenSealed` | components/ble_device_base/ble_aes_ccm.cpp:115-200 | Under AES the code's verdict and output are those of section 2.5 of RFC 3610 |
| `Ccm.AesCcmAuthDecrypt` | components/ble_device_base/ble_aes_ccm.cpp:115-200 | Bad lengths are refused with the output untouched; otherwise the output is the key-stream XOR and the verdict says exactly whether the tag is the masked CBC-MAC |
| `Ccm.ShortAadIsStandard` | components/ble_device_base/ble_aes_ccm.cpp:163-171 | The only length encoding emitted is the standard's exactly for additional data below 0xFF00 octets |
| `Ccm.ComputeMac` | components/ble_device_base/ble_aes_ccm.cpp:152-193 | The MAC of section 2.2 over first block, additional data and message |
| `Ccm.AbsorbAad` | components/ble_device_base/ble_aes_ccm.cpp:163-184 | Fourteen octets behind the length, then sixteen at a time, are the padded blocks of the encoded data |
| `Ccm.AbsorbData` | components/ble_device_base/ble_aes_ccm.cpp:186-193 | Absorbing block by block is the CBC-MAC of the padded message |
| `Ccm.BuildFirst` | components/ble_device_base/ble_aes_ccm.cpp:154-160 | The first block of section 2.2 |
| `Ccm.FlagsAreSum` | components/ble_device_base/ble_aes_ccm.cpp:155 | The bit fields of the flags octet do not overlap for any tag length and nonce in range |
| `Ccm.BuildCtr` | components/ble_device_base/ble_aes_ccm.cpp:127-135 | The counter block of section 2.3 |
| `Ccm.ReadCounterBlock` | components/ble_device_base/ble_aes_ccm.cpp:127-135 | Read as section 2.3 of RFC 3610 lays it out, a counter block gives back L, the nonce and the counter, with the other flag bits zero |
| `Ccm.CounterBlocksDiffer` | components/ble_device_base/ble_aes_ccm.cpp:127-135 | No two counters below 256^L, and no two nonces, share a block |
| `Ccm.NeverFirstBlock` | components/ble_device_base/ble_aes_ccm.cpp:127-160 | No counter block is ever the first block of a MAC |
| `Ccm.ReadFirstBlock` | components/ble_device_base/ble_aes_ccm.cpp:154-160 | Read as section 2.2 lays it out, the first block gives back Adata, M, L, the nonce and the message length |
| `Ccm.BigEndianReads` | components/ble_device_base/ble_aes_ccm.cpp:131-134 | The l octets of a number, read as a big-endian number, are that number below 256^l |
| `CcmVector.PacketVectorOne` | components/ble_device_base/ble_aes_ccm.cpp:115-200 | For any block cipher with its seven block values, packet vector 1 of RFC 3610 comes out as printed |
| `Ccm.CtrDecrypt` | components/ble_device_base/ble_aes_ccm.cpp:142-150 | Every octet is XORed with its own key-stream octet, in place or not |
| `Ccm.CtrInvolution` | components/ble_device_base/ble_aes_ccm.cpp:142-150 | Encryption and decryption of the message are inverse to each other |
| `Ccm.TagMatches` | components/ble_device_base/ble_aes_ccm.cpp:195-199 | The comparison without an early exit says exactly whether the tags are equal |
| `Merger.ScanResponseMerger.StashAdv` | components/ble_device_base/scan_response_merger.cpp:20-58 | A bounded map: a device held already has its older frame delivered, a full table delivers the new one, and otherwise it is held; per device, delivered then held reports are exactly those that arrived, in order |
| `Merger.ScanResponseMerger.SubmitScanRsp` | components/ble_device_base/scan_response_merger.cpp:60-84 | A response merges with the frame held for its device and frees it, or passes on as raw |
| `Merger.ScanResponseMerger.Sweep` | components/ble_device_base/scan_response_merger.cpp:86-96 | Exactly the frames older than the timeout are released, each delivered once |
| `Merger.ScanResponseMerger.Flush` | components/ble_device_base/scan_response_merger.cpp:98-108 | Every held frame is delivered once and none is left |
| `Merger.ScanResponseMerger.DeliveredAs` | components/ble_device_base/scan_response_merger.cpp:11-104 | Only an unmatched response goes out as raw; a merged frame has its advertisement's signal strength and the advertisement's octets before the response's, 62 at most |
| `Merger.PairIsMerged` | components/ble_device_base/scan_response_merger.cpp:20-104 | An advertisement that finds its device held or one of eight slots free, and the device's next response, are merged exactly when no sweep past the timeout and no flush came between, whatever other devices report meanwhile |
| `Merger.FullTablePassesOn` | components/ble_device_base/scan_response_merger.cpp:46-50 | With no slot free a new device's advertisement goes out at once and nothing held gives way to it |
| `Merger.RestashReleases` | components/ble_device_base/scan_response_merger.cpp:33-42 | The older frame of a device that advertises again goes out alone, and nothing goes out for a device that was not held |
| `Merger.ExpiredIsElapsed` | components/ble_device_base/scan_response_merger.cpp:86-96 | Within a turn of the true clock a frame is expired exactly when it was held for more than 300 ms |
| `Merger.ScanResponseMerger.Release` | components/ble_device_base/scan_response_merger.cpp:90-94 | Freeing a slot delivers what it held and nothing else |
| `Merger.ScanResponseMerger.EmptyHoldsNothing` | components/ble_device_base/scan_response_merger.h:146-149 | A pending count of zero means that nothing is held |
| `Merger.MergeIsLossless` | components/ble_device_base/scan_response_merger.cpp:66-76 | Two legacy payloads are merged in full |
| `Merger.LedgerMerge` | components/ble_device_base/scan_response_merger.cpp:66-76 | A merge accounts for both reports of its device and for no other |
| `Merger.LedgerPass` | components/ble_device_base/scan_response_merger.cpp:45-49 | Handing a report straight on keeps every device's order |
| `Merger.FreeSlot` | components/ble_device_base/scan_response_merger.cpp:36-38 | Clearing one flag removes one key of the map the table stands for |
| `Merger.FillSlot` | components/ble_device_base/scan_response_merger.cpp:50-57 | Filling a free slot adds one key to that map |
| `Merger.NoFreeSlot` | components/ble_device_base/scan_response_merger.cpp:43-49 | The table is full exactly when as many devices are held as there are slots |
| `Tracker.ESP32BLETracker.Conserved` | components/esp32_ble_tracker/adv_queue.cpp:13-24 | Reports pushed are those dropped, queued, held or delivered, a merged frame counting two |
| `Tracker.ESP32BLETracker.HandleReport` | components/esp32_ble_tracker/esp32_ble_tracker.cpp:130-155 | A report becomes one event of the type its PDU calls for, or is dropped and counted |
| `Tracker.ESP32BLETracker.HandleScanComplete` | components/esp32_ble_tracker/esp32_ble_tracker.cpp:157-163 | The end of a scan is queued behind the reports before it |
| `Tracker.ESP32BLETracker.Push` | components/esp32_ble_tracker/adv_queue.cpp:13-22 | A full queue frees the payload and counts the drop; nothing blocks |
| `Tracker.ESP32BLETracker.HandleNext` | components/esp32_ble_tracker/esp32_ble_tracker.cpp:43-62 | An event is handed on by its type: a response merges or passes on as raw, an advertisement is held, a direct one goes straight to the dispatcher, the end of a scan releases everything held; its payload is freed exactly once |
| `Tracker.ESP32BLETracker.ScanEndReleasesAll` | components/esp32_ble_tracker/esp32_ble_tracker.cpp:55-59 | On every run nothing of a scan is held once its end has been handled |
| `Tracker.HeldSinceKept` | components/esp32_ble_tracker/esp32_ble_tracker.cpp:44-59 | Only advertisements stashed since a scan last ended are held |
| `Tracker.ESP32BLETracker.Loop` | components/esp32_ble_tracker/esp32_ble_tracker.cpp:27-71 | One pass empties the queue in order, leaves no payload allocated, leaves nothing held past the timeout, and starts a continuous scan again |
| `Tracker.ESP32BLETracker.StopScan` | components/esp32_ble_tracker/esp32_ble_tracker.cpp:112-122 | Stopping a running scan releases what is held at once, each advertisement once, and leaves the queue as it is |
| `Tracker.EveryReportIsRouted` | components/esp32_ble_tracker/esp32_ble_tracker.cpp:44-60 | Every report goes either to the merger or to the dispatcher |
| `AdvParser.ESPBTDevice.ParseAdv` | components/ble_device_base/ble_device.cpp:458-570 | The walk applies exactly the structures of the payload, in order, and reads nothing past it |
| `AdvParser.ESPBTDevice.HandleField` | components/ble_device_base/ble_device.cpp:473-568 | Each structure changes the one field its type names |
| `AdvParser.ESPBTDevice.PushUuids` | components/ble_device_base/ble_device.cpp:502-524 | The 8-bit list loops read every whole UUID and cannot wrap |
| `AdvParser.ESPBTDevice.FromScanResult` | components/ble_device_base/ble_device.cpp:347-363 | A device used again shows the new report only, its address turned round |
| `AdvParser.SplitEncode` | components/ble_device_base/ble_device.cpp:461-471 | Any sequence of structures with zero padding between them is split into exactly those structures |
| `AdvParser.EveryPayload` | components/ble_device_base/ble_device.cpp:458-471 | Every payload is structures and padding, and then nothing or a structure that runs past the end; it is split into those structures alone |
| `AdvParser.SplitConcat` | components/ble_device_base/ble_device.cpp:461-471 | A well-formed payload can be followed by anything |
| `AdvParser.SplitTail` | components/ble_device_base/ble_device.cpp:461-471 | What follows a payload is split together with what the payload left over |
| `AdvParser.MergedFrameExact` | components/ble_device_base/scan_response_merger.cpp:66-76 | Within the sizes of legacy advertising, an advertisement's merged frames parse as the advertisement and then the response, for every response and device, if and only if the advertisement is well-formed |
| `AdvParser.MergedFrameParsesAsBoth` | components/ble_device_base/scan_response_merger.cpp:66-76 | Parsing a merged frame is parsing the advertisement and then its response into the same device |
| `AdvParser.LongestNameWins` | components/ble_device_base/ble_device.cpp:479-490 | The name kept is the longest seen, from whichever structure, and never longer than the buffer |
| `AdvParser.UuidListEncode` | components/ble_device_base/ble_device.cpp:502-524 | A list of UUIDs of one width survives encoding and parsing |
| `AdvParser.UuidListTail` | components/ble_device_base/ble_device.cpp:502-524 | Octets behind the last whole UUID of a list are ignored |
| `AdvParser.ParseWritten` | components/ble_device_base/ble_device.cpp:458-568 | Any payload of structures written by the assigned numbers, with zero octets between them, shows exactly what was said: each item in the one field of its type, names by length, negative powers, both list kinds; a type without an assigned number shows nothing |
| `AdvParser.FieldsRoundTrip` | components/ble_device_base/ble_device.cpp:458-568 | Every set of fields a device can show is read back from the payload that says it |
| `AdvParser.WrongLengths` | components/ble_device_base/ble_device.cpp:473-568 | A structure too short for its format changes nothing, and one of a fixed format is read from its first octets |
| `Uuid.EqualIsExpansionEquality` | components/ble_device_base/ble_device.cpp:240-264 | Comparison across widths is equality of the 128-bit expansions; unset equals only unset |
| `Uuid.EqualIsEquivalence` | components/ble_device_base/ble_device.cpp:240-264 | Comparison is an equivalence relation |
| `Uuid.As128Bit` | components/ble_device_base/ble_device.cpp:151-158 | Widening does not change what a UUID equals |
| `Uuid.WirePackedIsExpansion` | components/bluetooth_connection/bluetooth_connection.h:106-122 | The two wire words are the two halves of the expansion, also for the short forms built from constants |
| `Uuid.WireAgreesWithEqual` | components/bluetooth_connection/bluetooth_connection.h:106-122 | Two set UUIDs look the same on the wire exactly when they compare equal |
| `Uuid.WireRoundTrip` | components/bluetooth_connection/bluetooth_connection.h:124-137 | Whichever form the client is sent, long or short, it reads a UUID that compares equal to the one on the device |
| `Uuid.ToDashed` | components/ble_device_base/ble_device.cpp:208-219 | Dashes stand where the form has them and the digits read back as the octets |
| `Uuid.DigitReads` | components/ble_device_base/ble_device.cpp:88-95 | A letter reads as the same digit in upper and in lower case, and sixteen of the characters as the sixteen digits |
| `Uuid.FromDashed` | components/ble_device_base/ble_device.cpp:82-96 | Which octet of 36 characters lands where, and exactly when parsing them would leave the text or the sixteen octets; dashed text never does |
| `Uuid.InsideExact` | components/ble_device_base/ble_device.cpp:82-96 | Parsing stays inside the buffers if and only if at least four octets have a dash in front and the text ends with an octet |
| `Uuid.DashedIsInside` | components/ble_device_base/ble_device.cpp:82-96 | Text with its dashes at the four places is read octet by octet |
| `Uuid.PrintThenParse` | components/ble_device_base/ble_device.cpp:61-101 | Printing a 128-bit UUID and parsing the text gives the same UUID |
| `Address.MacLsbFirstToUint64` | components/ble_device_base/ble_device.h:164-169 | The number of a device is its octets in positional weight, below 2^48 |
| `Address.AddressUint64` | components/ble_device_base/ble_device.cpp:427-433 | The number read off the printable order is the same one |
| `Address.ReversedAt` | components/ble_device_base/ble_device.cpp:427-433 | Turning an address round puts octet k where octet 5 - k was |
| `Address.Uint64ToMacMsbFirst` | components/ble_device_base/ble_device.h:173-176 | Unpacking gives the octets in printable order |
| `Address.Uint64ToMacLsbFirst` | components/nimble_ble/nimble_gattc.cpp:26-29 | Unpacking gives the octets in controller order |
| `Address.AddressNamesDevice` | components/ble_device_base/ble_device.h:160-176 | Two devices share a number only if they are the same, and unpacking gives the device back |
| `Address.EveryAddressIsSomeDevice` | components/ble_device_base/ble_device.h:173-176 | Every 48-bit number a client may ask for unpacks to a device that has it |
| `Address.ReportThenConnect` | components/nimble_ble/nimble_gattc.cpp:200-206 | A device reported by its number and asked for by it is the device connected to |
| `ConnectionFsm.BleConnectionFsm.HandleEvent` | components/nimble_ble/ble_connection_fsm.cpp:77-159 | The generated switch does on every state and event what the listed transitions say, and answers whether one matched |
| `ConnectionFsm.BleConnectionFsm.PollTimeout` | components/nimble_ble/ble_connection_fsm.cpp:161-167 | A poll times out the state it is in, or changes nothing, and answers which |
| `ConnectionFsm.BleConnectionFsm.Enter_` | components/nimble_ble/ble_connection_fsm.cpp:64-75 | Entering a state sets its deadline and steps or clears the failure counter at its 16 bits |
| `ConnectionFsm.AtMostOneLine` | spec/transitions.json:34-107 | No event has two transitions out of one state |
| `ConnectionFsm.FailuresBackOff` | components/nimble_ble/ble_connection_fsm.cpp:77-159 | A failed connect, a timeout, a dropped pairing, or a link lost while Discovering or Ready enters Backoff with one failure more and no deadline |
| `ConnectionFsm.OnlyFailuresBackOff` | spec/transitions.json:34-107 | Nothing else enters Backoff |
| `ConnectionFsm.EnteredExactly` | components/nimble_ble/ble_connection_fsm.cpp:64-159 | By which event, from which state and with what deadline and counter every other state is entered, and that any other event changes nothing |
| `ConnectionFsm.IdleEntered` | spec/transitions.json:34-107 | On every run Idle is entered only from Scanning, Disconnecting or Backoff, and a lost link leads there only from a teardown |
| `ConnectionFsm.ReadyLeft` | spec/transitions.json:82-91 | On every run Ready is left only for Backoff, when the link is lost, or for Disconnecting, when that is asked for |
| `ConnectionFsm.FromConnecting` | spec/transitions.json:52-66 | Which transition each event takes out of Connecting |
| `ConnectionFsm.FromDiscovering` | spec/transitions.json:67-81 | Which transition each event takes out of Discovering |
| `ConnectionFsm.BoundedWait` | spec/transitions.json:109-112 | From a connect request taken in Idle, polled at least every d ms, and whatever events come, the machine is in Ready or Backoff or has been within 13000 + 2 d ms, whenever no poll can skip over a deadline at the wrap of the clock |
| `ConnectionFsm.BoundedWaitExact` | spec/transitions.json:109-112 | That condition is exact: every run keeps the bound if and only if the 32-bit clock does not read 0 within d ms of a deadline the attempt may have |
| `ConnectionFsm.WaitsForEver` | components/nimble_ble/ble_connection_fsm.cpp:161-163 | An attempt begun exactly 5000 ms before the wrap has a deadline that reads as none: no poll ever ends it |
| `ConnectionFsm.StillWaiting` | components/nimble_ble/ble_connection_fsm.cpp:161-167 | Until then it waits under a live deadline that the last poll had not reached |
| `ConnectionFsm.TimeoutExact` | components/nimble_ble/ble_connection_fsm.cpp:161-163 | The comparison is not wrap-safe: polls over a wait and some slack time out when they should, and not before, if and only if the 32-bit clock does not wrap in that span |
| `ConnectionFsm.PollTimesOut` | components/nimble_ble/ble_connection_fsm.cpp:161-167 | A poll moves to Backoff exactly when it times the wait out |
| `ConnectionFsm.CounterCountsFailures` | components/nimble_ble/ble_connection_fsm.cpp:64-69 | On every run the counter is the number of Backoff entries since the last Ready, modulo 2^16 |
| `ConnectBackoff.BaseIsCurve` | components/nimble_ble/connect_backoff.cpp:10-16 | The base delay is the documented curve exactly up to 256 failures, and beyond them in all but the first four of every 256; the cast to eight bits precedes the cap |
| `ConnectBackoff.DelayRange` | components/nimble_ble/connect_backoff.cpp:5-22 | For every count the delay lies between 4 and 72 seconds |
| `ConnectBackoff.DelayNearCurve` | components/nimble_ble/connect_backoff.cpp:5-22 | Up to 256 failures the delay is within 20 percent of the curve |
| `ConnectBackoff.DelayIsPercentage` | components/nimble_ble/connect_backoff.cpp:5-22 | Exactly: the delay is the curve in one of the 41 whole percentages from 80 to 120, and the random number modulo 41 says which |
| `ConnectBackoff.DelayMonotone` | components/nimble_ble/connect_backoff.cpp:5-22 | At fixed jitter more failures, up to 256, never shorten the delay |
| `ConnectBackoff.JitterBound` | components/nimble_ble/connect_backoff.cpp:18-21 | The jitter moves a delay by at most a fifth, and the products fit signed 32-bit arithmetic |
| `ConnectBackoff.BLEClientBase.Loop` | components/esp32_ble_client/ble_client_base.cpp:21-43 | When the loop reconnects and what it latches, with reconnecting switched on or off |
| `ConnectBackoff.NeverEarly` | components/esp32_ble_client/ble_client_base.cpp:21-43 | On every run of the loop a reconnect comes no sooner than the delay latched in that stay in Backoff, in true time, through any number of clock wraps |
| `ConnectBackoff.InTime` | components/esp32_ble_client/ble_client_base.cpp:21-43 | And within a turn of the clock no later: a call reconnects if and only if the delay latched in this stay has passed |
| `ConnectBackoff.LatchesWhenBackingOff` | components/esp32_ble_client/ble_client_base.cpp:21-43 | A call in Backoff with no delay latched latches one, and leaving Backoff drops it |
| `Tarjan.TarjanSccs` | tools/gen_state_machine/check_reachability.py:67-120 | For every graph the iterative search ends and returns exactly the strongly connected components, each node in one, and no edge leading from a component to a later one |
| `Tarjan.BuildAdjacency` | tools/gen_state_machine/check_reachability.py:70-73 | The successor lists hold the edges between known nodes, in order |
| `Tarjan.Search.constructor` | tools/gen_state_machine/check_reachability.py:75-80 | An empty search satisfies the invariant |
| `Tarjan.Search.Visit` | tools/gen_state_machine/check_reachability.py:86-89 | A fresh node is numbered and put on both stacks |
| `Tarjan.Search.ScanEdges` | tools/gen_state_machine/check_reachability.py:92-106 | Running the top iterator keeps the invariant and either enters a new node or exhausts it |
| `Tarjan.Search.Leave` | tools/gen_state_machine/check_reachability.py:107-119 | Leaving a finished node keeps the invariant, emitting a component if it roots one |
| `Tarjan.Search.PopDownTo` | tools/gen_state_machine/check_reachability.py:112-118 | The stack is popped down to and including the root, and only those flags are cleared |
| `Tarjan.EnterKeepsInv` | tools/gen_state_machine/check_reachability.py:95-102 | Entering an unvisited node keeps every clause of the invariant |
| `Tarjan.RevisitKeepsInv` | tools/gen_state_machine/check_reachability.py:103-104 | Following an edge to a visited node keeps low links sound and complete |
| `Tarjan.KeepKeepsInv` | tools/gen_state_machine/check_reachability.py:107-111 | Handing the low link to the parent keeps the invariant |
| `Tarjan.ReleaseComponent` | tools/gen_state_machine/check_reachability.py:111-119 | What is popped when low link and index agree is a strongly connected component |
| `Tarjan.ReleaseKeepsInv` | tools/gen_state_machine/check_reachability.py:111-119 | Emitting it keeps the invariant |
| `Tarjan.SearchComplete` | tools/gen_state_machine/check_reachability.py:82-120 | With no work left and every node numbered, the emitted components are all of them |
| `Verdict.Check` | tools/gen_state_machine/check_reachability.py:123-151 | The exit code is 1 exactly when some deadline state lies on a cycle confined to deadline states and every node mutually reachable with it is a deadline state |
| `Verdict.IsConfined` | tools/gen_state_machine/check_reachability.py:131-141 | The test of one component |
| `Verdict.ComponentVerdict` | tools/gen_state_machine/check_reachability.py:131-141 | That test is a fact about each of the component's nodes |
| `Verdict.CondensationVerdict` | tools/gen_state_machine/check_reachability.py:123-151 | Some component is confined exactly when some node is trapped |
| `Verdict.CyclicIsOnCycle` | tools/gen_state_machine/check_reachability.py:132-138 | The cycle test of the script is exact |
| `Verdict.ConfinedCycleCanPass` | tools/gen_state_machine/check_reachability.py:1-12 | A counterexample to the header: a confined cycle inside a larger component passes |

## Left out

- NimBLE, FreeRTOS, ESP-IDF, the API socket and protobuf: the size of a service on the wire is an arbitrary function, sending a frame an arbitrary answer.
- The 62-octet slot buffers and the vectors of the discovery table are sequences, not raw memory; copying in place inside them is not modelled.
- Events lost from the GATT event queue: the walk is modelled with every queued event handled in order, at any pace.
- The engine's connect outcome guard and its use of the state machine outside the walk: outcomes of connect attempts that race each other are not exactly-once in the code, and a cached connection stays in Discovering, so the bounded wait is stated for the machine alone.
- A link that drops in the middle of a discovery walk: the walk is modelled on a standing connection.
- The two sides of a freed slot are separate models: the connection class says which notice it issues and whether it lands at some time, the proxy class what becomes of a notice.
- Pairing replies, read and notify payloads, connection parameters and scanner-state messages: sent once, nothing owed.
- The advertisement batch and the connections-free resend flag: idempotent resends with no property beyond their bodies.
- The 4, 8 and 16 character forms of UUID text: they rest on a hex parser that is not part of this model.
- Resolvable private addresses and iBeacon frames: single expressions over the cipher and the parser.
- The merger before it is bound to a dispatcher, when it drops what it would deliver.
- Listener callbacks during delivery: none re-enters the merger or the proxy.
- The GATT server, the controller wrapper, code generation, configuration, logging and automations.
- Ccm.AesCcmAuthDecrypt: does not cover nonces of 7 to 10 octets, for which the code's shifts are undefined.
