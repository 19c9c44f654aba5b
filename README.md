# Standalone gateway transport for MySensors, in Dafny

This project models `MyGatewayTransportStandalone.cpp` from the M5Stack
standalone-gateway example of the MySensors Arduino examples. The "transport"
is the gateway's own controller. It does not forward internal control messages
to a controller. It answers them itself:

- **Node-ID allocator.** One EEPROM byte holds the last node ID issued. The
  erased value 0xFF reads as 0, and each new ID is the last one plus 1.
- **Inclusion window.** A flag and a start time. While the window is open, the
  ID it issued is cached in `nextNodeId`, and 255 means nothing is cached.
- **Ingestion.** Each message increments a 16-bit counter and records the last
  command, sender, sensor, type and payload byte. It then updates the sender's
  slot in a 255-slot node table. A temperature report (sensor 1, type V_TEMP)
  writes `temp`. A battery report (sensor 201, type V_VOLTAGE) writes
  `voltage`. Every message writes `time`.
- **Response handler.** While the window is open, the availability check
  answers the last internal command. It handles registration, ID request,
  find-parent, discover, ping and config. The reply goes back to the sender,
  and the command is marked handled.

Layout:

- `protocol.dfy` (module `Protocol`): the machine integer types, the MySensors
  constants, and the message, response and node-slot records.
- `allocator.dfy` (module `Allocator`): `getLastNodeId` and `getnextNodeId` as
  functions of the EEPROM byte.
- `transport_spec.dfy` (module `TransportSpec`): all the globals as one
  `State` value, with each entry point as a function from the old state to the
  new one.
- `gateway.dfy` (module `Gateway`): class `StandaloneTransport`. Its fields are
  the globals, and the node table is an `array` of 255 slots. The methods that
  change the globals (`ResetTransport`, `SetTransportInclusion`,
  `GatewayTransportReceived`, `GatewayTransportSend`, `GatewayTransportInit`,
  `GatewayTransportAvailable`) update the fields in place and are proved to
  match their `TransportSpec` function through `View()`. `GetLastNodeId` and
  `GetNextNodeId` are proved against the `Allocator` functions of the EEPROM
  byte. `GetTransportInclusionTimeout` and `GetNodeState` are functions of the
  fields, equal to `InclusionTimedOut` and to a slot of `View()`.
  `GatewayTransportReceive` returns the response buffer, which is the
  `response` field of the state the last `Available` left.
- `transport_properties.dfy` (module `TransportProperties`): properties that
  span several calls.
- `corrections.dfy` (module `Corrections`): the ID path with the defects
  below corrected, and what the corrections achieve.

The accessors `getMessageCounter`, `getLastMessageSender`,
`getLastMessageSensor`, `getLastMessageType` and `getTransportInclusion` only
read a global. In the model they are the class fields `messageCounter`,
`lastMessageSender`, `lastMessageSensor`, `lastMessageType` and `inclusion`.

The constant values come from the MySensors core headers, which are not part
of this model:

| constant | value |
|---|---|
| `C_INTERNAL` | 3 |
| `C_INVALID_7` | 7 |
| `I_ID_REQUEST` / `I_ID_RESPONSE` | 3 / 4 |
| `I_CONFIG` | 6 |
| `I_FIND_PARENT_REQUEST` / `I_FIND_PARENT_RESPONSE` | 7 / 8 |
| `I_DISCOVER_REQUEST` / `I_DISCOVER_RESPONSE` | 20 / 21 |
| `I_PING` / `I_PONG` | 24 / 25 |
| `I_REGISTRATION_REQUEST` / `I_REGISTRATION_RESPONSE` | 26 / 27 |
| `V_TEMP` | 0 |
| `V_VOLTAGE` | 38 |
| `AUTO` | 255 |
| the gateway's own node ID | 0 |

Three facts about the code, each easy to assume otherwise:

- Opening the window keeps the cached ID. Only `setTransportInclusion(false)`
  clears it (`SetInclusion`).
- `getnextNodeId` never returns 0. From a last issued ID of 254 it returns
  and persists 255 (`NextNodeId`).
- After `resetTransport`, an ID request gets 1 only if no ID is cached.
  Opening the window does not drop a cached ID; only closing it does
  (`ResetIssuesOneUnlessCached`, `ResetWindowScenario`, `CachedIdIsReissued`).

The model brings out three defects in the code. Each is listed under Findings
below, with the code as written and a corrected definition:

- The init loop writes slot 255 of the 255-slot table.
- The ID path cannot handle ID 255. `getnextNodeId` can return 255, which is
  also the "nothing cached" value of `nextNodeId`. The window then hands out the
  reserved ID 255 and does not cache it. The next request in the same window
  gets ID 1 again (`IssuingIdErasedValueBreaksCache`). The check for an ID of
  0 next to the call shows that 0 was meant to mean that no ID is free, but
  that check can never fail (`IdRequestAnswer`). The corrected allocator
  `NextNodeIdIntended` returns 0 and saves nothing once IDs run out. With it,
  an ID reply never carries 255, and every ID request in one window gets the
  same answer (`IntendedOneIdPerWindow`).
- Every ingested message writes the sender's slot. A node without an ID yet
  sends as AUTO (255), so its messages write `nodeStates[255]`, past the table.
  That includes the ID request that starts its inclusion. The corrected
  ingestion `ReceivedGuarded` leaves the table alone for such a sender. A new
  node's ID request is then answered, addressed to AUTO (`NewNodeGetsId`).

The class in `gateway.dfy` follows the code, with two exceptions. Its init
loop clears only slots 0..254, the corrected half of the first Findings row.
Its ingestion (`GatewayTransportReceived`, `GatewayTransportSend`) and
`GetNodeState` require a node ID below 255, which the code does not check; the
third Findings row covers sender 255. The other corrections are in
`corrections.dfy` (module `Corrections`) and in `Allocator.NextNodeIdIntended`;
the class keeps the allocator as written.

## Model

| member | source | states |
|---|---|---|
| `Allocator.LastNodeId` | examples/GatewayM5StackStandalone/lib/MyGatewayTransportStandalone.cpp:70-77 | The erased byte 0xFF reads as 0, and any other byte reads as itself. So the result is never 0xFF. |
| `Allocator.NextNodeId` | examples/GatewayM5StackStandalone/lib/MyGatewayTransportStandalone.cpp:79-88 | The new ID is the last issued ID plus 1, so it is never 0. The stored byte becomes that ID. |
| `Allocator.ResetThenNextIsOne` | examples/GatewayM5StackStandalone/lib/MyGatewayTransportStandalone.cpp:90-93 | After the stored byte is reset to 0, the next ID is 1 and 1 is persisted. |
| `Allocator.SuccessiveIdsIncrease` | examples/GatewayM5StackStandalone/lib/MyGatewayTransportStandalone.cpp:79-88 | Two calls in a row return consecutive IDs while the first ID is below 255. |
| `Allocator.IssuingErasedValueRestarts` | examples/GatewayM5StackStandalone/lib/MyGatewayTransportStandalone.cpp:79-88 | From 254 the allocator issues 255 and stores the erased value. The call after that issues 1 again. |
| `TransportSpec.PowerOn` | examples/GatewayM5StackStandalone/lib/MyGatewayTransportStandalone.cpp:29-43 | After static initialisation the window is closed and nothing is cached. The counter is 0, and the EEPROM byte is whatever it held. |
| `TransportSpec.SetInclusion` | examples/GatewayM5StackStandalone/lib/MyGatewayTransportStandalone.cpp:95-104 | Sets the flag and the start time to now. Closing drops the cached ID. Opening keeps it. Nothing else changes. |
| `TransportSpec.Reset` | examples/GatewayM5StackStandalone/lib/MyGatewayTransportStandalone.cpp:90-93 | Only the stored byte changes. It becomes 0, so the next allocated ID is 1. |
| `TransportSpec.Received` | examples/GatewayM5StackStandalone/lib/MyGatewayTransportStandalone.cpp:116-138 | The counter goes up by 1 mod 2^16, and the header fields are recorded. `temp` changes only for (1, V_TEMP) and `voltage` only for (201, V_VOLTAGE). `time` becomes now. No other slot or field changes. |
| `TransportSpec.NewNodeMessageIndexesPastTable` | examples/GatewayM5StackStandalone/lib/MyGatewayTransportStandalone.cpp:134 | For a message from a node with no ID (sender AUTO), the index that line 134 writes, the sender, lies outside the table's slots `0..|nodes|-1`, so the message cannot meet `Received`'s precondition. |
| `TransportSpec.Init` | examples/GatewayM5StackStandalone/lib/MyGatewayTransportStandalone.cpp:147-162 | Closes the window and restarts its clock. All 255 slots become (INVALID_F, INVALID_F, 0), and nothing else changes. |
| `TransportSpec.InitLoopVisitsRange` | examples/GatewayM5StackStandalone/lib/MyGatewayTransportStandalone.cpp:154-160 | The loop as written visits 0, 1, …, 255 in order: 256 indices. |
| `TransportSpec.InitLoopWritesPastTable` | examples/GatewayM5StackStandalone/lib/MyGatewayTransportStandalone.cpp:154-160 | The loop as written visits index 255, which is outside the 255-slot table. |
| `TransportSpec.Available` | examples/GatewayM5StackStandalone/lib/MyGatewayTransportStandalone.cpp:164-211 | No response and no change unless the last command is C_INTERNAL and the window is open. Otherwise the command becomes C_INVALID_7, and the reply is C_INTERNAL from the gateway to the last sender. The result is true exactly for the six handled subtypes. Only an ID request touches the cache and the EEPROM byte. Only a ping touches the payload byte. |
| `Gateway.StandaloneTransport.constructor` | examples/GatewayM5StackStandalone/lib/MyGatewayTransportStandalone.cpp:29-43 | The fields start as `TransportSpec.PowerOn` describes, with a fresh 255-slot table. |
| `Gateway.StandaloneTransport.GetTransportInclusionTimeout` | examples/GatewayM5StackStandalone/lib/MyGatewayTransportStandalone.cpp:65-68 | Equals `TransportSpec.InclusionTimedOut` of the current state: the 32-bit wrapping time from the window start to now exceeds the duration. The timeout lemmas below apply to it. |
| `Gateway.StandaloneTransport.GetLastNodeId` | examples/GatewayM5StackStandalone/lib/MyGatewayTransportStandalone.cpp:70-77 | Returns `LastNodeId` of the stored byte, which is never 0xFF, and changes nothing. |
| `Gateway.StandaloneTransport.GetNextNodeId` | examples/GatewayM5StackStandalone/lib/MyGatewayTransportStandalone.cpp:79-88 | Returns the ID `NextNodeId` gives, which is at least 1, and leaves that ID in the EEPROM byte. |
| `Gateway.StandaloneTransport.ResetTransport` | examples/GatewayM5StackStandalone/lib/MyGatewayTransportStandalone.cpp:90-93 | The state becomes `TransportSpec.Reset` of the old state. |
| `Gateway.StandaloneTransport.SetTransportInclusion` | examples/GatewayM5StackStandalone/lib/MyGatewayTransportStandalone.cpp:95-104 | The state becomes `SetInclusion` of the old state, and inclusionModeSet is logged. |
| `Gateway.StandaloneTransport.GetNodeState` | examples/GatewayM5StackStandalone/lib/MyGatewayTransportStandalone.cpp:111-114 | Returns the slot of a node ID below 255. |
| `Gateway.StandaloneTransport.GatewayTransportReceived` | examples/GatewayM5StackStandalone/lib/MyGatewayTransportStandalone.cpp:116-138 | Updates the table in place. The state becomes `Received` of the old state, and `received(sender)` is logged. |
| `Gateway.StandaloneTransport.GatewayTransportSend` | examples/GatewayM5StackStandalone/lib/MyGatewayTransportStandalone.cpp:140-145 | Has the same effect as ingestion, then logs the TX indication and returns true. |
| `Gateway.StandaloneTransport.GatewayTransportInit` | examples/GatewayM5StackStandalone/lib/MyGatewayTransportStandalone.cpp:147-162 | A loop over slots 0..254 only, leaving the state as `Init` describes. Logs inclusionInit and inclusionModeSet(false), then returns true. |
| `Gateway.StandaloneTransport.GatewayTransportAvailable` | examples/GatewayM5StackStandalone/lib/MyGatewayTransportStandalone.cpp:164-211 | The result and the new state are those `Available` gives for the old state. The RX indication is logged exactly when a registration request is answered. |
| `Gateway.StandaloneTransport.GatewayTransportReceive` | examples/GatewayM5StackStandalone/lib/MyGatewayTransportStandalone.cpp:213-216 | Returns the response buffer as the last availability check left it, which may be stale. |
| `TransportProperties.NotTimedOutWhenSet` | examples/GatewayM5StackStandalone/lib/MyGatewayTransportStandalone.cpp:65-68 | Right after the window is opened or closed, it has not timed out, for any duration. |
| `TransportProperties.TimedOutIffElapsedExceeds` | examples/GatewayM5StackStandalone/lib/MyGatewayTransportStandalone.cpp:65-68 | When fewer than 2^32 ms have passed, even across a clock wrap, the window has timed out exactly when more than the duration has passed. |
| `TransportProperties.ClosedWindowNeverAnswers` | examples/GatewayM5StackStandalone/lib/MyGatewayTransportStandalone.cpp:167 | With the window closed, ingesting any message and then polling gives no response. The poll changes nothing. |
| `TransportProperties.SecondPollIsQuiet` | examples/GatewayM5StackStandalone/lib/MyGatewayTransportStandalone.cpp:205-210 | A second poll without a new message returns false and changes nothing. |
| `TransportProperties.FixedReplies` | examples/GatewayM5StackStandalone/lib/MyGatewayTransportStandalone.cpp:176-204 | A registration request gets a registration response with payload true. Find-parent, discover and config requests get their response with payload 0. Each goes back to the sender. |
| `TransportProperties.PingEchoesAndCounts` | examples/GatewayM5StackStandalone/lib/MyGatewayTransportStandalone.cpp:197-200 | A ping gets a pong that carries the last payload byte. That byte then goes up by 1 mod 256. |
| `TransportProperties.UnknownSubtypeIsConsumed` | examples/GatewayM5StackStandalone/lib/MyGatewayTransportStandalone.cpp:205-208 | Any other subtype gets no response, but it is still marked handled. The buffer is left cleared and addressed to the sender. |
| `TransportProperties.IdRequestAnswer` | examples/GatewayM5StackStandalone/lib/MyGatewayTransportStandalone.cpp:181-188 | An ID request gets an ID response with sensor AUTO. It carries the cached ID, or a new one from the allocator when nothing is cached. Only a new ID touches the EEPROM byte. The payload is always present and never 0. |
| `TransportProperties.CachedIdIsReissued` | examples/GatewayM5StackStandalone/lib/MyGatewayTransportStandalone.cpp:184 | Once an ID is cached, any number of further ID requests in the window get that ID back. The EEPROM byte does not change. |
| `TransportProperties.FirstIdRequestAllocates` | examples/GatewayM5StackStandalone/lib/MyGatewayTransportStandalone.cpp:181-187 | With nothing cached, the first ID request answers with, caches and persists the allocator's next ID. |
| `TransportProperties.OneIdPerWindow` | examples/GatewayM5StackStandalone/lib/MyGatewayTransportStandalone.cpp:181-187 | Repeated ID requests in one window get the same ID, and the EEPROM byte moves once, unless the last issued ID is 254. |
| `TransportProperties.IssuingIdErasedValueBreaksCache` | examples/GatewayM5StackStandalone/lib/MyGatewayTransportStandalone.cpp:184 | With last ID 254, the window hands out 255 and does not cache it. The next request gets 1 again. |
| `TransportProperties.NextWindowIssuesNextId` | examples/GatewayM5StackStandalone/lib/MyGatewayTransportStandalone.cpp:95-104 | Closing and reopening the window makes the next ID request get the following ID. |
| `TransportProperties.ResetIssuesOneUnlessCached` | examples/GatewayM5StackStandalone/lib/MyGatewayTransportStandalone.cpp:79-93 | After a reset with the window open, an ID request is answered with ID 1 when nothing is cached and with the cached ID otherwise, with no close in between. |
| `TransportProperties.ResetWindowScenario` | examples/GatewayM5StackStandalone/lib/MyGatewayTransportStandalone.cpp:164-211 | Reset, then close and open, then an ID request from node 7: the reply is ID 1 to node 7, and a second poll answers nothing. |
| `TransportProperties.ReceivedAllCounts` | examples/GatewayM5StackStandalone/lib/MyGatewayTransportStandalone.cpp:118 | After n ingestions the counter has gone up by n mod 2^16. A node that sent none of the messages keeps its slot. |
| `TransportProperties.TelemetryChannelsAreSeparate` | examples/GatewayM5StackStandalone/lib/MyGatewayTransportStandalone.cpp:126-134 | A voltage report never changes temp, and a temperature report never changes voltage. Every report refreshes time. |
| `TransportProperties.UnreportedNodesReadInvalid` | examples/GatewayM5StackStandalone/lib/MyGatewayTransportStandalone.cpp:154-160 | After init, a node that has not reported reads (INVALID_F, INVALID_F, 0). |
| `Allocator.NextNodeIdIntended` | examples/GatewayM5StackStandalone/lib/MyGatewayTransportStandalone.cpp:79-88 | Corrected allocator: never yields the reserved 255. It yields 0, saving nothing, exactly when the last issued ID is 254. Otherwise it yields last + 1 and saves it. |
| `Allocator.IntendedIdsNeverRestart` | examples/GatewayM5StackStandalone/lib/MyGatewayTransportStandalone.cpp:79-88 | With the corrected allocator, the call after a successful one gives a larger ID or reports that none is free. It never restarts at 1. |
| `Corrections.ReceivedGuarded` | examples/GatewayM5StackStandalone/lib/MyGatewayTransportStandalone.cpp:116-138 | Corrected ingestion. For a sender with a slot it equals `Received`. For sender 255 the table is untouched, while the counter and the header are updated as before. |
| `Corrections.AvailableIntended` | examples/GatewayM5StackStandalone/lib/MyGatewayTransportStandalone.cpp:181-188 | The handler with the corrected allocator. An ID reply goes to the sender with sensor AUTO and carries the cached or new ID, or no payload when none is free. It never carries 255. Every other subtype is answered as `Available` answers it. |
| `Corrections.NewNodeGetsId` | examples/GatewayM5StackStandalone/lib/MyGatewayTransportStandalone.cpp:181-187 | With the corrections, an ID request from a node with no ID gets the next ID, addressed to AUTO, and the table is unchanged. |
| `Corrections.IntendedAnswerIsRepeated` | examples/GatewayM5StackStandalone/lib/MyGatewayTransportStandalone.cpp:184 | With the corrections, by induction, once a window has an answer, any number of further ID requests from any node get it back. The EEPROM byte does not change. |
| `Corrections.IntendedOneIdPerWindow` | examples/GatewayM5StackStandalone/lib/MyGatewayTransportStandalone.cpp:181-187 | With the corrections, for any stored byte, repeated ID requests in one window all get the same answer. That answer is never 255, and the EEPROM byte moves at most once. |
| `Corrections.ExhaustionDropsPayload` | examples/GatewayM5StackStandalone/lib/MyGatewayTransportStandalone.cpp:185-187 | With the corrections and last ID 254, both ID replies carry no payload and the stored byte stays 254. |

## Left out

- `millis()` becomes the parameter `now: u32`, and `delay(100)` in `setTransportInclusion` is left out. In the source at least 100 ms have passed when `setTransportInclusion` returns, so `NotTimedOutWhenSet` holds at the instant `now` of the call and not at its return.
- `loadState` and `saveState` become the byte field `eeprom`. Durability of the real EEPROM is not modelled.
- `inclusionInit`, `inclusionModeSet`, `received`, and `setIndication` with INDICATION_GW_RX and INDICATION_GW_TX are MySensors-core and sketch callbacks. They only appear as entries in the ghost log `events`. The model assumes they never call back into the transport: if the MySensors core's `inclusionModeSet` forwards a message through `gatewayTransportSend`, that nested ingestion is not modelled. The core file that defines it is not part of this model. `getNodeId()` is the gateway's ID, the constant 0.
- Float values are kept as their IEEE-754 bits (`Reading`), and INVALID_F is -1000.0f. The code only copies them and never does arithmetic on them.
- `MyMessage` is reduced to the fields the transport reads and sets. Its serialisation and the payload type tags are not modelled.
- Gateway.StandaloneTransport.GetNodeState: returns the slot by value. The source returns a reference the sketch may write through, and writes through it are not modelled.
- Gateway.StandaloneTransport.GatewayTransportReceived: requires a sender below 255, and so do `GatewayTransportSend`, `TransportSpec.Received` and `GetNodeState`. The source writes `nodeStates[255]` for sender 255, which is past the table, and the model gives that write no meaning. The as-written lemmas about ID requests therefore cover only senders that already have an ID. Messages from AUTO senders are covered by the corrected `Corrections.ReceivedGuarded` (see Findings).
- The build macros in the file's opening comment are not modelled. The header only declares things.

## Findings

| source | as written | input that shows it | evidently intended | confidence | as-written member | corrected member |
|---|---|---|---|---|---|---|
| examples/GatewayM5StackStandalone/lib/MyGatewayTransportStandalone.cpp:154-160 | The `uint8_t` loop runs i = 0..255 and stores into `nodeStates[i]`, but the table has 255 slots. | Any call of `gatewayTransportInit`: the last pass has i = 255. | Clear slots 0..254 only. | high, not executed | `TransportSpec.InitLoopWritesPastTable` | `Gateway.StandaloneTransport.GatewayTransportInit` |
| examples/GatewayM5StackStandalone/lib/MyGatewayTransportStandalone.cpp:79-88 | From a stored byte of 254, `getnextNodeId` returns and saves 255. That is the reserved ID, and it is also the "nothing cached" value of `nextNodeId` (line 184). The next request re-reads 255 as 0 and hands out 1 again. | Stored byte 254, window open, nothing cached, and two ID requests: the answers are 255, then 1. | Return 0 when no ID is free and save nothing, so the existing check for 0 at line 185 drops the payload. | high, not executed | `TransportProperties.IssuingIdErasedValueBreaksCache` | `Allocator.NextNodeIdIntended` |
| examples/GatewayM5StackStandalone/lib/MyGatewayTransportStandalone.cpp:134 | Every ingested message writes `nodeStates[lastMessageSender].time`, including one from sender 255, one past the 255-slot table. | Any message with sender 255 (AUTO), such as the first ID request of a node that has no ID yet. | Leave the table alone for a sender that has no slot. | medium, not executed | `TransportSpec.NewNodeMessageIndexesPastTable` | `Corrections.ReceivedGuarded` |
