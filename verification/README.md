# Vending dispense orchestration — a Dafny model

This project models the dispense-orchestration engine of the vending machine
backend (`backend/mqtt.js`). The engine has four parts:

- **Shelf health monitor.** It keeps an online flag and a last-heartbeat time for shelves 1–5.
  - A heartbeat sets its shelf online.
  - A periodic sweep takes a shelf offline once its heartbeat is more than 30000 ms old.
  - A transport close takes every shelf offline.
  - `getEsp32Status` reports whether any shelf is online.
- **Order partitioner** (`sendOrderMQTT`).
  - Each product id is routed to one of five shelves through a fixed range table. Ids outside the table are dropped.
  - Each routed product becomes an `"id,quantity"` item string.
  - The non-empty batches are queued in descending shelf order.
  - An order in which nothing routes is rejected with "No valid items to process".
- **Dispense session** (`processNextShelf`, `processNextItem` and the response branch of the message handler). It walks the batches and their items one at a time.
  - An item of an offline shelf is reported `Disconnected`.
  - An item of an online shelf is published to `vending/shelf/<shelf>` and reported `Dispensing`. The session then waits for a response from that shelf or for the 15 s deadline.
  - A response reports `Dispensed` (payload exactly `success`) or `Failed`. A deadline reports `Failed`.
  - When the queue is empty, the session emits `orderComplete` and resolves the order's promise with `{success: true}`.
- **Status events.** These are the `orderStatus` / `orderComplete` JSON messages pushed to every client.

The model is a pure state machine.

- `Session.Machine` is an immutable record. It holds:
  - shelf health;
  - the batch queue;
  - the current shelf and its remaining items;
  - the deadline timer;
  - whether a promise is waiting;
  - three logs: status events, published commands and order results.
- `Session.Step` handles one input: `Heartbeat(shelf, now)`, `SweepTick(now)`, `TransportClosed`, `Response(shelf, payload)` or `TimerFired`.
- `Session.Submit` handles an order.
- Time is a `nat` argument. The timer is a flag, and the flag records the item id its callback captured.
- Batch items are kept as `"id,quantity"` strings, as the source does. Integers are written in plain decimal, which is what a template literal produces below 10^21. Event ids are read back from the strings with a model of `parseInt(item.split(",")[0])`.

The main proof compares the session with a reference definition. `Session.Pending` flattens the current items and the queued batches into a work list. `processNextItem` does the following to that list:

- it reports a `Disconnected` event for each leading job whose shelf is offline;
- it then publishes the first online job and reports it `Dispensing`;
- if no job's shelf is online, it completes the order instead.

On top of that comparison the project proves the following:

- a reachable-state invariant under which at most one command is ever outstanding;
- what every input does;
- that an order completes at most once, and exactly once if it drains;
- that deadline expiries alone drain any order.

Files: `wrappers.dfy` (Option), `decimal.dfy` (integer text and `parseInt`),
`item_codec.dfy` (item strings), `health.dfy`, `partition.dfy`,
`session.dfy`, `session_properties.dfy`, `scenario.dfy` (a worked order).

## Model

| member | source | states |
|---|---|---|
| Decimal.ParseInt | backend/mqtt.js:169 | `parseInt` yields a number iff the text starts with a digit, or with one sign followed by a digit; otherwise NaN. A negative result only comes from a leading `-`, and a leading `-` never yields a positive result. |
| Decimal.IntToString | backend/mqtt.js:101-105 | The text `${n}` writes for an integer is non-empty, starts with `-` exactly for negatives, and never contains a comma, so it fits a comma-separated field. |
| Decimal.ParseIntOfIntToString | backend/mqtt.js:169 | `parseInt` applied to the plain decimal text of an integer gives back that integer. A template literal writes that text for integers below 10^21 in magnitude. |
| ItemCodec.Encode | backend/mqtt.js:101-105 | The item string `${id},${quantity}` splits at its first comma into exactly the id's text and the quantity's text. |
| ItemCodec.ItemId | backend/mqtt.js:160-169 | For an item string without a comma, the reported id is `parseInt` of the whole string. |
| ItemCodec.ItemIdOfFields | backend/mqtt.js:160-169 | The reported id is `parseInt` of the text before the first comma; whatever follows that comma never changes it. |
| ItemCodec.FirstField | backend/mqtt.js:160 | `split(",")[0]` returns the prefix of the string before its first comma. The prefix contains no comma and is followed by a comma or by the end of the string. |
| ItemCodec.ItemIdOfEncode | backend/mqtt.js:160-169 | Reading the id back from an `"id,quantity"` item string gives the product id it was built from. Events therefore carry the routed product's id. |
| Health.SweepFrom | backend/mqtt.js:22-26 | The sweep loop keeps every heartbeat stamp. It leaves earlier shelves untouched. From the given shelf on, each flag becomes "was online and not stale". |
| Health.Sweep | backend/mqtt.js:20-27 | After a sweep at `now`, a shelf is online iff it was online and its last heartbeat is at most 30000 ms old. Stamps are kept. |
| Health.MarkOfflineFrom | backend/mqtt.js:49 | The close loop clears every flag from the given shelf on and keeps all stamps. |
| Health.TransportClosed | backend/mqtt.js:47-50 | After the transport closes, no shelf 1–5 is online and every heartbeat stamp is unchanged. |
| Health.SomeOnlineFrom | backend/mqtt.js:207 | The `some` scan from index i is true iff some entry at i or later is online. |
| Health.AnyOnline | backend/mqtt.js:206-208 | `getEsp32Status` is true iff some shelf 1–5 is online. |
| Health.RecordHeartbeat | backend/mqtt.js:54-62 | A heartbeat from shelf 1–5 sets exactly that shelf online and stamps it `now`. Other shelves keep flag and stamp. A heartbeat from any other shelf number changes nothing. |
| Health.HeartbeatMarksOnline | backend/mqtt.js:20-62 | After a heartbeat from shelf 1–5 the link is healthy. A later sweep keeps that shelf online exactly while the heartbeat is at most 30000 ms old. |
| Health.SweepOnlyClears | backend/mqtt.js:22-26 | The sweep never brings a shelf online. |
| Health.SweepLeavesOnlyFresh | backend/mqtt.js:23-24 | Right after a sweep, every online shelf has a heartbeat at most 30000 ms old. |
| Health.SweepIdempotent | backend/mqtt.js:20-27 | Two sweeps at the same time equal one. |
| Health.ClosedMeansNoShelfOnline | backend/mqtt.js:47-50 | After transport closure the link-health query is false. |
| Partition.RouteOf | backend/mqtt.js:101-105 | The routing chain picks a shelf in 1–5, and drops an id iff it lies outside 1..32. |
| Partition.RouteOfMatchesTable | backend/mqtt.js:101-105 | The routing chain sends an id to shelf s iff s's range (1–4, 5–8, 9–16, 17–24, 25–32) holds it. |
| Partition.RangesPartitionIds | backend/mqtt.js:101-105 | The five ranges do not overlap, so an id reaches at most one shelf, and together they cover exactly the ids 1..32. |
| Partition.Distribute | backend/mqtt.js:98-106 | After the `forEach`, the five bucket sizes add up to the number of routable products. `Partition.DistributeIsRoutedTo` states the contents of each bucket. |
| Partition.DistributeIsRoutedTo | backend/mqtt.js:98-106 | After the `forEach`, bucket s holds exactly the `"id,quantity"` strings of the products routed to shelf s, in input order. |
| Partition.BuildQueue | backend/mqtt.js:110-115 | The built queue has strictly descending shelves, and every batch is non-empty and equal to its shelf's bucket. A shelf gets a batch iff its bucket is non-empty. |
| Partition.PlanOrder | backend/mqtt.js:108-120 | A rejection always carries "No valid items to process". An accepted plan has at least one batch, every batch is for a shelf 1–5 and non-empty, and shelves strictly descend. |
| Partition.QueueShape | backend/mqtt.js:96-115 | For an order's queue: shelves strictly descend, and each batch is non-empty and holds its shelf's routed items in input order. A shelf appears iff some product routes to it. |
| Partition.RejectedIffNothingRoutes | backend/mqtt.js:117-120 | An order is rejected iff no product id falls in any range. The reason is then "No valid items to process". |
| Session.NextShelf | backend/mqtt.js:129-150 | Called with no item left in the current batch, as both call sites (lines 125 and 155) do, `processNextShelf` leaves shelf health alone and emits at least one event. It ends either waiting on exactly one new command or with the order completed. Waiting means the head item was published to its online shelf's topic, it was reported `Dispensing` and the timer is armed for it. Completed means the queue is empty, no item waits, the timer is untouched, nothing was published, `orderComplete` came last, and a waiting promise got `{success:true}`. |
| Session.NextItem | backend/mqtt.js:152-204 | `processNextItem` has the same outcome: shelf health untouched, and either one new command awaited on an online shelf or the order completed. |
| Session.CommandTopic | backend/mqtt.js:179 | The topic `vending/shelf/${currentShelf}` starts with `vending/shelf/`, and `parseInt` of the rest gives back the shelf number, so distinct shelves get distinct topics. |
| Session.Conclude | backend/mqtt.js:70-84 | Ending a wait, by a response or by the deadline (lines 196-202), first reports the given status for the given id. Shelf health is untouched and the logs only grow. The timer is armed afterwards exactly when one new command was published, and the run then settles as `processNextItem` does. |
| Session.Step | backend/mqtt.js:47-92 | Every input only appends to the event, publish and result logs. A response or a deadline never changes shelf health. |
| Session.FollowsWhenDrained | backend/mqtt.js:130-141 | With nothing left, `processNextShelf` emits one `orderComplete` and resolves a waiting promise with success. The promise handle is then dropped. |
| Session.FollowsWhenOpening | backend/mqtt.js:144-149 | Opening the next batch changes neither the work list nor the outcome: processing continues from that batch's first item. |
| Session.FollowsWhenOffline | backend/mqtt.js:163-176 | An item of an offline shelf gets exactly one `Disconnected` event with its id. Nothing is published, the item is dropped, and processing continues with the rest. |
| Session.FollowsWhenOnline | backend/mqtt.js:179-203 | An item of an online shelf is published once to `vending/shelf/<shelf>` and reported `Dispensing` once. The timer is armed for it and the session waits. |
| Session.NextItemFollowsWorkList | backend/mqtt.js:129-204 | `processNextItem` reports `Disconnected` for the leading offline jobs. It then either publishes the first online job (one `Dispensing`, timer armed) or completes the order (one `orderComplete`, promise resolved). The jobs left are exactly those from the published one on. |
| SessionProperties.ResponseFromCurrentShelf | backend/mqtt.js:64-84 | A response from the shelf being served reports the head item once: `Dispensed` iff the payload is exactly `"success"`, otherwise `Failed`. The rest of the work list then runs forward. |
| SessionProperties.ResponseFromOtherShelfIgnored | backend/mqtt.js:64-87 | A response from any other shelf, or any response while no item waits, leaves the whole state unchanged. This includes the queue, the items, the timer and every log. |
| SessionProperties.TimeoutFailsHead | backend/mqtt.js:190-203 | A deadline reports the waiting item `Failed` once. The item is dropped for good (no retry), and the rest of the work list runs forward. |
| SessionProperties.TimerIgnoredWhenDisarmed | backend/mqtt.js:70 | Once the timer has been cleared, a deadline changes nothing. |
| SessionProperties.HealthInputsLeaveSessionAlone | backend/mqtt.js:47-62 | Heartbeats, sweeps and closure change shelf health only, so a closed transport does not cut short a pending wait. |
| SessionProperties.StepKeepsInv | backend/mqtt.js:64-204 | Every input preserves the invariant below. |
| SessionProperties.RunKeepsInv | backend/mqtt.js:64-204 | Under the invariant, the timer is armed iff an item waits, and it is armed for that item. The last command is that item's, on the current shelf. A promise waits iff an order is active. There are as many `Dispensing` events as publishes. The `Dispensed` and `Failed` events together number the publishes minus one while an item waits, and equal them otherwise. Any sequence of inputs keeps all of this. |
| SessionProperties.AtMostOneOutstanding | backend/mqtt.js:179-203 | Under the invariant, at most one command is unanswered, and one is unanswered exactly while the timer is armed. |
| SessionProperties.NewCommandOnlyAfterWaitEnds | backend/mqtt.js:179-203 | An input publishes at most one command. It publishes only if it ended the previous wait, by a matching response or the deadline. |
| SessionProperties.StepCompletesAtMostOnce | backend/mqtt.js:129-141 | An input emits one `orderComplete` and one `{success:true}` result iff it takes an active order to idle, and none otherwise. An idle dispenser stays idle and silent. |
| SessionProperties.RunCompletesAtMostOnce | backend/mqtt.js:129-141 | Over any sequence of inputs, an active order yields exactly one `orderComplete` and one `{success:true}` if it ends idle, and none otherwise. Per-item failures do not matter. |
| SessionProperties.TimeoutsDrainOrder | backend/mqtt.js:190-203 | As many deadline expiries as there are items left bring any order to completion, whatever the shelves' health. |
| SessionProperties.InitialInv | backend/mqtt.js:4-13 | The start-up state satisfies the invariant and is idle. |
| Session.Submit | backend/mqtt.js:94-126 | A rejected order leaves the dispenser unchanged. An accepted order takes the promise and ends, like `processNextShelf`, either waiting on one new command or completed with the promise resolved. |
| SessionProperties.SubmitRejectsUnroutable | backend/mqtt.js:108-120 | An order is rejected with "No valid items to process" iff no id routes. A rejection changes nothing: no publish, no event, no result. |
| SessionProperties.SubmitStartsSession | backend/mqtt.js:94-126 | An accepted order starts on its jobs: shelves 5 down to 1, and each shelf's items in input order. The jobs run forward as `processNextItem` does, and the invariant holds afterwards. |
| Scenario.ScenarioPlan | backend/mqtt.js:96-115 | Order [{1,1},{30,2}] becomes the queue [shelf 5: "30,2"], [shelf 1: "1,1"]. |
| Scenario.ScenarioSubmit | backend/mqtt.js:94-204 | With only shelf 1 online, submitting that order reports 30 `Disconnected`, then publishes "1,1" to `vending/shelf/1` and reports 1 `Dispensing`. |
| Scenario.LateResponseCreditsNextItem | backend/mqtt.js:64-84 | After item 1 of shelf 1 times out and item 2 is published, a late "success" from shelf 1 is reported as item 2 `Dispensed`. |
| Scenario.ScenarioResponse | backend/mqtt.js:64-141 | Shelf 1's "success" then reports 1 `Dispensed` and completes the order with `{success:true}`. |

## Left out

- MQTT connect, subscribe and error wiring (`backend/mqtt.js:1-2`, `29-45`): transport plumbing with no state-machine logic.
- `client.publish` and `ws.send`: each broadcast is one entry in the `publishes` or `events` log. The number of connected clients and per-client delivery are not modelled. The source has no send-failure handling.
- `setWsClients` and the client list: connection bookkeeping done elsewhere.
- Real time: `Date.now()` is the `now` argument.
  - The 5 s `setInterval` period is not modelled. A sweep happens when a `SweepTick` input arrives.
  - The 15 s `setTimeout` duration is not modelled. The deadline is the `TimerFired` input, which only acts while the timer is armed.
- Topic parsing (`parseInt(topic.split("/").pop())`): inputs carry the shelf number as an integer. A topic that parses to NaN matches no shelf. That is the same as an out-of-range integer, which the model covers.
- Concurrent orders: `Session.Submit` requires an idle dispenser. A second `sendOrderMQTT` during a session would overwrite the global queue and resolver and could leave two timers armed. Because `orderQueue = []` (line 108) runs before the `hasItems` check (line 117), even a rejected second order empties the active order's remaining batches while its resolver stays stored. None of this is modelled.
- The `processing` flag: it is written but never read.
- `currentReject`: it is stored but never called.
- Console logging and the handler's `try/catch`: no modelled branch throws.
- Decimal.ParseInt: leading whitespace and the `0x` hex prefix are not modelled. Item strings built by the dispenser never contain them.
- Product ids and quantities are integers in the model. The source accepts any JSON value and compares it with JavaScript coercion (a fractional id such as 1.5 routes to shelf 1, and its event then reports id 1). This is not modelled.
- Large numbers in item strings: a template literal writes an integer of magnitude 10^21 or more in exponent form (`1e+21`), and Numbers above 2^53 are not exact. The model writes every integer in plain decimal. Ids that reach an item string are 1..32, so event ids are unaffected; only the quantity in a command payload could differ.
- Partition.Distribute: its ensures is a count of the items across the five buckets; which bucket each item lands in, and in what order, is stated by `Partition.DistributeIsRoutedTo`.
- SessionProperties.RunKeepsInv: the invariant balances publishes against status events by count, not by item id. The pairing by id is stated step by step in `Session.FollowsWhenOnline`, `SessionProperties.ResponseFromCurrentShelf` and `SessionProperties.TimeoutFailsHead`.
- `backend/server.js` and `backend/models.js`: HTTP routing, authentication, uploads and SQLite persistence are not part of this model.

## Behaviour of the code worth knowing

- A shelf never heard from starts offline with stamp 0. The sweep has no separate case for it: the ordinary staleness test keeps it offline.
- Between sweeps a flag can be stale. `Health.SweepLeavesOnlyFresh` states the guarantee that holds right after a sweep.
- A response is matched by shelf alone (line 68). If an item times out and the next item of the same shelf has been published, a late "success" for the first item is credited to the second: its timer is cleared and it is reported `Dispensed` (`Scenario.LateResponseCreditsNextItem`).
- Completion resolves the promise only if a resolver is stored (`currentResolve`). The model keeps that guard (`resolverPending`).
