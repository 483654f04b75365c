/**
 Dispense session: the sequential state machine that walks the batch queue
 item by item, skips items of offline shelves, publishes one command at a
 time and waits for the current shelf's response or a timeout, and reports
 every step as a status event.
 */
module Session {
  import opened Wrappers
  import opened Decimal
  import opened ItemCodec
  import Health
  import opened Partition

  /** Per-item status carried by an `orderStatus` event. */
  datatype Status = Dispensing | Dispensed | Failed | Disconnected

  /** The JSON events sent to every connected client. */
  datatype StatusEvent =
    | OrderStatus(id: Num, status: Status)
    | OrderComplete(success: bool)

  /** A command published on the transport. */
  datatype Publish = Publish(topic: string, payload: string)

  /** The value the order's promise resolves with. */
  datatype OrderResult = OrderResult(success: bool)

  /** The response deadline; an armed timer remembers the id of the item it was set for. */
  datatype Timer = Disarmed | Armed(itemId: Num)

  /**
   The whole dispenser: shelf health, the session's queue and current batch,
   the deadline timer, whether an order promise is waiting to be resolved,
   and the logs of status events, published commands and order results.
   */
  datatype Machine = Machine(
    shelves: Health.Shelves,
    queue: seq<Batch>,
    currentShelf: Option<int>,
    currentItems: seq<string>,
    timer: Timer,
    resolverPending: bool,
    events: seq<StatusEvent>,
    publishes: seq<Publish>,
    results: seq<OrderResult>)

  const Initial: Machine := Machine(Health.Initial, [], None, [], Disarmed, false, [], [], [])

  /** Everything that can happen to the dispenser besides an order submission. */
  datatype Input =
    | Heartbeat(shelf: int, now: nat)
    | SweepTick(now: nat)
    | TransportClosed
    | Response(shelf: int, payload: string)
    | TimerFired

  /** The only response payload that counts as a successful dispense. */
  const SuccessPayload: string := "success"

  /** The prefix of every command topic. */
  const CommandPrefix: string := "vending/shelf/"

  /**
   `vending/shelf/${shelf}`: the topic starts with the command prefix, and
   `parseInt` of the rest gives back the shelf number.
   */
  function CommandTopic(shelf: int): (t: string)
    ensures CommandPrefix <= t
    ensures ParseInt(t[|CommandPrefix|..]) == Int(shelf)
  {
    ParseIntOfIntToString(shelf);
    var t := CommandPrefix + IntToString(shelf);
    assert t[|CommandPrefix|..] == IntToString(shelf);
    t
  }

  /** `shelfStatus[currentShelf]`: false for a missing shelf. */
  predicate ShelfOnline(h: Health.Shelves, shelf: Option<int>) {
    shelf.Some? && Health.IsOnline(h, shelf.value)
  }

  /** JavaScript's `Array.prototype.shift` seen as a value: drops the head, if any. */
  function Shift<T>(s: seq<T>): seq<T> {
    if |s| == 0 then s else s[1..]
  }

  /** Items still queued, plus one per batch for the step that opens it. */
  function Work(q: seq<Batch>): nat {
    if |q| == 0 then 0 else 1 + |q[0].items| + Work(q[1..])
  }

  /**
   `r` waits on a command just published from `m`: the head item of the
   current batch went to its online shelf's topic, was reported Dispensing,
   and the deadline is armed for it; no order result is produced.
   */
  predicate Waiting(m: Machine, r: Machine) {
    && |r.currentItems| > 0
    && ShelfOnline(r.shelves, r.currentShelf)
    && r.publishes == m.publishes + [Publish(CommandTopic(r.currentShelf.value), r.currentItems[0])]
    && |r.events| > 0 && r.events[|r.events| - 1] == OrderStatus(ItemId(r.currentItems[0]), Dispensing)
    && r.timer == Armed(ItemId(r.currentItems[0]))
    && r.results == m.results
  }

  /**
   `r` has completed the order begun in `m`: nothing queued or waiting,
   the timer untouched, nothing published, `orderComplete` reported last, and the promise resolved with
   success if one was waiting.
   */
  predicate Completed(m: Machine, r: Machine) {
    && r.queue == [] && r.currentItems == [] && r.timer == m.timer
    && r.publishes == m.publishes
    && |r.events| > 0 && r.events[|r.events| - 1] == OrderComplete(true)
    && r.results == m.results + (if m.resolverPending then [OrderResult(true)] else [])
    && !r.resolverPending
  }

  /**
   One run of `processNextItem`/`processNextShelf` from `m`: shelf health is
   untouched, at least one event is appended to the log, and the run ends
   either waiting on one new command or with the order completed.
   */
  predicate Settled(m: Machine, r: Machine) {
    && r.shelves == m.shelves
    && m.events < r.events
    && (Waiting(m, r) || Completed(m, r))
  }

  /**
   `processNextShelf`: complete the order when the queue is empty (event,
   then the promise if one waits), otherwise open the next batch.
   */
  function NextShelf(m: Machine): (r: Machine)
    requires |m.currentItems| == 0
    ensures Settled(m, r)
    decreases Work(m.queue) + |m.currentItems|, 0
  {
    if |m.queue| == 0 then
      m.(events := m.events + [OrderComplete(true)],
         results := if m.resolverPending then m.results + [OrderResult(true)] else m.results,
         resolverPending := false)
    else
      NextItem(m.(queue := m.queue[1..], currentShelf := Some(m.queue[0].shelf),
                  currentItems := m.queue[0].items))
  }

  /**
   `processNextItem`: move to the next batch when this one is done; report an
   item of an offline shelf as Disconnected and go on; otherwise publish it,
   report Dispensing and arm the deadline.
   */
  function NextItem(m: Machine): (r: Machine)
    ensures Settled(m, r)
    decreases Work(m.queue) + |m.currentItems|, 1
  {
    if |m.currentItems| == 0 then NextShelf(m)
    else
      var item := m.currentItems[0];
      if !ShelfOnline(m.shelves, m.currentShelf) then
        NextItem(m.(events := m.events + [OrderStatus(ItemId(item), Disconnected)],
                    currentItems := m.currentItems[1..]))
      else
        m.(publishes := m.publishes + [Publish(CommandTopic(m.currentShelf.value), item)],
           events := m.events + [OrderStatus(ItemId(item), Dispensing)],
           timer := Armed(ItemId(item)))
  }

  /** The wait for the head item ends: timer cleared, `status` reported for `id`, head dropped. */
  function Finish(m: Machine, id: Num, status: Status): Machine {
    m.(timer := Disarmed, events := m.events + [OrderStatus(id, status)],
       currentItems := Shift(m.currentItems))
  }

  /**
   End the wait for the head item, then go on with `processNextItem`: the
   first new event reports `status` for `id`, the timer is re-armed only for
   a newly published command, and the run settles as `processNextItem` does.
   */
  function Conclude(m: Machine, id: Num, status: Status): (r: Machine)
    ensures r.shelves == m.shelves
    ensures m.events < r.events && m.publishes <= r.publishes && m.results <= r.results
    ensures r.events[|m.events|] == OrderStatus(id, status)
    ensures r.timer.Armed? <==> |r.publishes| == |m.publishes| + 1
    ensures Settled(Finish(m, id, status), r)
  {
    var f := Finish(m, id, status);
    var r := NextItem(f);
    assert m.events < f.events < r.events;
    assert r.events[|m.events|] == f.events[|m.events|];
    assert m.publishes <= r.publishes && m.results <= r.results;
    r
  }

  /**
   The reaction to one input. The logs are append-only, and a response or a
   deadline never changes shelf health.
   */
  function Step(m: Machine, input: Input): (r: Machine)
    ensures m.events <= r.events && m.publishes <= r.publishes && m.results <= r.results
    ensures (input.Response? || input.TimerFired?) ==> r.shelves == m.shelves
  {
    match input
    case Heartbeat(shelf, now) => m.(shelves := Health.RecordHeartbeat(m.shelves, shelf, now))
    case SweepTick(now) => m.(shelves := Health.Sweep(m.shelves, now))
    case TransportClosed => m.(shelves := Health.TransportClosed(m.shelves))
    case Response(shelf, payload) =>
      if |m.currentItems| > 0 && m.currentShelf == Some(shelf) then
        Conclude(m, ItemId(m.currentItems[0]), if payload == SuccessPayload then Dispensed else Failed)
      else m
    case TimerFired =>
      match m.timer
      case Disarmed => m
      case Armed(id) => Conclude(m, id, Failed)
  }

  /** The inputs, one after another. */
  function Run(m: Machine, inputs: seq<Input>): Machine
    decreases |inputs|
  {
    if |inputs| == 0 then m else Run(Step(m, inputs[0]), inputs[1..])
  }

  /** No order is being dispensed. */
  predicate Idle(m: Machine) {
    |m.currentItems| == 0 && |m.queue| == 0
  }

  datatype SubmitOutcome = Started | RejectedWith(reason: string)

  /**
   `sendOrderMQTT` on an idle dispenser: partition the order, reject it when
   nothing routes, otherwise take the promise and start the session.
   */
  function Submit(m: Machine, products: seq<Product>): (r: (Machine, SubmitOutcome))
    requires Idle(m)
    ensures r.1.RejectedWith? ==> r.0 == m
    ensures r.1.Started? ==> Settled(m.(resolverPending := true), r.0)
  {
    match PlanOrder(products)
    case Rejected(reason) => (m.(queue := []), RejectedWith(reason))
    case Queued(q) => (NextShelf(m.(queue := q, resolverPending := true)), Started)
  }

  // ---------------------------------------------------------------------------
  // Reference definition: the session as a flat work list
  // ---------------------------------------------------------------------------

  /** One item still to be dispensed, with the shelf it will be sent to. */
  datatype Job = Job(shelf: Option<int>, item: string)

  function JobsOf(shelf: Option<int>, items: seq<string>): (js: seq<Job>)
    ensures |js| == |items|
    ensures forall i :: 0 <= i < |items| ==> js[i] == Job(shelf, items[i])
  {
    seq(|items|, i requires 0 <= i < |items| => Job(shelf, items[i]))
  }

  function QueueJobs(q: seq<Batch>): seq<Job> {
    if |q| == 0 then [] else JobsOf(Some(q[0].shelf), q[0].items) + QueueJobs(q[1..])
  }

  /** All items not yet dispensed, in the order the session will reach them. */
  function Pending(m: Machine): seq<Job> {
    JobsOf(m.currentShelf, m.currentItems) + QueueJobs(m.queue)
  }

  /** Index of the first job whose shelf is online, or |jobs| if there is none. */
  function FirstOnline(h: Health.Shelves, jobs: seq<Job>): (k: nat)
    ensures k <= |jobs|
    ensures forall i :: 0 <= i < k ==> !ShelfOnline(h, jobs[i].shelf)
    ensures k < |jobs| ==> ShelfOnline(h, jobs[k].shelf)
  {
    if |jobs| == 0 || ShelfOnline(h, jobs[0].shelf) then 0 else 1 + FirstOnline(h, jobs[1..])
  }

  /** One Disconnected event per job, in order. */
  function Disconnections(jobs: seq<Job>): (es: seq<StatusEvent>)
    ensures |es| == |jobs|
    ensures forall i :: 0 <= i < |jobs| ==> es[i] == OrderStatus(ItemId(jobs[i].item), Disconnected)
  {
    if |jobs| == 0 then [] else [OrderStatus(ItemId(jobs[0].item), Disconnected)] + Disconnections(jobs[1..])
  }

  /**
   The events of running the work list forward: Disconnected for every job
   before the first online one, then Dispensing for that job, or the order
   completion if every remaining job's shelf is offline.
   */
  function AdvanceEvents(h: Health.Shelves, jobs: seq<Job>): seq<StatusEvent> {
    var k := FirstOnline(h, jobs);
    Disconnections(jobs[..k])
      + if k < |jobs| then [OrderStatus(ItemId(jobs[k].item), Dispensing)] else [OrderComplete(true)]
  }

  /** The command published when running the work list forward: the first online job's, if any. */
  function AdvancePublishes(h: Health.Shelves, jobs: seq<Job>): seq<Publish> {
    var k := FirstOnline(h, jobs);
    if k < |jobs| then [Publish(CommandTopic(jobs[k].shelf.value), jobs[k].item)] else []
  }

  // ---------------------------------------------------------------------------
  // The session follows the work list
  // ---------------------------------------------------------------------------

  /**
   `r` is what running the work list of `m` forward yields: one Disconnected
   event per leading job whose shelf is offline, then either exactly one
   publish of the first online job with one Dispensing event and an armed
   timer for it, or (if no job's shelf is online) an emptied session, one
   orderComplete event and the promise resolved with success. Health is
   untouched and the jobs left are exactly the published one and those after it.
   */
  ghost predicate Follows(m: Machine, r: Machine) {
    var P := Pending(m);
    var k := FirstOnline(m.shelves, P);
    && r.shelves == m.shelves
    && r.events == m.events + AdvanceEvents(m.shelves, P)
    && r.publishes == m.publishes + AdvancePublishes(m.shelves, P)
    && Pending(r) == P[k..]
    && (k < |P| ==>
          && |r.currentItems| > 0 && r.currentItems[0] == P[k].item && r.currentShelf == P[k].shelf
          && r.timer == Armed(ItemId(P[k].item))
          && r.resolverPending == m.resolverPending && r.results == m.results)
    && (k == |P| ==>
          && r.currentItems == [] && r.queue == [] && r.timer == m.timer && !r.resolverPending
          && r.results == m.results + (if m.resolverPending then [OrderResult(true)] else []))
  }

  /** The machine `processNextShelf` hands to `processNextItem` when it opens the next batch. */
  function OpenBatch(m: Machine): Machine
    requires |m.queue| > 0
  {
    m.(queue := m.queue[1..], currentShelf := Some(m.queue[0].shelf), currentItems := m.queue[0].items)
  }

  /** The machine after the head item is reported Disconnected. */
  function SkipItem(m: Machine): Machine
    requires |m.currentItems| > 0
  {
    m.(events := m.events + [OrderStatus(ItemId(m.currentItems[0]), Disconnected)],
       currentItems := m.currentItems[1..])
  }

  lemma FollowsWhenDrained(m: Machine)
    requires |m.currentItems| == 0 && |m.queue| == 0
    ensures Follows(m, NextItem(m))
  {
    assert Pending(m) == [];
  }

  lemma FollowsWhenOpening(m: Machine)
    requires |m.currentItems| == 0 && |m.queue| > 0
    requires Follows(OpenBatch(m), NextItem(OpenBatch(m)))
    ensures Follows(m, NextItem(m))
  {
    assert NextItem(m) == NextItem(OpenBatch(m));
    assert Pending(OpenBatch(m)) == Pending(m);
  }

  /** The jobs before the first online one, and those from it on, when the head is offline. */
  lemma SplitOverOffline(h: Health.Shelves, P: seq<Job>)
    requires |P| > 0 && !ShelfOnline(h, P[0].shelf)
    ensures FirstOnline(h, P) == 1 + FirstOnline(h, P[1..])
    ensures Disconnections(P[..FirstOnline(h, P)])
            == [OrderStatus(ItemId(P[0].item), Disconnected)] + Disconnections(P[1..][..FirstOnline(h, P[1..])])
    ensures P[FirstOnline(h, P)..] == P[1..][FirstOnline(h, P[1..])..]
  {
    var k := FirstOnline(h, P);
    var k' := FirstOnline(h, P[1..]);
    assert P[..k][0] == P[0];
    assert P[..k][1..] == P[1..][..k'];
    assert P[k..] == P[1..][k'..];
  }

  /** Running a work list whose head is offline: report the head, then run the rest. */
  lemma AdvanceOverOffline(h: Health.Shelves, P: seq<Job>)
    requires |P| > 0 && !ShelfOnline(h, P[0].shelf)
    ensures FirstOnline(h, P) == 1 + FirstOnline(h, P[1..])
    ensures AdvanceEvents(h, P) == [OrderStatus(ItemId(P[0].item), Disconnected)] + AdvanceEvents(h, P[1..])
    ensures AdvancePublishes(h, P) == AdvancePublishes(h, P[1..])
    ensures P[FirstOnline(h, P)..] == P[1..][FirstOnline(h, P[1..])..]
  {
    SplitOverOffline(h, P);
    var k := FirstOnline(h, P);
    var k' := FirstOnline(h, P[1..]);
    var d := OrderStatus(ItemId(P[0].item), Disconnected);
    var D := Disconnections(P[..k]);
    var D' := Disconnections(P[1..][..k']);
    var tail := if k < |P| then [OrderStatus(ItemId(P[k].item), Dispensing)] else [OrderComplete(true)];
    var tail' := if k' < |P[1..]| then [OrderStatus(ItemId(P[1..][k'].item), Dispensing)] else [OrderComplete(true)];
    if k < |P| {
      assert P[k] == P[1..][k'];
    }
    assert tail == tail';
    assert AdvanceEvents(h, P) == D + tail;
    assert AdvanceEvents(h, P[1..]) == D' + tail';
    ConcatAssoc([d], D', tail);
  }

  /** Dropping the head item drops the head job. */
  lemma JobsOfTail(shelf: Option<int>, items: seq<string>)
    requires |items| > 0
    ensures JobsOf(shelf, items[1..]) == JobsOf(shelf, items)[1..]
  {
  }

  lemma PendingAfterSkip(m: Machine)
    requires |m.currentItems| > 0
    ensures Pending(m)[0] == Job(m.currentShelf, m.currentItems[0])
    ensures Pending(SkipItem(m)) == Pending(m)[1..]
  {
    JobsOfTail(m.currentShelf, m.currentItems);
  }

  lemma ConcatAssoc<T>(a: seq<T>, b: seq<T>, c: seq<T>)
    ensures (a + b) + c == a + (b + c)
  {
  }

  lemma FollowsWhenOffline(m: Machine)
    requires |m.currentItems| > 0 && !ShelfOnline(m.shelves, m.currentShelf)
    requires Follows(SkipItem(m), NextItem(SkipItem(m)))
    ensures Follows(m, NextItem(m))
  {
    var h := m.shelves;
    var m' := SkipItem(m);
    var r := NextItem(m');
    assert NextItem(m) == r;
    var P := Pending(m);
    PendingAfterSkip(m);
    var P' := Pending(m');
    assert P' == P[1..];
    AdvanceOverOffline(h, P);
    var k := FirstOnline(h, P);
    var k' := FirstOnline(h, P');
    assert k == k' + 1;
    var d := OrderStatus(ItemId(P[0].item), Disconnected);
    var E := AdvanceEvents(h, P);
    var E' := AdvanceEvents(h, P');
    assert E == [d] + E';
    assert m'.events == m.events + [d];
    assert r.events == m'.events + E';
    ConcatAssoc(m.events, [d], E');
    assert r.events == m.events + E;
    assert r.publishes == m'.publishes + AdvancePublishes(h, P');
    assert Pending(r) == P[k..];
    if k < |P| {
      assert P[k] == P'[k'];
    }
  }

  lemma FollowsWhenOnline(m: Machine)
    requires |m.currentItems| > 0 && ShelfOnline(m.shelves, m.currentShelf)
    ensures Follows(m, NextItem(m))
  {
    var P := Pending(m);
    assert P[0] == Job(m.currentShelf, m.currentItems[0]);
    assert FirstOnline(m.shelves, P) == 0;
    assert P[..0] == [];
    assert P[0..] == P;
  }

  /** `processNextItem` does what the work list says (see Follows). */
  lemma {:induction false} NextItemFollowsWorkList(m: Machine)
    ensures Follows(m, NextItem(m))
    decreases Work(m.queue) + |m.currentItems|
  {
    if |m.currentItems| == 0 {
      if |m.queue| == 0 {
        FollowsWhenDrained(m);
      } else {
        NextItemFollowsWorkList(OpenBatch(m));
        FollowsWhenOpening(m);
      }
    } else if !ShelfOnline(m.shelves, m.currentShelf) {
      NextItemFollowsWorkList(SkipItem(m));
      FollowsWhenOffline(m);
    } else {
      FollowsWhenOnline(m);
    }
  }
}
