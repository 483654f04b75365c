/**
 Properties of the dispense session over whole runs: the invariant that at
 most one command is outstanding, what each input does, what an order
 submission starts, that an order completes exactly once, and that
 timeouts alone drain any order.
 */
module SessionProperties {
  import opened Wrappers
  import opened Decimal
  import opened ItemCodec
  import Health
  import opened Partition
  import opened Session

  /** An order is in progress: some item is waiting for its shelf. */
  predicate Active(m: Machine) {
    |m.currentItems| > 0
  }

  /** Number of `orderStatus` events with the given status. */
  function CountStatus(es: seq<StatusEvent>, st: Status): nat {
    if |es| == 0 then 0
    else (if es[0].OrderStatus? && es[0].status == st then 1 else 0) + CountStatus(es[1..], st)
  }

  /** Number of `orderComplete` events. */
  function CountComplete(es: seq<StatusEvent>): nat {
    if |es| == 0 then 0 else (if es[0].OrderComplete? then 1 else 0) + CountComplete(es[1..])
  }

  /**
   Shape of a reachable session. The timer is armed exactly while an item
   waits, and it is armed for that item; the last published command is that
   item's, on the current shelf; an idle session has an empty queue; a
   promise waits exactly while an order is active.
   */
  ghost predicate SessionShape(m: Machine) {
    && (m.timer.Armed? <==> Active(m))
    && (Active(m) ==>
          && m.timer.itemId == ItemId(m.currentItems[0])
          && m.currentShelf.Some?
          && |m.publishes| > 0
          && m.publishes[|m.publishes| - 1] == Publish(CommandTopic(m.currentShelf.value), m.currentItems[0]))
    && (!Active(m) ==> m.queue == [])
    && (m.resolverPending <==> Active(m))
  }

  /**
   Counting balance: there are as many Dispensing events as publishes, and as
   many Dispensed and Failed events together as publishes minus the
   outstanding one (if an item waits). The counts are not paired by item id.
   */
  ghost predicate CommandBalance(m: Machine) {
    && CountStatus(m.events, Dispensing) == |m.publishes|
    && CountStatus(m.events, Dispensed) + CountStatus(m.events, Failed) + (if Active(m) then 1 else 0)
       == |m.publishes|
  }

  /** Reachable-state invariant: at most one command is ever outstanding. */
  ghost predicate Inv(m: Machine) {
    SessionShape(m) && CommandBalance(m)
  }

  /** Commands published but not yet answered by a Dispensed or Failed event. */
  function Outstanding(m: Machine): int {
    |m.publishes| - (CountStatus(m.events, Dispensed) + CountStatus(m.events, Failed))
  }

  lemma {:induction false} CountStatusAppend(a: seq<StatusEvent>, b: seq<StatusEvent>, st: Status)
    ensures CountStatus(a + b, st) == CountStatus(a, st) + CountStatus(b, st)
    decreases |a|
  {
    if |a| > 0 {
      assert (a + b)[1..] == a[1..] + b;
      CountStatusAppend(a[1..], b, st);
    } else {
      assert a + b == b;
    }
  }

  lemma {:induction false} CountCompleteAppend(a: seq<StatusEvent>, b: seq<StatusEvent>)
    ensures CountComplete(a + b) == CountComplete(a) + CountComplete(b)
    decreases |a|
  {
    if |a| > 0 {
      assert (a + b)[1..] == a[1..] + b;
      CountCompleteAppend(a[1..], b);
    } else {
      assert a + b == b;
    }
  }

  lemma {:induction false} DisconnectionsCounts(js: seq<Job>, st: Status)
    ensures st != Disconnected ==> CountStatus(Disconnections(js), st) == 0
    ensures CountComplete(Disconnections(js)) == 0
    decreases |js|
  {
    if |js| > 0 {
      DisconnectionsCounts(js[1..], st);
    }
  }

  /**
   Running a work list forward reports Dispensing once per command it
   publishes, reports nothing Dispensed or Failed, and completes the order
   exactly when no job's shelf is online.
   */
  lemma AdvanceCounts(h: Health.Shelves, P: seq<Job>)
    ensures CountStatus(AdvanceEvents(h, P), Dispensing) == |AdvancePublishes(h, P)|
    ensures CountStatus(AdvanceEvents(h, P), Dispensed) == 0
    ensures CountStatus(AdvanceEvents(h, P), Failed) == 0
    ensures CountComplete(AdvanceEvents(h, P)) == if FirstOnline(h, P) == |P| then 1 else 0
    ensures |AdvancePublishes(h, P)| == if FirstOnline(h, P) < |P| then 1 else 0
  {
    var k := FirstOnline(h, P);
    var D := Disconnections(P[..k]);
    var tail := if k < |P| then [OrderStatus(ItemId(P[k].item), Dispensing)] else [OrderComplete(true)];
    assert AdvanceEvents(h, P) == D + tail;
    DisconnectionsCounts(P[..k], Dispensing);
    DisconnectionsCounts(P[..k], Dispensed);
    DisconnectionsCounts(P[..k], Failed);
    CountStatusAppend(D, tail, Dispensing);
    CountStatusAppend(D, tail, Dispensed);
    CountStatusAppend(D, tail, Failed);
    CountCompleteAppend(D, tail);
  }

  lemma PendingAfterFinish(m: Machine, id: Num, st: Status)
    requires Active(m)
    ensures Pending(m)[0] == Job(m.currentShelf, m.currentItems[0])
    ensures Pending(Finish(m, id, st)) == Pending(m)[1..]
  {
    JobsOfTail(m.currentShelf, m.currentItems);
  }

  /**
   Ending the wait for the head item reports `status` for `id` once, then
   runs the rest of the work list forward (see AdvanceEvents).
   */
  lemma ConcludeEffect(m: Machine, id: Num, st: Status)
    requires Active(m)
    ensures var r := Conclude(m, id, st);
      var P' := Pending(m)[1..];
      var k := FirstOnline(m.shelves, P');
      && r.shelves == m.shelves
      && r.events == m.events + [OrderStatus(id, st)] + AdvanceEvents(m.shelves, P')
      && r.publishes == m.publishes + AdvancePublishes(m.shelves, P')
      && Pending(r) == P'[k..]
      && (Active(r) <==> k < |P'|)
  {
    var m1 := Finish(m, id, st);
    PendingAfterFinish(m, id, st);
    NextItemFollowsWorkList(m1);
  }

  /** The work-list facts about ending the wait for the head item. */
  lemma ConcludeFollows(m: Machine, id: Num, st: Status)
    requires Active(m)
    ensures Pending(Finish(m, id, st)) == Pending(m)[1..]
    ensures Follows(Finish(m, id, st), Conclude(m, id, st))
  {
    PendingAfterFinish(m, id, st);
    NextItemFollowsWorkList(Finish(m, id, st));
  }

  lemma ConcludeKeepsShape(m: Machine, st: Status)
    requires SessionShape(m) && Active(m)
    ensures SessionShape(Conclude(m, ItemId(m.currentItems[0]), st))
  {
    var id := ItemId(m.currentItems[0]);
    var m1 := Finish(m, id, st);
    ConcludeFollows(m, id, st);
    var P1 := Pending(m1);
    var k := FirstOnline(m.shelves, P1);
    assert |AdvancePublishes(m.shelves, P1)| == if k < |P1| then 1 else 0;
  }

  /** Counting the events of one concluded wait. */
  lemma CountsOfConclusion(ev: seq<StatusEvent>, id: Num, st: Status, E: seq<StatusEvent>, s: Status)
    ensures CountStatus(ev + [OrderStatus(id, st)] + E, s)
            == CountStatus(ev, s) + (if st == s then 1 else 0) + CountStatus(E, s)
  {
    var e := [OrderStatus(id, st)];
    CountStatusAppend(ev, e, s);
    CountStatusAppend(ev + e, E, s);
    assert CountStatus(e, s) == if st == s then 1 else 0 by {
      assert e[1..] == [];
    }
  }

  lemma ConcludeKeepsBalance(m: Machine, st: Status)
    requires CommandBalance(m) && Active(m)
    requires st == Dispensed || st == Failed
    ensures CommandBalance(Conclude(m, ItemId(m.currentItems[0]), st))
  {
    var id := ItemId(m.currentItems[0]);
    var r := Conclude(m, id, st);
    var h := m.shelves;
    var P' := Pending(m)[1..];
    ConcludeEffect(m, id, st);
    var E := AdvanceEvents(h, P');
    AdvanceCounts(h, P');
    CountsOfConclusion(m.events, id, st, E, Dispensing);
    CountsOfConclusion(m.events, id, st, E, Dispensed);
    CountsOfConclusion(m.events, id, st, E, Failed);
    assert |r.publishes| == |m.publishes| + |AdvancePublishes(h, P')|;
  }

  /** Ending the wait for the head item keeps the invariant. */
  lemma ConcludeKeepsInv(m: Machine, st: Status)
    requires Inv(m) && Active(m)
    requires st == Dispensed || st == Failed
    ensures Inv(Conclude(m, ItemId(m.currentItems[0]), st))
  {
    ConcludeKeepsShape(m, st);
    ConcludeKeepsBalance(m, st);
  }

  /** Every input keeps the invariant. */
  lemma StepKeepsInv(m: Machine, input: Input)
    requires Inv(m)
    ensures Inv(Step(m, input))
  {
    match input
    case Heartbeat(_, _) => HealthInputKeepsInv(m, input);
    case SweepTick(_) => HealthInputKeepsInv(m, input);
    case TransportClosed => HealthInputKeepsInv(m, input);
    case Response(shelf, payload) => ResponseKeepsInv(m, shelf, payload);
    case TimerFired => TimerKeepsInv(m);
  }

  lemma HealthInputKeepsInv(m: Machine, input: Input)
    requires Inv(m)
    requires input.Heartbeat? || input.SweepTick? || input.TransportClosed?
    ensures Inv(Step(m, input))
  {
    assert Step(m, input) == m.(shelves := Step(m, input).shelves);
  }

  lemma ResponseKeepsInv(m: Machine, shelf: int, payload: string)
    requires Inv(m)
    ensures Inv(Step(m, Response(shelf, payload)))
  {
    if Active(m) && m.currentShelf == Some(shelf) {
      var st := if payload == SuccessPayload then Dispensed else Failed;
      assert Step(m, Response(shelf, payload)) == Conclude(m, ItemId(m.currentItems[0]), st);
      ConcludeKeepsInv(m, st);
    } else {
      assert Step(m, Response(shelf, payload)) == m;
    }
  }

  lemma TimerKeepsInv(m: Machine)
    requires Inv(m)
    ensures Inv(Step(m, TimerFired))
  {
    if m.timer.Armed? {
      assert Step(m, TimerFired) == Conclude(m, m.timer.itemId, Failed);
      ConcludeKeepsInv(m, Failed);
    }
  }

  lemma {:induction false} RunKeepsInv(m: Machine, inputs: seq<Input>)
    requires Inv(m)
    ensures Inv(Run(m, inputs))
    decreases |inputs|
  {
    if |inputs| > 0 {
      StepKeepsInv(m, inputs[0]);
      RunKeepsInv(Step(m, inputs[0]), inputs[1..]);
    }
  }

  /** The invariant bounds the commands awaiting an answer by one. */
  lemma AtMostOneOutstanding(m: Machine)
    requires Inv(m)
    ensures 0 <= Outstanding(m) <= 1
    ensures Outstanding(m) == 1 <==> m.timer.Armed?
  {
  }

  /** The dispenser starts in the invariant, with nothing in progress. */
  lemma InitialInv()
    ensures Inv(Initial) && !Active(Initial)
  {
  }

  /**
   A response from a shelf other than the one being served, or any response
   while no item waits, is ignored: the queue, the current items, the timer
   and every log stay as they were.
   */
  lemma ResponseFromOtherShelfIgnored(m: Machine, shelf: int, payload: string)
    requires !(Active(m) && m.currentShelf == Some(shelf))
    ensures Step(m, Response(shelf, payload)) == m
  {
  }

  /**
   A response from the shelf being served reports the head item once, as
   Dispensed when the payload is exactly "success" and as Failed otherwise,
   then goes on with the rest of the work list.
   */
  lemma ResponseFromCurrentShelf(m: Machine, payload: string)
    requires Active(m) && m.currentShelf.Some?
    ensures var r := Step(m, Response(m.currentShelf.value, payload));
      var P' := Pending(m)[1..];
      var st := if payload == "success" then Dispensed else Failed;
      && r.events == m.events + [OrderStatus(ItemId(m.currentItems[0]), st)] + AdvanceEvents(m.shelves, P')
      && r.publishes == m.publishes + AdvancePublishes(m.shelves, P')
      && Pending(r) == P'[FirstOnline(m.shelves, P')..]
  {
    ConcludeEffect(m, ItemId(m.currentItems[0]), if payload == SuccessPayload then Dispensed else Failed);
  }

  /**
   When the deadline passes first, the head item is reported Failed once and
   dropped for good (no retry), and the session goes on with the rest.
   */
  lemma TimeoutFailsHead(m: Machine)
    requires Inv(m) && m.timer.Armed?
    ensures var r := Step(m, TimerFired);
      var P' := Pending(m)[1..];
      && r.events == m.events + [OrderStatus(ItemId(m.currentItems[0]), Failed)] + AdvanceEvents(m.shelves, P')
      && r.publishes == m.publishes + AdvancePublishes(m.shelves, P')
      && Pending(r) == P'[FirstOnline(m.shelves, P')..]
  {
    assert m.timer.itemId == ItemId(m.currentItems[0]);
    assert Step(m, TimerFired) == Conclude(m, ItemId(m.currentItems[0]), Failed);
    ConcludeEffect(m, ItemId(m.currentItems[0]), Failed);
  }

  /** With no timer armed, a timer event changes nothing. */
  lemma TimerIgnoredWhenDisarmed(m: Machine)
    requires m.timer.Disarmed?
    ensures Step(m, TimerFired) == m
  {
  }

  /**
   Heartbeats, sweeps and transport closure change shelf health only: in
   particular closing the transport does not cut short a pending wait.
   */
  lemma HealthInputsLeaveSessionAlone(m: Machine, input: Input)
    requires input.Heartbeat? || input.SweepTick? || input.TransportClosed?
    ensures Step(m, input) == m.(shelves := Step(m, input).shelves)
    ensures input.TransportClosed? ==> !Health.AnyOnline(Step(m, input).shelves)
    ensures input.Heartbeat? && Health.ValidShelf(input.shelf) ==>
              Health.IsOnline(Step(m, input).shelves, input.shelf)
  {
    if input.TransportClosed? {
      Health.ClosedMeansNoShelfOnline(m.shelves);
    }
  }

  /**
   One input publishes at most one command, and it publishes one only when
   it ends the wait for the previous command (a matching response or the
   deadline), so commands never overlap.
   */
  lemma NewCommandOnlyAfterWaitEnds(m: Machine, input: Input)
    requires Inv(m)
    ensures |Step(m, input).publishes| <= |m.publishes| + 1
    ensures |Step(m, input).publishes| == |m.publishes| + 1 ==>
              m.timer.Armed?
              && (input.TimerFired? || (input.Response? && m.currentShelf == Some(input.shelf)))
  {
    match input
    case Heartbeat(_, _) =>
    case SweepTick(_) =>
    case TransportClosed =>
    case Response(shelf, payload) =>
      if Active(m) && m.currentShelf == Some(shelf) {
        ConcludeEffect(m, ItemId(m.currentItems[0]), if payload == SuccessPayload then Dispensed else Failed);
        AdvanceCounts(m.shelves, Pending(m)[1..]);
      }
    case TimerFired =>
      if m.timer.Armed? {
        ConcludeEffect(m, m.timer.itemId, Failed);
        AdvanceCounts(m.shelves, Pending(m)[1..]);
      }
  }

  /**
   One input completes the order at most once: it emits an orderComplete
   event and resolves the promise with success exactly when it takes an
   active session to idle; an idle dispenser stays idle and silent.
   */
  lemma StepCompletesAtMostOnce(m: Machine, input: Input)
    requires Inv(m)
    ensures var r := Step(m, input);
      var done := Active(m) && !Active(r);
      && (!Active(m) ==> !Active(r) && r.events == m.events && r.publishes == m.publishes && r.results == m.results)
      && CountComplete(r.events) == CountComplete(m.events) + (if done then 1 else 0)
      && r.results == m.results + (if done then [OrderResult(true)] else [])
  {
    var r := Step(m, input);
    InvFacts(m);
    if Active(m) && ((input.Response? && m.currentShelf == Some(input.shelf)) || input.TimerFired?) {
      var id := if input.TimerFired? then m.timer.itemId else ItemId(m.currentItems[0]);
      var st := if input.Response? && input.payload == SuccessPayload then Dispensed else Failed;
      assert r == Conclude(m, id, st);
      ConcludeCompletesOnce(m, id, st);
    } else if input.Response? || input.TimerFired? {
      assert r == m;
    } else {
      assert r == m.(shelves := r.shelves);
    }
  }

  /** Ending a wait completes the order, once, exactly when it leaves nothing waiting. */
  lemma ConcludeCompletesOnce(m: Machine, id: Num, st: Status)
    requires Inv(m) && Active(m)
    ensures var r := Conclude(m, id, st);
      && CountComplete(r.events) == CountComplete(m.events) + (if !Active(r) then 1 else 0)
      && r.results == m.results + (if !Active(r) then [OrderResult(true)] else [])
  {
    var m1 := Finish(m, id, st);
    PendingAfterFinish(m, id, st);
    NextItemFollowsWorkList(m1);
    var P1 := Pending(m1);
    AdvanceCounts(m.shelves, P1);
    var e := [OrderStatus(id, st)];
    CountCompleteAppend(m.events, e);
    CountCompleteAppend(m.events + e, AdvanceEvents(m.shelves, P1));
  }

  /**
   Over any sequence of inputs, an active order completes at most once: one
   orderComplete event and one `{success: true}` result if it ends idle,
   none otherwise; an idle dispenser emits nothing.
   */
  lemma {:induction false} RunCompletesAtMostOnce(m: Machine, inputs: seq<Input>)
    requires Inv(m)
    ensures var r := Run(m, inputs);
      var done := Active(m) && !Active(r);
      && (!Active(m) ==> !Active(r) && r.events == m.events && r.publishes == m.publishes)
      && CountComplete(r.events) == CountComplete(m.events) + (if done then 1 else 0)
      && r.results == m.results + (if done then [OrderResult(true)] else [])
    decreases |inputs|
  {
    if |inputs| > 0 {
      var m1 := Step(m, inputs[0]);
      StepCompletesAtMostOnce(m, inputs[0]);
      StepKeepsInv(m, inputs[0]);
      RunCompletesAtMostOnce(m1, inputs[1..]);
    }
  }

  /** `n` deadline expiries in a row. */
  function Timeouts(n: nat): (ts: seq<Input>)
    ensures |ts| == n
    ensures forall i :: 0 <= i < n ==> ts[i] == TimerFired
  {
    if n == 0 then [] else [TimerFired] + Timeouts(n - 1)
  }

  /** What the invariant says about timer and work list. */
  lemma InvFacts(m: Machine)
    requires Inv(m)
    ensures Active(m) <==> m.timer.Armed?
    ensures Active(m) ==> m.timer.itemId == ItemId(m.currentItems[0])
    ensures !Active(m) ==> Pending(m) == []
  {
    if !Active(m) {
      assert m.queue == [];
    }
  }

  /** One deadline expiry keeps the invariant and, while an item waits, shortens the work list. */
  lemma TimeoutShrinksWork(m: Machine)
    requires Inv(m)
    ensures Inv(Step(m, TimerFired))
    ensures Active(m) ==> |Pending(Step(m, TimerFired))| < |Pending(m)|
    ensures !Active(m) ==> Step(m, TimerFired) == m && Pending(m) == []
  {
    InvFacts(m);
    StepKeepsInv(m, TimerFired);
    if Active(m) {
      assert Step(m, TimerFired) == Conclude(m, m.timer.itemId, Failed);
      ConcludeEffect(m, m.timer.itemId, Failed);
    }
  }

  /**
   No order can hang: whatever the shelves' health, as many deadline expiries as
   there are items left bring the dispenser back to idle.
   */
  lemma {:induction false} TimeoutsDrainOrder(m: Machine, n: nat)
    requires Inv(m) && |Pending(m)| <= n
    ensures !Active(Run(m, Timeouts(n)))
    decreases n
  {
    TimeoutShrinksWork(m);
    RunTimeouts(m, n);
    if n > 0 {
      TimeoutsDrainOrder(Step(m, TimerFired), n - 1);
    }
  }

  /** Running `n` expiries is one expiry followed by the other `n - 1`. */
  lemma RunTimeouts(m: Machine, n: nat)
    ensures n == 0 ==> Run(m, Timeouts(n)) == m
    ensures n > 0 ==> Run(m, Timeouts(n)) == Run(Step(m, TimerFired), Timeouts(n - 1))
  {
    if n > 0 {
      assert Timeouts(n)[0] == TimerFired;
      assert Timeouts(n)[1..] == Timeouts(n - 1);
    }
  }

  // ---------------------------------------------------------------------------
  // Order submission
  // ---------------------------------------------------------------------------

  /**
   The jobs of an order: for shelves `s` down to 1, the items routed to
   that shelf in input order.
   */
  function OrderJobs(products: seq<Product>, s: nat): seq<Job> {
    if s == 0 then [] else JobsOf(Some(s), RoutedTo(products, s)) + OrderJobs(products, s - 1)
  }

  function BucketJobs(buckets: seq<seq<string>>, s: nat): seq<Job>
    requires |buckets| == Health.ShelfCount && s <= Health.ShelfCount
  {
    if s == 0 then [] else JobsOf(Some(s), buckets[s - 1]) + BucketJobs(buckets, s - 1)
  }

  lemma {:induction false} QueueJobsOfBuildQueue(buckets: seq<seq<string>>, s: nat)
    requires |buckets| == Health.ShelfCount && s <= Health.ShelfCount
    ensures QueueJobs(BuildQueue(buckets, s)) == BucketJobs(buckets, s)
    decreases s
  {
    if s > 0 {
      QueueJobsOfBuildQueue(buckets, s - 1);
      var rest := BuildQueue(buckets, s - 1);
      var own := JobsOf(Some(s), buckets[s - 1]);
      assert BucketJobs(buckets, s) == own + BucketJobs(buckets, s - 1);
      if |buckets[s - 1]| > 0 {
        var q := [Batch(s, buckets[s - 1])] + rest;
        assert BuildQueue(buckets, s) == q;
        assert q[0] == Batch(s, buckets[s - 1]) && q[1..] == rest;
        assert QueueJobs(q) == own + QueueJobs(rest);
      } else {
        assert BuildQueue(buckets, s) == rest;
        assert own == [];
      }
    }
  }

  lemma {:induction false} BucketJobsOfDistribute(products: seq<Product>, s: nat)
    requires s <= Health.ShelfCount
    ensures BucketJobs(Distribute(products), s) == OrderJobs(products, s)
    decreases s
  {
    if s > 0 {
      var b := Distribute(products);
      DistributeIsRoutedTo(products, s);
      assert b[s - 1] == RoutedTo(products, s);
      BucketJobsOfDistribute(products, s - 1);
      assert BucketJobs(b, s) == JobsOf(Some(s), b[s - 1]) + BucketJobs(b, s - 1);
      assert OrderJobs(products, s) == JobsOf(Some(s), RoutedTo(products, s)) + OrderJobs(products, s - 1);
    }
  }

  /**
   An order whose ids all fall outside every range is rejected with "No
   valid items to process" and changes nothing: no publish, no event, no
   result. Any other order is started.
   */
  lemma SubmitRejectsUnroutable(m: Machine, products: seq<Product>)
    requires Idle(m)
    ensures var (r, outcome) := Submit(m, products);
      && (outcome.RejectedWith? <==> forall k :: 0 <= k < |products| ==> RouteOf(products[k].id).None?)
      && (outcome.RejectedWith? ==> outcome.reason == "No valid items to process" && r == m)
  {
    RejectedIffNothingRoutes(products);
  }

  /** The queue of an accepted order lists the order's jobs. */
  lemma PlannedJobs(products: seq<Product>)
    requires exists k :: 0 <= k < |products| && RouteOf(products[k].id).Some?
    ensures PlanOrder(products).Queued?
    ensures QueueJobs(PlanOrder(products).queue) == OrderJobs(products, Health.ShelfCount)
  {
    var q := BuildQueue(Distribute(products), Health.ShelfCount);
    RejectedIffNothingRoutes(products);
    assert |q| > 0;
    assert PlanOrder(products) == Queued(q);
    QueueJobsOfBuildQueue(Distribute(products), Health.ShelfCount);
    BucketJobsOfDistribute(products, Health.ShelfCount);
  }

  /** Starting a session on queue `q` from an idle dispenser runs q's jobs forward and keeps the invariant. */
  lemma StartEffect(m: Machine, q: seq<Batch>)
    requires Idle(m) && Inv(m)
    ensures var r := NextShelf(m.(queue := q, resolverPending := true));
      var J := QueueJobs(q);
      var k := FirstOnline(m.shelves, J);
      && r.shelves == m.shelves
      && r.events == m.events + AdvanceEvents(m.shelves, J)
      && r.publishes == m.publishes + AdvancePublishes(m.shelves, J)
      && Pending(r) == J[k..]
      && r.results == m.results + (if k == |J| then [OrderResult(true)] else [])
      && Inv(r)
  {
    var m0 := m.(queue := q, resolverPending := true);
    StartFollows(m, q);
    StartKeepsInv(m, q, NextShelf(m0));
  }

  /** Starting a session runs the queue's jobs forward as the work list says. */
  lemma StartFollows(m: Machine, q: seq<Batch>)
    requires Idle(m)
    ensures var m0 := m.(queue := q, resolverPending := true);
      Pending(m0) == QueueJobs(q) && Follows(m0, NextShelf(m0))
  {
    var m0 := m.(queue := q, resolverPending := true);
    assert NextItem(m0) == NextShelf(m0);
    assert Pending(m0) == QueueJobs(q);
    NextItemFollowsWorkList(m0);
  }

  /** The invariant holds once a session has started from an idle dispenser. */
  lemma StartKeepsInv(m: Machine, q: seq<Batch>, r: Machine)
    requires Idle(m) && Inv(m)
    requires var m0 := m.(queue := q, resolverPending := true);
      Pending(m0) == QueueJobs(q) && Follows(m0, r)
    ensures Inv(r)
  {
    var J := QueueJobs(q);
    AdvanceCounts(m.shelves, J);
    var E := AdvanceEvents(m.shelves, J);
    CountStatusAppend(m.events, E, Dispensing);
    CountStatusAppend(m.events, E, Dispensed);
    CountStatusAppend(m.events, E, Failed);
  }

  /**
   An accepted order starts the session on the order's jobs: shelves in
   descending order, items of a shelf in input order. It runs them forward
   (Disconnected for leading offline items, then one publish and
   Dispensing, or straight to completion), and keeps the invariant.
   */
  lemma SubmitStartsSession(m: Machine, products: seq<Product>)
    requires Idle(m) && Inv(m)
    requires exists k :: 0 <= k < |products| && RouteOf(products[k].id).Some?
    ensures var (r, outcome) := Submit(m, products);
      var J := OrderJobs(products, Health.ShelfCount);
      var k := FirstOnline(m.shelves, J);
      && outcome == Started
      && r.shelves == m.shelves
      && r.events == m.events + AdvanceEvents(m.shelves, J)
      && r.publishes == m.publishes + AdvancePublishes(m.shelves, J)
      && Pending(r) == J[k..]
      && r.results == m.results + (if k == |J| then [OrderResult(true)] else [])
      && Inv(r)
  {
    PlannedJobs(products);
    StartEffect(m, PlanOrder(products).queue);
  }
}
