/**
 A worked order: shelf 1 online, shelf 5 offline, products 1 and 30.
 */
module Scenario {
  import opened Wrappers
  import opened Decimal
  import opened ItemCodec
  import opened Partition
  import opened Session
  import Health

  const Order: seq<Product> := [Product(1, 1), Product(30, 2)]

  /** Only shelf 1 has sent a heartbeat (at t = 1000 ms). */
  const ShelfOneUp: Machine := Step(Initial, Heartbeat(1, 1000))

  lemma ScenarioItems()
    ensures ItemOf(Product(1, 1)) == "1,1" && ItemOf(Product(30, 2)) == "30,2"
    ensures ItemId("1,1") == Int(1) && ItemId("30,2") == Int(30)
  {
    assert Encode(1, 1) == "1,1";
    assert Encode(30, 2) == "30,2";
    ItemIdOfEncode(1, 1);
    ItemIdOfEncode(30, 2);
  }

  /** Partitioning the order: shelf 5's batch first, then shelf 1's. */
  lemma ScenarioPlan()
    ensures PlanOrder(Order) == Queued([Batch(5, ["30,2"]), Batch(1, ["1,1"])])
  {
    ScenarioItems();
    var empty: seq<seq<string>> := [[], [], [], [], []];
    assert Order[..1] == [Product(1, 1)];
    assert [Product(1, 1)][..0] == [];
    var p1 := Product(1, 1);
    assert RouteOf(p1.id) == Some(1);
    assert [p1][..|[p1]| - 1] == [];
    assert Distribute([]) == empty;
    assert Distribute([p1]) == Distribute([])[0 := Distribute([])[0] + [ItemOf(p1)]];
    assert Distribute([])[0] + [ItemOf(p1)] == ["1,1"];
    assert Distribute([Product(1, 1)]) == empty[0 := ["1,1"]];
    var p2 := Product(30, 2);
    assert RouteOf(p2.id) == Some(5);
    assert Order[..|Order| - 1] == [p1];
    assert Order[|Order| - 1] == p2;
    var d1 := empty[0 := ["1,1"]];
    assert d1[4] + [ItemOf(p2)] == ["30,2"];
    assert Distribute(Order) == d1[4 := d1[4] + [ItemOf(p2)]];
    assert Distribute(Order) == empty[0 := ["1,1"]][4 := ["30,2"]];
    assert empty[0 := ["1,1"]][4 := ["30,2"]] == [["1,1"], [], [], [], ["30,2"]];
  }

  /** Shelf 5 is offline: its item is reported Disconnected and shelf 1's batch is opened. */
  lemma ScenarioSkipShelfFive(b: Machine)
    requires b.currentShelf == Some(5) && b.currentItems == ["30,2"] && b.queue == [Batch(1, ["1,1"])]
    requires !Health.IsOnline(b.shelves, 5)
    ensures NextItem(b) == NextItem(OpenBatch(SkipItem(b)))
    ensures OpenBatch(SkipItem(b)).events == b.events + [OrderStatus(Int(30), Disconnected)]
  {
    ScenarioItems();
    var c := SkipItem(b);
    assert c.currentItems == [];
    assert NextItem(b) == NextItem(c);
    assert NextItem(c) == NextShelf(c);
  }

  /** Shelf 1 is online: its item is published and reported Dispensing. */
  lemma ScenarioPublishShelfOne(d: Machine)
    requires d.currentShelf == Some(1) && d.currentItems == ["1,1"] && d.queue == []
    requires Health.IsOnline(d.shelves, 1)
    ensures var r := NextItem(d);
      && r.events == d.events + [OrderStatus(Int(1), Dispensing)]
      && r.publishes == d.publishes + [Publish("vending/shelf/1", "1,1")]
      && r.currentShelf == Some(1) && r.currentItems == ["1,1"] && r.queue == []
      && r.timer == Armed(Int(1)) && r.resolverPending == d.resolverPending && r.results == d.results
  {
    ScenarioItems();
    assert CommandTopic(1) == "vending/shelf/1";
  }

  /**
   Submitting the order: item 30 is reported Disconnected at once, item 1
   is published to shelf 1 and reported Dispensing, and the session waits
   for shelf 1.
   */
  lemma ScenarioSubmit()
    ensures var (m1, outcome) := Submit(ShelfOneUp, Order);
      && outcome == Started
      && m1.events == [OrderStatus(Int(30), Disconnected), OrderStatus(Int(1), Dispensing)]
      && m1.publishes == [Publish("vending/shelf/1", "1,1")]
      && m1.currentShelf == Some(1) && m1.currentItems == ["1,1"] && m1.queue == []
      && m1.timer == Armed(Int(1)) && m1.resolverPending && m1.results == []
  {
    var m0 := ShelfOneUp;
    assert Health.IsOnline(m0.shelves, 1) && !Health.IsOnline(m0.shelves, 5);
    assert m0.events == [] && m0.publishes == [] && m0.results == [];
    ScenarioSubmitFrom(m0);
  }

  /** The same submission from any idle dispenser with shelf 1 up, shelf 5 down and empty logs. */
  lemma ScenarioSubmitFrom(m0: Machine)
    requires Idle(m0) && Health.IsOnline(m0.shelves, 1) && !Health.IsOnline(m0.shelves, 5)
    requires m0.events == [] && m0.publishes == [] && m0.results == []
    ensures var (m1, outcome) := Submit(m0, Order);
      && outcome == Started
      && m1.events == [OrderStatus(Int(30), Disconnected), OrderStatus(Int(1), Dispensing)]
      && m1.publishes == [Publish("vending/shelf/1", "1,1")]
      && m1.currentShelf == Some(1) && m1.currentItems == ["1,1"] && m1.queue == []
      && m1.timer == Armed(Int(1)) && m1.resolverPending && m1.results == []
  {
    ScenarioPlan();
    var q := [Batch(5, ["30,2"]), Batch(1, ["1,1"])];
    var a := m0.(queue := q, resolverPending := true);
    assert Submit(m0, Order) == (NextShelf(a), Started);
    var b := OpenBatch(a);
    assert NextShelf(a) == NextItem(b);
    ScenarioSkipShelfFive(b);
    var d := OpenBatch(SkipItem(b));
    assert d.currentShelf == Some(1) && d.currentItems == ["1,1"] && d.queue == [];
    assert d.events == [OrderStatus(Int(30), Disconnected)];
    assert d.publishes == [] && d.results == [] && d.resolverPending;
    ScenarioPublishShelfOne(d);
    assert Submit(m0, Order) == (NextItem(d), Started);
  }

  /** Shelf 1 answers "success": item 1 is reported Dispensed and the order completes with success. */
  lemma ScenarioResponse(m1: Machine)
    requires m1.currentShelf == Some(1) && m1.currentItems == ["1,1"] && m1.queue == []
    requires m1.timer == Armed(Int(1)) && m1.resolverPending && m1.results == []
    ensures var m2 := Step(m1, Response(1, "success"));
      && m2.events == m1.events + [OrderStatus(Int(1), Dispensed), OrderComplete(true)]
      && m2.publishes == m1.publishes
      && m2.results == [OrderResult(true)]
      && m2.currentItems == [] && m2.timer == Disarmed && !m2.resolverPending
  {
    ScenarioItems();
    var f := Finish(m1, Int(1), Dispensed);
    assert f.currentItems == [] && f.queue == [];
    assert f.events == m1.events + [OrderStatus(Int(1), Dispensed)];
    assert Step(m1, Response(1, "success")) == NextItem(f);
    assert NextItem(f) == NextShelf(f);
    assert NextShelf(f).events == f.events + [OrderComplete(true)];
  }

  /**
   Shelf 1's first item times out and its second is published; a late
   "success" from shelf 1 is then credited to the second item, because a
   response is matched by shelf alone.
   */
  lemma LateResponseCreditsNextItem(m: Machine)
    requires m.currentShelf == Some(1) && m.currentItems == ["1,1", "2,1"] && m.queue == []
    requires m.timer == Armed(Int(1)) && Health.IsOnline(m.shelves, 1)
    ensures var m2 := Step(Step(m, TimerFired), Response(1, "success"));
      && m2.events == m.events + [OrderStatus(Int(1), Failed), OrderStatus(Int(2), Dispensing),
                                  OrderStatus(Int(2), Dispensed), OrderComplete(true)]
      && m2.publishes == m.publishes + [Publish("vending/shelf/1", "2,1")]
  {
    ItemIdOfEncode(1, 1);
    ItemIdOfEncode(2, 1);
    assert Encode(1, 1) == "1,1" && Encode(2, 1) == "2,1";
    assert CommandTopic(1) == "vending/shelf/1";
    var f1 := Finish(m, Int(1), Failed);
    assert f1.currentItems == ["2,1"];
    var m1 := NextItem(f1);
    assert Step(m, TimerFired) == m1;
    assert m1.events == m.events + [OrderStatus(Int(1), Failed), OrderStatus(Int(2), Dispensing)];
    assert m1.publishes == m.publishes + [Publish("vending/shelf/1", "2,1")];
    assert m1.currentItems == ["2,1"] && m1.currentShelf == Some(1) && m1.queue == [];
    var f2 := Finish(m1, Int(2), Dispensed);
    assert f2.currentItems == [];
    assert Step(m1, Response(1, "success")) == NextItem(f2);
    assert NextItem(f2) == NextShelf(f2);
  }
}
