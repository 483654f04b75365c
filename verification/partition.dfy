/**
 Order partitioner: routes each ordered product to a shelf through a fixed
 table of id ranges, builds the `"id,quantity"` item strings, and queues the
 non-empty per-shelf batches in descending shelf order.
 */
module Partition {
  import opened Wrappers
  import opened ItemCodec
  import Health

  /** One line of an order as the dispenser receives it. */
  datatype Product = Product(id: int, quantity: int)

  /** The items routed to one shelf, as command payload strings. */
  datatype Batch = Batch(shelf: int, items: seq<string>)

  /** Inclusive product-id range served by one shelf. */
  datatype IdRange = IdRange(low: int, high: int)

  /** The routing table: shelf `s` serves ids in `RouteTable[s - 1]`. */
  const RouteTable: seq<IdRange> :=
    [IdRange(1, 4), IdRange(5, 8), IdRange(9, 16), IdRange(17, 24), IdRange(25, 32)]

  const NoValidItems: string := "No valid items to process"

  predicate Serves(shelf: int, id: int) {
    Health.ValidShelf(shelf) && RouteTable[shelf - 1].low <= id <= RouteTable[shelf - 1].high
  }

  /**
   The if-else chain that picks a shelf 1..5 for a product id; it drops the
   id exactly when it lies outside 1..32.
   */
  function RouteOf(id: int): (r: Option<int>)
    ensures r.Some? ==> Health.ValidShelf(r.value)
    ensures r.None? <==> (id < 1 || id > 32)
  {
    if 1 <= id <= 4 then Some(1)
    else if 5 <= id <= 8 then Some(2)
    else if 9 <= id <= 16 then Some(3)
    else if 17 <= id <= 24 then Some(4)
    else if 25 <= id <= 32 then Some(5)
    else None
  }

  /** The chain agrees with the table: an id goes to shelf `s` exactly when `s`'s range holds it. */
  lemma RouteOfMatchesTable(id: int, shelf: int)
    ensures RouteOf(id) == Some(shelf) <==> Serves(shelf, id)
  {
  }

  /** The ranges do not overlap and together cover exactly the ids 1..32. */
  lemma RangesPartitionIds(id: int)
    ensures forall s, t :: Serves(s, id) && Serves(t, id) ==> s == t
    ensures (exists s :: Serves(s, id)) <==> 1 <= id <= 32
  {
    if 1 <= id <= 32 {
      RouteOfMatchesTable(id, RouteOf(id).value);
    }
  }

  /** The payload built for a product. */
  function ItemOf(p: Product): string {
    Encode(p.id, p.quantity)
  }

  /** How many products of the order have a shelf. */
  function RoutableCount(products: seq<Product>): nat {
    if |products| == 0 then 0
    else RoutableCount(products[1..]) + (if RouteOf(products[0].id).Some? then 1 else 0)
  }

  lemma {:induction false} RoutableCountAppend(products: seq<Product>, p: Product)
    ensures RoutableCount(products + [p]) == RoutableCount(products) + (if RouteOf(p.id).Some? then 1 else 0)
    decreases |products|
  {
    if |products| > 0 {
      assert (products + [p])[1..] == products[1..] + [p];
      RoutableCountAppend(products[1..], p);
    } else {
      assert [p][1..] == [];
    }
  }

  /**
   The `products.forEach` loop: five buckets (bucket `s - 1` for shelf `s`),
   each product's item pushed onto the bucket of its shelf, unroutable
   products skipped.
   */
  function Distribute(products: seq<Product>): (b: seq<seq<string>>)
    ensures |b| == Health.ShelfCount
    ensures |b[0]| + |b[1]| + |b[2]| + |b[3]| + |b[4]| == RoutableCount(products)
    decreases |products|
  {
    if |products| == 0 then [[], [], [], [], []]
    else
      var b := Distribute(products[..|products| - 1]);
      var p := products[|products| - 1];
      RoutableCountAppend(products[..|products| - 1], p);
      assert products[..|products| - 1] + [p] == products;
      match RouteOf(p.id)
      case None => b
      case Some(s) => b[s - 1 := b[s - 1] + [ItemOf(p)]]
  }

  /** Reference definition: the items of the products routed to `shelf`, in input order. */
  function RoutedTo(products: seq<Product>, shelf: int): seq<string> {
    if |products| == 0 then []
    else (if RouteOf(products[0].id) == Some(shelf) then [ItemOf(products[0])] else [])
         + RoutedTo(products[1..], shelf)
  }

  /** Some batch of `q` is for `shelf`. */
  predicate HasBatch(q: seq<Batch>, shelf: int) {
    exists i :: 0 <= i < |q| && q[i].shelf == shelf
  }

  /** Some product of the order routes to `shelf`. */
  predicate SomeRoutesTo(products: seq<Product>, shelf: int) {
    exists k :: 0 <= k < |products| && RouteOf(products[k].id) == Some(shelf)
  }

  function Bucket(buckets: seq<seq<string>>, shelf: int): seq<string>
    requires |buckets| == Health.ShelfCount && Health.ValidShelf(shelf)
  {
    buckets[shelf - 1]
  }

  /** The queue-building loop for shelves `s` down to 1, keeping non-empty buckets. */
  function BuildQueue(buckets: seq<seq<string>>, s: nat): (q: seq<Batch>)
    requires |buckets| == Health.ShelfCount && s <= Health.ShelfCount
    ensures forall i :: 0 <= i < |q| ==>
              1 <= q[i].shelf <= s && q[i].items == buckets[q[i].shelf - 1] && |q[i].items| > 0
    ensures forall i, j :: 0 <= i < j < |q| ==> q[i].shelf > q[j].shelf
    ensures forall t :: 1 <= t <= s ==> (|Bucket(buckets, t)| > 0 <==> HasBatch(q, t))
  {
    if s == 0 then []
    else
      var rest := BuildQueue(buckets, s - 1);
      if |buckets[s - 1]| > 0 then
        HasBatchCons(Batch(s, buckets[s - 1]), rest);
        [Batch(s, buckets[s - 1])] + rest
      else rest
  }

  lemma HasBatchCons(b: Batch, rest: seq<Batch>)
    ensures forall t :: HasBatch([b] + rest, t) <==> b.shelf == t || HasBatch(rest, t)
  {
    var q := [b] + rest;
    forall t
      ensures HasBatch(q, t) <==> b.shelf == t || HasBatch(rest, t)
    {
      if HasBatch(rest, t) {
        var i :| 0 <= i < |rest| && rest[i].shelf == t;
        assert q[i + 1] == rest[i];
      }
      if HasBatch(q, t) && b.shelf != t {
        var i :| 0 <= i < |q| && q[i].shelf == t;
        assert q[i] == rest[i - 1];
      }
      assert q[0] == b;
    }
  }

  /** What `sendOrderMQTT` decides before dispensing starts. */
  datatype Plan = Queued(queue: seq<Batch>) | Rejected(reason: string)

  /** Partition an order into its batch queue, or reject it when nothing routes. */
  function PlanOrder(products: seq<Product>): (r: Plan)
    ensures r.Rejected? ==> r.reason == NoValidItems
    ensures r.Queued? ==> |r.queue| > 0
    ensures r.Queued? ==> forall i :: 0 <= i < |r.queue| ==>
              Health.ValidShelf(r.queue[i].shelf) && |r.queue[i].items| > 0
    ensures r.Queued? ==> forall i, j :: 0 <= i < j < |r.queue| ==> r.queue[i].shelf > r.queue[j].shelf
  {
    var q := BuildQueue(Distribute(products), Health.ShelfCount);
    if |q| == 0 then Rejected(NoValidItems) else Queued(q)
  }

  lemma {:induction false} RoutedToAppend(products: seq<Product>, p: Product, shelf: int)
    ensures RoutedTo(products + [p], shelf)
            == RoutedTo(products, shelf) + (if RouteOf(p.id) == Some(shelf) then [ItemOf(p)] else [])
    decreases |products|
  {
    var tail := if RouteOf(p.id) == Some(shelf) then [ItemOf(p)] else [];
    if |products| == 0 {
      assert [p][1..] == [];
      assert RoutedTo([p], shelf) == tail + RoutedTo([], shelf);
      assert products + [p] == [p];
    } else {
      var q := products + [p];
      var head := if RouteOf(products[0].id) == Some(shelf) then [ItemOf(products[0])] else [];
      var mid := RoutedTo(products[1..], shelf);
      assert q[0] == products[0];
      assert q[1..] == products[1..] + [p];
      assert RoutedTo(q, shelf) == head + RoutedTo(products[1..] + [p], shelf);
      RoutedToAppend(products[1..], p, shelf);
      assert RoutedTo(products, shelf) == head + mid;
      assert head + (mid + tail) == (head + mid) + tail;
    }
  }

  /** Bucket `s - 1` after the forEach loop holds exactly the items routed to shelf `s`, in order. */
  lemma {:induction false} DistributeIsRoutedTo(products: seq<Product>, shelf: int)
    requires Health.ValidShelf(shelf)
    ensures Distribute(products)[shelf - 1] == RoutedTo(products, shelf)
    decreases |products|
  {
    if |products| > 0 {
      var init := products[..|products| - 1];
      var p := products[|products| - 1];
      assert init + [p] == products;
      DistributeIsRoutedTo(init, shelf);
      RoutedToAppend(init, p, shelf);
      DistributeStep(init, p, shelf);
    }
  }

  /** One more product adds its item to its own shelf's bucket and to no other. */
  lemma DistributeStep(init: seq<Product>, p: Product, shelf: int)
    requires Health.ValidShelf(shelf)
    ensures Distribute(init + [p])[shelf - 1]
            == Distribute(init)[shelf - 1] + (if RouteOf(p.id) == Some(shelf) then [ItemOf(p)] else [])
  {
    var products := init + [p];
    assert products[..|products| - 1] == init;
    assert products[|products| - 1] == p;
    var b := Distribute(init);
    if RouteOf(p.id) == Some(shelf) {
      assert Distribute(products) == b[shelf - 1 := b[shelf - 1] + [ItemOf(p)]];
    } else if RouteOf(p.id).Some? {
      var s := RouteOf(p.id).value;
      assert Distribute(products) == b[s - 1 := b[s - 1] + [ItemOf(p)]];
    } else {
      assert Distribute(products) == b;
    }
  }

  /** No product routes to `shelf` exactly when its routed item list is empty. */
  lemma {:induction false} RoutedToEmpty(products: seq<Product>, shelf: int)
    ensures |RoutedTo(products, shelf)| == 0 <==>
            forall i :: 0 <= i < |products| ==> RouteOf(products[i].id) != Some(shelf)
    decreases |products|
  {
    if |products| > 0 {
      RoutedToEmpty(products[1..], shelf);
      assert forall i :: 1 <= i < |products| ==> products[i] == products[1..][i - 1];
    }
  }

  /**
   The built queue: strictly descending shelf ids; each batch non-empty and
   holding exactly the routed items of its shelf in input order; a shelf gets
   a batch exactly when some product routes to it.
   */
  lemma QueueShape(products: seq<Product>)
    ensures var q := BuildQueue(Distribute(products), Health.ShelfCount);
      && (forall i, j :: 0 <= i < j < |q| ==> q[i].shelf > q[j].shelf)
      && (forall i :: 0 <= i < |q| ==>
            Health.ValidShelf(q[i].shelf) && |q[i].items| > 0
            && q[i].items == RoutedTo(products, q[i].shelf))
      && (forall t :: Health.ValidShelf(t) ==> (HasBatch(q, t) <==> SomeRoutesTo(products, t)))
  {
    var b := Distribute(products);
    var q := BuildQueue(b, Health.ShelfCount);
    forall t | Health.ValidShelf(t)
      ensures b[t - 1] == RoutedTo(products, t)
    {
      DistributeIsRoutedTo(products, t);
    }
    forall t | Health.ValidShelf(t)
      ensures HasBatch(q, t) <==> SomeRoutesTo(products, t)
    {
      RoutedToEmpty(products, t);
    }
  }

  /**
   An order is rejected, with the message "No valid items to process",
   exactly when no product id falls in any shelf's range; otherwise it is
   queued.
   */
  lemma RejectedIffNothingRoutes(products: seq<Product>)
    ensures PlanOrder(products).Rejected? <==>
            forall k :: 0 <= k < |products| ==> RouteOf(products[k].id).None?
    ensures PlanOrder(products).Rejected? ==> PlanOrder(products).reason == NoValidItems
  {
    var q := BuildQueue(Distribute(products), Health.ShelfCount);
    QueueShape(products);
    if |q| > 0 {
      assert HasBatch(q, q[0].shelf);
    } else {
      forall k | 0 <= k < |products|
        ensures RouteOf(products[k].id).None?
      {
        assert !HasBatch(q, 1) && !HasBatch(q, 2) && !HasBatch(q, 3) && !HasBatch(q, 4) && !HasBatch(q, 5);
      }
    }
  }
}
