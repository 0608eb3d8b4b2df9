/**
  The order lifecycle: the store of placed orders, the FIFO queue of order
  ids waiting for the periodic advancer, and the three operations on them
  (place an order, one firing of the advancer, look an order up).
 */
module Orders {
  import opened Wrappers
  import opened Menu

  /** The stages an order goes through, in this order. */
  datatype Status = Pending | InProgress | Completed

  /** The text the service reports for each stage. */
  function Label(s: Status): (text: string)
    ensures text == "Pending" || text == "In Progress" || text == "Completed"
    ensures s != Pending ==> text != "Pending"
    ensures s != InProgress ==> text != "In Progress"
    ensures s != Completed ==> text != "Completed"
  {
    match s
    case Pending => "Pending"
    case InProgress => "In Progress"
    case Completed => "Completed"
  }

  /** The position of a stage in the progression. */
  function Rank(s: Status): nat
  {
    match s
    case Pending => 0
    case InProgress => 1
    case Completed => 2
  }

  /**
    One step of the advancer on an order's status: Pending becomes In
    Progress, In Progress becomes Completed, Completed stays as it is.
   */
  function Advance(s: Status): (t: Status)
    ensures s != Completed ==> Rank(t) == Rank(s) + 1
    ensures s == Completed ==> t == Completed
  {
    if s == Pending then InProgress
    else if s == InProgress then Completed
    else s
  }

  /** A placed order; only its status ever changes. */
  datatype Order = Order(id: int, items: seq<MenuItem>, total: int, status: Status)

  /** Why a lookup fails. */
  datatype LookupError = NotFound

  /** The message a failed lookup answers with. */
  function LookupMessage(e: LookupError): string
  {
    "Order not found."
  }

  /** The position of the first order carrying `id`, if any. */
  function FindIndex(orders: seq<Order>, id: int): (r: Option<nat>)
    ensures r.None? <==> forall k :: 0 <= k < |orders| ==> orders[k].id != id
    ensures r.Some? ==> r.value < |orders| && orders[r.value].id == id
    ensures r.Some? ==> forall k :: 0 <= k < r.value ==> orders[k].id != id
  {
    if orders == [] then None
    else if orders[0].id == id then Some(0)
    else match FindIndex(orders[1..], id)
      case None => None
      case Some(k) => Some(k + 1)
  }

  /** The first order carrying `id`, if any. */
  function Find(orders: seq<Order>, id: int): (r: Option<Order>)
    ensures r.None? <==> forall k :: 0 <= k < |orders| ==> orders[k].id != id
    ensures r.Some? ==> r.value in orders && r.value.id == id
    ensures r.Some? ==> exists k :: 0 <= k < |orders| && orders[k] == r.value
                                   && forall j :: 0 <= j < k ==> orders[j].id != id
  {
    match FindIndex(orders, id)
    case None => None
    case Some(k) => Some(orders[k])
  }

  /** Orders are numbered 1, 2, 3, ... in the order they were placed. */
  predicate DenseIds(orders: seq<Order>)
  {
    forall k :: 0 <= k < |orders| ==> orders[k].id == k + 1
  }

  /** With dense ids, the lookup of `id` finds position id - 1 exactly when 1 <= id <= |orders|. */
  lemma FindDense(orders: seq<Order>, id: int)
    requires DenseIds(orders)
    ensures FindIndex(orders, id) == if 1 <= id <= |orders| then Some(id - 1) else None
  {
    if 1 <= id <= |orders| {
      assert orders[id - 1].id == id;
    }
  }

  /** What placing an order against `menu` guarantees about the stored record. */
  predicate WellFormed(menu: seq<MenuItem>, o: Order)
  {
    && o.items != []
    && (forall m :: m in o.items ==> m in menu)
    && SubsequenceOf(o.items, menu)
    && o.total == Total(o.items)
  }

  /**
    The state invariant of the service: ids are dense and 1-based; the queue
    holds exactly the ids after the first `served` ones, in increasing order;
    orders the advancer has taken are In Progress, the rest are Pending.
   */
  ghost predicate Consistent(menu: seq<MenuItem>, orders: seq<Order>, queue: seq<int>)
  {
    && UniqueIds(menu)
    && NonNegativePrices(menu)
    && |queue| <= |orders|
    && DenseIds(orders)
    && (forall k :: 0 <= k < |orders| ==> WellFormed(menu, orders[k]))
    && var served := |orders| - |queue|;
       && (forall k :: 0 <= k < |queue| ==> queue[k] == served + k + 1)
       && (forall k :: 0 <= k < |orders| ==> orders[k].status == if k < served then InProgress else Pending)
  }

  /** Storing a well-formed Pending order under the next id and queueing it keeps the invariant. */
  lemma PlacePreserves(menu: seq<MenuItem>, orders: seq<Order>, queue: seq<int>, o: Order)
    requires Consistent(menu, orders, queue)
    requires WellFormed(menu, o) && o.id == |orders| + 1 && o.status == Pending
    ensures Consistent(menu, orders + [o], queue + [o.id])
  {
    var orders', queue' := orders + [o], queue + [o.id];
    forall k | 0 <= k < |orders'|
      ensures orders'[k].id == k + 1 && WellFormed(menu, orders'[k])
    {
      if k < |orders| {
        assert orders'[k] == orders[k];
      }
    }
  }

  /** Taking the head id off the queue and advancing that order keeps the invariant. */
  lemma TickPreserves(menu: seq<MenuItem>, orders: seq<Order>, queue: seq<int>)
    requires Consistent(menu, orders, queue) && queue != []
    ensures var k := queue[0] - 1;
      && 0 <= k < |orders|
      && orders[k].status == Pending
      && Consistent(menu, orders[k := orders[k].(status := Advance(orders[k].status))], queue[1..])
  {
  }

  class OrderService {
    /** The catalogue requests are resolved against. */
    const menu: seq<MenuItem>
    /** Every order ever placed, in the order they were placed. */
    var orders: seq<Order>
    /** Ids of the orders the advancer has not yet taken, oldest first. */
    var queue: seq<int>

    /** The service's state satisfies the invariant. */
    ghost predicate Valid()
      reads this
    {
      Consistent(menu, orders, queue)
    }

    constructor ()
      ensures Valid()
      ensures menu == Catalogue && orders == [] && queue == []
    {
      CatalogueWellFormed();
      menu := Catalogue;
      orders := [];
      queue := [];
    }

    /**
      Places an order for the requested menu item ids. A refused request
      changes nothing; an accepted one is stored under the next id with status
      Pending and that id joins the back of the queue.
     */
    method PlaceOrder(items: Option<seq<int>>) returns (r: Result<Order, PlaceError>)
      requires Valid()
      modifies this
      ensures Valid()
      ensures r.Err? <==> Validate(menu, items).Err?
      ensures r.Err? ==> r.error == Validate(menu, items).error
      ensures r.Err? ==> orders == old(orders) && queue == old(queue)
      ensures r.Ok? ==>
        var selected := Validate(menu, items).value;
        && r.value == Order(|old(orders)| + 1, selected, Total(selected), Pending)
        && orders == old(orders) + [r.value]
        && queue == old(queue) + [r.value.id]
    {
      var checked := Validate(menu, items);
      if checked.Err? {
        return Err(checked.error);
      }
      var orderItems := checked.value;
      var orderId := |orders| + 1;
      var newOrder := Order(orderId, orderItems, Total(orderItems), Pending);
      PlacePreserves(menu, orders, queue, newOrder);
      orders := orders + [newOrder];
      queue := queue + [orderId];
      r := Ok(newOrder);
    }

    /**
      One firing of the periodic advancer: with an empty queue nothing
      happens; otherwise the head id leaves the queue and that order, and no
      other, advances one stage.
     */
    method Tick()
      requires Valid()
      modifies this
      ensures Valid()
      ensures old(queue) == [] ==> orders == old(orders) && queue == old(queue)
      ensures old(queue) != [] ==>
        var k := old(queue)[0] - 1;
        && queue == old(queue)[1..]
        && 0 <= k < |old(orders)|
        && orders == old(orders)[k := old(orders)[k].(status := Advance(old(orders)[k].status))]
        && old(orders)[k].status == Pending
        && orders[k].status == InProgress
    {
      if |queue| > 0 {
        TickPreserves(menu, orders, queue);
        var orderId := queue[0];
        queue := queue[1..];
        FindDense(orders, orderId);
        var k := FindIndex(orders, orderId).value;
        var order := orders[k];
        orders := orders[k := order.(status := Advance(order.status))];
      }
    }

    /** Looks an order up by id; never changes the state. */
    method GetOrder(id: int) returns (r: Result<Order, LookupError>)
      requires Valid()
      ensures r.Ok? <==> 1 <= id <= |orders|
      ensures r.Ok? ==> r.value == orders[id - 1] && r.value.id == id
      ensures r.Err? ==> forall k :: 0 <= k < |orders| ==> orders[k].id != id
    {
      FindDense(orders, id);
      var found := Find(orders, id);
      if found.None? {
        return Err(NotFound);
      }
      r := Ok(found.value);
    }

    /** Every queued id names a stored order, and that order is still Pending. */
    lemma QueuedOrdersResolve()
      requires Valid()
      ensures forall id :: id in queue ==> Find(orders, id).Some? && Find(orders, id).value.status == Pending
    {
      forall id | id in queue
        ensures Find(orders, id).Some? && Find(orders, id).value.status == Pending
      {
        FindDense(orders, id);
      }
    }

    /** No order ever reaches Completed: each is advanced at most once. */
    lemma NeverCompleted()
      requires Valid()
      ensures forall k :: 0 <= k < |orders| ==> orders[k].status != Completed
    {
    }

    /** Every stored total is the non-negative sum of its items' prices. */
    lemma TotalsNonNegative()
      requires Valid()
      ensures forall k :: 0 <= k < |orders| ==> orders[k].total >= 0
    {
      forall k | 0 <= k < |orders|
        ensures orders[k].total >= 0
      {
        TotalNonNegative(menu, orders[k].items);
      }
    }
  }
}
