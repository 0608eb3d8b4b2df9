/**
  Worked examples: how concrete requests against the catalogue are resolved
  or refused, and a client run of requests and advancer firings.
 */
module Scenario {
  import opened Wrappers
  import opened Menu
  import opened Orders

  /** Burger then Pizza is accepted; the items come out in menu order and cost 15. */
  lemma SampleAccepted()
    ensures Validate(Catalogue, Some([2, 1])) == Ok([Catalogue[0], Catalogue[1]])
    ensures Total([Catalogue[0], Catalogue[1]]) == 15
  {
    CatalogueWellFormed();
    var c, r := Catalogue, [2, 1];
    assert Select(c[5..], r) == [];
    assert Select(c[4..], r) == [];
    assert Select(c[3..], r) == [];
    assert Select(c[2..], r) == [];
    assert Select(c[1..], r) == [c[1]];
    assert Select(c, r) == [c[0], c[1]];
  }

  /** A single Coke is accepted. */
  lemma SampleSingle()
    ensures Validate(Catalogue, Some([5])) == Ok([Catalogue[4]])
  {
    CatalogueWellFormed();
    var c := Catalogue;
    assert Select(c[5..], [5]) == [];
    assert Select(c[4..], [5]) == [c[4]];
    assert Select(c[3..], [5]) == [c[4]];
    assert Select(c[2..], [5]) == [c[4]];
    assert Select(c[1..], [5]) == [c[4]];
    assert Select(c, [5]) == [c[4]];
  }

  /** A missing or empty item list is refused with NoItems. */
  lemma SampleEmpty()
    ensures Validate(Catalogue, None) == Err(NoItems)
    ensures Validate(Catalogue, Some([])) == Err(NoItems)
  {
    CatalogueWellFormed();
  }

  /** An id that is not on the menu is refused with InvalidItems. */
  lemma SampleUnknown()
    ensures Validate(Catalogue, Some([99])) == Err(InvalidItems)
  {
    CatalogueWellFormed();
    var c := Catalogue;
    assert Select(c[5..], [99]) == [];
    assert Select(c[4..], [99]) == [];
    assert Select(c[3..], [99]) == [];
    assert Select(c[2..], [99]) == [];
    assert Select(c[1..], [99]) == [];
    assert Select(c, [99]) == [];
  }

  /** The same id twice is refused with InvalidItems, not kept as a quantity. */
  lemma SampleDuplicate()
    ensures Validate(Catalogue, Some([3, 3])) == Err(InvalidItems)
  {
    CatalogueWellFormed();
    assert [3, 3][0] == [3, 3][1];
  }

  /** A client's first steps on an empty service: two accepted requests with a refused one between them. */
  method PlaceTwo(service: OrderService, first: seq<int>, bad: Option<seq<int>>, second: seq<int>)
    requires service.Valid() && service.orders == [] && service.queue == []
    requires Validate(service.menu, Some(first)).Ok? && Validate(service.menu, Some(second)).Ok?
    requires Validate(service.menu, bad).Err?
    modifies service
    ensures service.Valid()
    ensures |service.orders| == 2 && service.queue == [1, 2]
    ensures service.orders[0].items == Validate(service.menu, Some(first)).value
    ensures service.orders[1].items == Validate(service.menu, Some(second)).value
  {
    var one := service.PlaceOrder(Some(first));
    assert one.Ok? && service.queue == [1];
    var refused := service.PlaceOrder(bad);
    assert refused.Err? && |service.orders| == 1;
    var two := service.PlaceOrder(Some(second));
    assert two.Ok?;
  }

  /** The first firing after two orders: order 1 goes In Progress, order 2 waits. */
  method FirstTick(service: OrderService)
    requires service.Valid() && |service.orders| == 2 && service.queue == [1, 2]
    modifies service
    ensures service.Valid() && service.queue == [2]
    ensures service.orders == old(service.orders)[0 := old(service.orders)[0].(status := InProgress)]
  {
    service.Tick();
    var got := service.GetOrder(1);
    assert got.Ok? && got.value.status == InProgress;
    got := service.GetOrder(2);
    assert got.Ok? && got.value.status == Pending;
  }

  /**
    Two more firings: the second advances order 2, the third finds the queue
    empty and changes nothing, so neither order reaches Completed.
   */
  method LaterTicks(service: OrderService)
    requires service.Valid() && |service.orders| == 2 && service.queue == [2]
    modifies service
    ensures service.Valid() && service.queue == []
    ensures service.orders == old(service.orders)[1 := old(service.orders)[1].(status := InProgress)]
  {
    service.Tick();
    service.Tick();
    var got := service.GetOrder(1);
    assert got.Ok? && got.value.status == InProgress;
    got := service.GetOrder(2);
    assert got.Ok? && got.value.status == InProgress;
    got := service.GetOrder(3);
    assert got.Err? && got.error.NotFound?;
  }

  /**
    A client of an empty service: two accepted requests and a refused one,
    then three firings of the advancer. Each order is advanced exactly once
    and keeps its items.
   */
  method Lifecycle(service: OrderService, first: seq<int>, bad: Option<seq<int>>, second: seq<int>)
    requires service.Valid() && service.orders == [] && service.queue == []
    requires Validate(service.menu, Some(first)).Ok? && Validate(service.menu, Some(second)).Ok?
    requires Validate(service.menu, bad).Err?
    modifies service
  {
    PlaceTwo(service, first, bad, second);
    FirstTick(service);
    LaterTicks(service);
    assert service.orders[0].status == service.orders[1].status == InProgress;
    assert service.orders[0].items == Validate(service.menu, Some(first)).value;
  }

  /** The run above with the requests of the worked examples. */
  method Run()
  {
    SampleAccepted();
    SampleSingle();
    SampleDuplicate();
    var service := new OrderService();
    Lifecycle(service, [2, 1], Some([3, 3]), [5]);
  }
}
