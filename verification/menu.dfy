/**
  The fixed menu and the pure half of placing an order: resolving the
  requested item ids against the menu, summing the prices and deciding
  whether the request is accepted.
 */
module Menu {
  import opened Wrappers

  /** One sellable item. */
  datatype MenuItem = MenuItem(id: int, name: string, price: int, category: string)

  /** The catalogue every order is resolved against; it never changes. */
  const Catalogue: seq<MenuItem> := [
    MenuItem(1, "Pizza", 10, "Main"),
    MenuItem(2, "Burger", 5, "Main"),
    MenuItem(3, "Pasta", 7, "Main"),
    MenuItem(4, "Salad", 4, "Side"),
    MenuItem(5, "Coke", 2, "Drink")
  ]

  /** No two menu entries share an id. */
  predicate UniqueIds(menu: seq<MenuItem>)
  {
    forall i, j :: 0 <= i < j < |menu| ==> menu[i].id != menu[j].id
  }

  /** Every price on the menu is non-negative. */
  predicate NonNegativePrices(menu: seq<MenuItem>)
  {
    forall i :: 0 <= i < |menu| ==> menu[i].price >= 0
  }

  /** The catalogue has unique ids and non-negative prices. */
  lemma CatalogueWellFormed()
    ensures UniqueIds(Catalogue) && NonNegativePrices(Catalogue)
  {
  }

  /** The ids the menu offers. */
  function Ids(menu: seq<MenuItem>): (r: set<int>)
    ensures forall m :: m in menu ==> m.id in r
    ensures forall x :: x in r ==> exists i :: 0 <= i < |menu| && menu[i].id == x
  {
    if menu == [] then {} else {menu[0].id} + Ids(menu[1..])
  }

  /** The set of ids in a request. */
  function Elems(s: seq<int>): (r: set<int>)
    ensures forall x :: x in r <==> x in s
  {
    if s == [] then {} else {s[0]} + Elems(s[1..])
  }

  /** No id is requested twice. */
  predicate Distinct(s: seq<int>)
  {
    forall i, j :: 0 <= i < j < |s| ==> s[i] != s[j]
  }

  /**
    `r` is `s` with some entries dropped, the rest kept in their order
    (matching each entry of `r` at its earliest possible place in `s`).
   */
  predicate SubsequenceOf(r: seq<MenuItem>, s: seq<MenuItem>)
    decreases |s|
  {
    if r == [] then true
    else if s == [] then false
    else if r[0] == s[0] then SubsequenceOf(r[1..], s[1..])
    else SubsequenceOf(r, s[1..])
  }

  /**
    The menu entries whose id occurs in the request, in menu order: one
    entry per menu item, however often its id is requested.
   */
  function Select(menu: seq<MenuItem>, requested: seq<int>): seq<MenuItem>
  {
    if menu == [] then []
    else if menu[0].id in requested then [menu[0]] + Select(menu[1..], requested)
    else Select(menu[1..], requested)
  }

  /** The filter keeps exactly the menu entries whose id was requested. */
  lemma {:induction false} SelectMembers(menu: seq<MenuItem>, requested: seq<int>)
    ensures forall m :: m in Select(menu, requested) <==> m in menu && m.id in requested
  {
    if menu != [] {
      SelectMembers(menu[1..], requested);
      assert menu == [menu[0]] + menu[1..];
    }
  }

  /** The filter keeps the entries it selects in menu order. */
  lemma {:induction false} SelectInMenuOrder(menu: seq<MenuItem>, requested: seq<int>)
    ensures SubsequenceOf(Select(menu, requested), menu)
  {
    if menu != [] {
      var r := Select(menu, requested);
      SelectInMenuOrder(menu[1..], requested);
      if menu[0].id !in requested && r != [] {
        SelectMembers(menu[1..], requested);
        assert r[0] in r;
      }
    }
  }

  /** The sum of the prices, accumulated from the left starting at 0. */
  function Total(items: seq<MenuItem>): int
  {
    if items == [] then 0 else Total(items[..|items| - 1]) + items[|items| - 1].price
  }

  /** A total of items drawn from a menu without negative prices is non-negative. */
  lemma {:induction false} TotalNonNegative(menu: seq<MenuItem>, items: seq<MenuItem>)
    requires NonNegativePrices(menu)
    requires forall m :: m in items ==> m in menu
    ensures Total(items) >= 0
  {
    if items != [] {
      var init := items[..|items| - 1];
      assert forall m :: m in init ==> m in items;
      TotalNonNegative(menu, init);
      assert items[|items| - 1] in menu;
    }
  }

  /** Why an order is refused. */
  datatype PlaceError = NoItems | InvalidItems

  /** The message each refusal answers with. */
  function Message(e: PlaceError): string
  {
    match e
    case NoItems => "No items in the order."
    case InvalidItems => "Some items are invalid."
  }

  /** The head of a menu with unique ids does not occur again in its tail. */
  lemma HeadIdNotInTail(menu: seq<MenuItem>)
    requires UniqueIds(menu) && menu != []
    ensures menu[0].id !in Ids(menu[1..])
    ensures UniqueIds(menu[1..])
  {
    var tail := menu[1..];
    forall x | x in Ids(tail)
      ensures x != menu[0].id
    {
      var k :| 0 <= k < |tail| && tail[k].id == x;
      assert menu[k + 1].id == x;
    }
  }

  /** The requested ids on a menu are those on its tail, plus its head's id if requested. */
  lemma RequestedIdsCons(menu: seq<MenuItem>, requested: seq<int>)
    requires menu != []
    ensures Ids(menu) * Elems(requested)
         == (if menu[0].id in requested then {menu[0].id} else {}) + Ids(menu[1..]) * Elems(requested)
  {
  }

  /** With unique menu ids, the filter keeps one entry per requested id that is on the menu. */
  lemma {:induction false} SelectSize(menu: seq<MenuItem>, requested: seq<int>)
    requires UniqueIds(menu)
    ensures |Select(menu, requested)| == |Ids(menu) * Elems(requested)|
  {
    if menu != [] {
      var tail := menu[1..];
      var h := menu[0].id;
      HeadIdNotInTail(menu);
      SelectSize(tail, requested);
      var rest := Ids(tail) * Elems(requested);
      RequestedIdsCons(menu, requested);
      if h in requested {
        assert Select(menu, requested) == [menu[0]] + Select(tail, requested);
        assert h !in rest;
      } else {
        assert Select(menu, requested) == Select(tail, requested);
      }
    }
  }

  /** Dropping a first entry that does not recur keeps a request distinct, and vice versa. */
  lemma DistinctTail(s: seq<int>)
    requires s != [] && s[0] !in s[1..]
    ensures Distinct(s) <==> Distinct(s[1..])
  {
    var tail := s[1..];
    if Distinct(tail) {
      forall i, j | 0 <= i < j < |s|
        ensures s[i] != s[j]
      {
        assert s[j] == tail[j - 1];
        if i > 0 {
          assert s[i] == tail[i - 1];
        }
      }
    }
  }

  /** A request has at least as many entries as distinct ids, and as many exactly when no id repeats. */
  lemma {:induction false} ElemsSize(s: seq<int>)
    ensures |Elems(s)| <= |s|
    ensures |Elems(s)| == |s| <==> Distinct(s)
  {
    if s != [] {
      var tail := s[1..];
      ElemsSize(tail);
      assert Elems(s) == {s[0]} + Elems(tail);
      if s[0] in tail {
        var k :| 0 <= k < |tail| && tail[k] == s[0];
        assert s[k + 1] == s[0];
        assert Elems(s) == Elems(tail);
      } else {
        DistinctTail(s);
      }
    }
  }

  /**
    The filter yields one entry per requested id exactly when every requested
    id is on the menu and no id is requested twice.
   */
  lemma Acceptance(menu: seq<MenuItem>, requested: seq<int>)
    requires UniqueIds(menu)
    ensures |Select(menu, requested)| == |requested|
        <==> (forall x :: x in requested ==> x in Ids(menu)) && Distinct(requested)
  {
    SelectSize(menu, requested);
    ElemsSize(requested);
    var hit := Ids(menu) * Elems(requested);
    var missed := Elems(requested) - Ids(menu);
    assert Elems(requested) == hit + missed;
    assert hit * missed == {};
    assert |Elems(requested)| == |hit| + |missed|;
    if forall x :: x in requested ==> x in Ids(menu) {
      assert missed == {};
    } else {
      var x :| x in requested && x !in Ids(menu);
      assert x in missed;
    }
  }

  /**
    The checks made before an order is created: a missing or empty item list
    is refused with NoItems, a request the menu does not resolve one entry per
    id is refused with InvalidItems, otherwise the resolved items.
   */
  function Validate(menu: seq<MenuItem>, items: Option<seq<int>>): (r: Result<seq<MenuItem>, PlaceError>)
    requires UniqueIds(menu)
    ensures items.None? || items.value == [] <==> r == Err(NoItems)
    ensures items.Some? && items.value != [] ==>
      (r.Ok? <==> (forall x :: x in items.value ==> x in Ids(menu)) && Distinct(items.value))
    ensures items.Some? && items.value != [] && r.Err? ==> r.error == InvalidItems
    ensures r.Ok? ==> items.Some? && |r.value| == |items.value| > 0
    ensures r.Ok? ==> forall m :: m in r.value <==> m in menu && m.id in items.value
    ensures r.Ok? ==> SubsequenceOf(r.value, menu)
  {
    if items.None? || |items.value| == 0 then Err(NoItems)
    else
      var selected := Select(menu, items.value);
      Acceptance(menu, items.value);
      SelectMembers(menu, items.value);
      SelectInMenuOrder(menu, items.value);
      if |selected| != |items.value| then Err(InvalidItems) else Ok(selected)
  }
}
