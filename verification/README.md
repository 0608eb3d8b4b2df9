# Order lifecycle service

This project is a Dafny model of the order lifecycle of a small restaurant
ordering service, an Express server kept in one file, `skill-lab.js`. The
model leaves out the HTTP layer and the timer. What remains is a small
state machine over two in-memory collections:

- the **orders**: every order ever placed, as `{id, items, total, status}`;
- the **order queue**: a FIFO list of order ids that the periodic advancer
  has not yet taken;
- the **menu**: a fixed catalogue of five items that the orders' items
  are drawn from.

Three operations act on this state:

- **place order**: resolve the requested item ids against the menu, refuse
  bad requests, and store and queue the new order;
- **tick**: one firing of the periodic advancer. It takes the head id off
  the queue and moves that order one status stage forward;
- **get order**: look an order up by id.

Modules:

- `Wrappers` (`wrappers.dfy`): `Option` and `Result`.
- `Menu` (`menu.dfy`): the catalogue and the pure part of placing an order.
  This covers the filter `menu.filter(item => items.includes(item.id))`
  (`Select`), the price sum (`Total`) and the two refusals (`Validate`).
  It also holds the lemmas that characterise when a request is accepted.
- `Orders` (`orders.dfy`): statuses and their one-step advance, the
  `orders.find` lookup (`FindIndex`, `Find`), the state invariant
  `Consistent`, and the class `OrderService`. The class holds the two
  collections as `seq` fields, and its methods `PlaceOrder`, `Tick` and
  `GetOrder` update or read them.
- `Scenario` (`scenario.dfy`): worked examples on the catalogue and a
  client run of requests and ticks.

Facts the model makes precise:

- **The filter keeps one entry per menu item.** Menu ids are unique. So a
  non-empty request is accepted exactly when every requested id is on the
  menu and no id is requested twice (`Menu.Acceptance`). A repeated id is
  refused; it is not kept as a quantity. The stored items come out in menu
  order, not request order.
- **The queue is always a contiguous range of ids.** Ids are `|orders| + 1`
  at creation, so they are dense and 1-based. Each id is queued once, in
  increasing order, and leaves the queue at most once, from the front. So
  the queue is always `[served + 1 .. |orders|]`, where `served` counts the orders the advancer
  has taken. Queued orders are Pending and taken orders are In Progress.
- **No order reaches Completed.** The advancer never re-queues an order, so
  each order is advanced at most once (an order still in the queue has not
  been advanced yet). The branch that moves In Progress
  to Completed is never taken. The model keeps that branch (`Advance`) and
  proves that it is never reached (`NeverCompleted`).

## Model

| member | source | states |
|---|---|---|
| `Menu.CatalogueWellFormed` | skill-lab.js:8-14 | The catalogue's ids are pairwise distinct and its prices are non-negative. |
| `Menu.SelectMembers` | skill-lab.js:57 | The filtered items are exactly the menu entries whose id occurs in the request. |
| `Menu.SelectInMenuOrder` | skill-lab.js:57 | The filtered items appear in the same order as on the menu. |
| `Menu.SelectSize` | skill-lab.js:57-58 | With unique menu ids, the filter yields as many items as there are distinct requested ids that are on the menu. |
| `Menu.ElemsSize` | skill-lab.js:58 | A request has at least as many entries as distinct ids. The two counts are equal exactly when no id repeats. |
| `Menu.Acceptance` | skill-lab.js:57-60 | The length check passes if and only if every requested id is on the menu and the ids are pairwise distinct. |
| `Menu.TotalNonNegative` | skill-lab.js:66 | The sum of prices of items taken from a menu without negative prices is non-negative. |
| `Menu.Validate` | skill-lab.js:52-60 | A missing or empty list is refused with NoItems, and only then. A non-empty list is accepted iff all its ids are on the menu and distinct; a refused non-empty list is always refused with InvalidItems. On acceptance the items are one per requested id, exactly the requested menu entries, in menu order. |
| `Orders.Label` | skill-lab.js:22-27 | The three stages are reported as "Pending", "In Progress" and "Completed", and no two stages share a label. |
| `Orders.Advance` | skill-lab.js:35-41 | Pending and In Progress move exactly one stage forward; Completed stays Completed. No stage goes back or is skipped. |
| `Orders.FindIndex` | skill-lab.js:33 | The result is the first position whose order carries the id; there is none exactly when no order carries it. |
| `Orders.Find` | skill-lab.js:80 | The result is the first stored order carrying the id: no earlier order carries it. There is none exactly when no order carries it. |
| `Orders.FindDense` | skill-lab.js:62-64 | With ids 1, 2, 3, ... the lookup of `id` finds position `id - 1` when `id` is between 1 and the number of orders, and nothing otherwise. |
| `Orders.PlacePreserves` | skill-lab.js:62-71 | Appending a well-formed Pending order under the next id (the number of orders plus one) and queueing that id keeps the state invariant. |
| `Orders.TickPreserves` | skill-lab.js:30-43 | The head of a non-empty queue names a stored Pending order. Dequeuing it and advancing that order keeps the invariant. |
| `Orders.OrderService.constructor` | skill-lab.js:17-20 | The service starts with the catalogue, no orders and an empty queue, and satisfies the invariant. |
| `Orders.OrderService.PlaceOrder` | skill-lab.js:51-75 | A refused request returns the error `Validate` gives and changes neither collection. An accepted one returns an order whose id is the number of orders plus one, with the resolved items, their price sum and status Pending. It appends that order to `orders` and its id to the queue, leaves every earlier element as it was, and keeps the invariant. |
| `Orders.OrderService.Tick` | skill-lab.js:30-43 | On an empty queue nothing changes. Otherwise exactly the head id leaves the queue, and only the order it names changes: its status, from Pending to In Progress. Its items and total stay as they were. The invariant is kept. |
| `Orders.OrderService.GetOrder` | skill-lab.js:78-87 | The lookup succeeds iff `id` is between 1 and the number of orders, returns the order with that id, and otherwise fails because no stored order carries the id. It changes nothing: the method has no `modifies` clause. |
| `Orders.OrderService.QueuedOrdersResolve` | skill-lab.js:32-33 | Every queued id names a stored order, so the lookup in the tick always succeeds, and that order is Pending. |
| `Orders.OrderService.NeverCompleted` | skill-lab.js:35-41 | Under the invariant no stored order is Completed. |
| `Orders.OrderService.TotalsNonNegative` | skill-lab.js:66 | Every stored total is non-negative. |
| `Scenario.SampleAccepted` | skill-lab.js:57-66 | Requesting Burger then Pizza yields `[Pizza, Burger]`, in menu order, with total 15. |
| `Scenario.SampleSingle` | skill-lab.js:57-60 | A single Coke is accepted. |
| `Scenario.SampleEmpty` | skill-lab.js:53-55 | A missing or empty item list is refused with NoItems. |
| `Scenario.SampleUnknown` | skill-lab.js:57-60 | The unknown id 99 is refused with InvalidItems. |
| `Scenario.SampleDuplicate` | skill-lab.js:57-60 | Requesting Pasta twice is refused with InvalidItems. |
| `Scenario.PlaceTwo` | skill-lab.js:51-75 | On an empty service, two accepted requests with a refused one between them get ids 1 and 2 and queue `[1, 2]`. |
| `Scenario.FirstTick` | skill-lab.js:30-43 | With queue `[1, 2]`, one tick makes order 1 In Progress, leaves order 2 Pending and leaves queue `[2]`. |
| `Scenario.LaterTicks` | skill-lab.js:30-43 | Two more ticks advance order 2 and then find the queue empty and change nothing. Only order 2's status changes, to In Progress, and the queue ends empty. |

## Left out

- HTTP: the Express setup, routing, JSON body parsing, the listen call, and
  turning outcomes into status codes and JSON bodies (skill-lab.js:1-5,
  46-48, 74, 83, 86, 89-93). Outcomes are `Result` values instead. The
  error texts are kept as `Menu.Message` and `Orders.LookupMessage`.
- GET `/menu` (skill-lab.js:46-48) is not modelled as an operation. It only
  returns the constant `Menu.Catalogue`.
- The node-cron schedule and its 5-minute period (skill-lab.js:30). Each
  firing is one call of `Tick`; wall-clock time is not modelled.
- `console.log` output (skill-lab.js:37, 40, 72, 92). It is side-channel
  output only.
- `parseInt` of the path parameter (skill-lab.js:79). `GetOrder` takes an
  integer id. A non-numeric id, which `parseInt` turns into NaN, matches no
  order in the source and corresponds to an id outside `1..|orders|` here.
- Dynamic typing. `items` is either missing (`None`) or a list of integers.
  The model does not cover falsy non-list values, strings, or ids of
  another type that strict `includes` would fail to match.
- Numbers are unbounded integers. JavaScript numbers are doubles, which
  are exact for these small integer prices and ids.
- Concurrency. Node's single event loop runs each handler and each timer
  callback to completion, so each operation is atomic here.
- Aliasing. In the source, the tick changes the status through the object
  reference that `orders.find` returns. Here `orders` is a sequence of
  values, and the tick replaces the element at the found position.
- Duplicate ids. A request that repeats an id might be read as ordering
  that item twice. The code refuses it instead, because the filter keeps
  one entry per menu item and the length check then fails. The model
  follows the code.
