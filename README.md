# GrubDash controllers in Dafny

GrubDash is a small REST back end for a food-delivery front end. It keeps two
in-memory collections, dishes and orders, and serves them through Express
routes. Every route is a chain of middleware. Validation steps read
`req.body`, `req.params` and `res.locals`, and either call `next()` or call
`next({ status, message })`. A terminal handler then reads or changes the
collection. This project models the two controllers that hold that logic:
`src/orders/orders.controller.js` and `src/dishes/dishes.controller.js`.

Layout:

- `js.dfy` (module `Js`): the JSON values a request can carry, plus `undefined`.
  It holds JavaScript truthiness, property access, and the destructuring
  `const { data = {} } = req.body`.
- `seqs.dfy` (module `Seqs`): `find`/`findIndex` by equality (`IndexOf`) and
  `splice(i, 1)` (`RemoveAt`).
- `chain.dfy` (module `Chain`): what the two controllers share.
  - `res.locals` is the value `Locals`: the normalized payload and the resolved entity.
  - Error messages are template literals, kept as literal text plus interpolated values.
  - The outcome of a step is `Continue`, `Stop` (a `next(err)`) or `Crash` (a thrown TypeError).
  - It also holds the shared `bodyHas` step.
- `orders.dfy` (module `Orders`) and `dishes.dfy` (module `Dishes`): each
  controller's validation steps and its exported chains. It also holds a
  specification function per terminal handler (`CreateSpec`, `ReadSpec`,
  `UpdateSpec`, `DestroySpec`) and the lemmas about them.
  - The entity objects are the classes `Order` and `Dish`; `update` assigns their fields in place.
  - The collections are the classes `OrderStore` and `DishStore`. Each handler method is proved
    to leave the collection's field values, and to send the response, that its specification
    function gives: `ensures (View(), resp) == UpdateSpec(old(View()), req)`.

Modelling choices:

- A step may call `next` more than once, or call `next(err)` and then `next()`.
  Such a step is written as the list of calls it makes (`Signal`s), in
  order. The first call decides the outcome (`Chain.Decide`). The Findings
  below list the three places where the code makes more than one call.
- The entity a step resolves is carried as its position in the collection
  together with its field values (`Found`). No step changes the collection
  while a chain runs, so this pair stands in for the object reference.
- A `null` body, a `null` `data`, or a `null` line item makes the code
  throw a TypeError. The model gives `Crash` for the step and `Thrown` for the request.
- `validateOrderStatus` checks the *proposed* status in the payload
  (orders.controller.js:102). It does not check the order's current status,
  so a "delivered" order can still be updated to another status. The model
  follows the code. `Orders.UpdateIgnoresCurrentStatus` and
  `Orders.UpdateNeverStoresDelivered` state the consequence.

## Model

| member | source | states |
|---|---|---|
| Js.FalsyValues | src/orders/orders.controller.js:21 | the presence test fails exactly for undefined, null, false, 0 and "" |
| Js.Truthy | src/orders/orders.controller.js:21 | the truthiness test `if (x)` applies to a field: booleans as themselves, numbers other than 0, non-empty strings, and every array and object pass |
| Js.Prop | src/orders/orders.controller.js:21 | reading `v[key]` of a value that is not null or undefined gives an object's own property, and `undefined` for a missing key or a non-object; a null or undefined value is excluded, since reading it throws |
| Js.DataOf | src/orders/orders.controller.js:17 | the destructuring throws iff the body is null or undefined; a present `data` is taken as is; an absent one becomes `{}`; the result is never undefined |
| Seqs.IndexOf | src/orders/orders.controller.js:173 | the result is the first position holding the value, or none iff the value is absent |
| Seqs.RemoveAt | src/orders/orders.controller.js:176 | `splice(i, 1)` shortens by one; elements before i stay; later elements shift down by one |
| Seqs.RemoveAtDistinct | src/orders/orders.controller.js:173-176 | removing one position of a repeat-free list removes that value, keeps every other value, and leaves the list repeat-free |
| Chain.CurrentBody | src/orders/orders.controller.js:16-19 | a stored payload is used; only an unset one is taken from `req.body` |
| Chain.Decide | src/orders/orders.controller.js:95-108 | the first of a step's calls decides its outcome: `next()` passes with `res.locals` unchanged, `next(err)` stops with that error, a thrown TypeError crashes |
| Chain.BodyHas | src/orders/orders.controller.js:12-29 | throws iff the payload is missing or nullish; passes iff the named field is truthy, storing the payload; otherwise 400 "{Resource} must include a {name}" |
| Chain.BodyNormalizedOnce | src/dishes/dishes.controller.js:15-19 | after a passing `bodyHas` the stored payload is kept, and later steps see it whatever the raw body holds |
| Chain.FalsyFieldRejected | src/dishes/dishes.controller.js:21-27 | a missing, null, "", 0 or false field gives the 400 presence error |
| Orders.OrderExists | src/orders/orders.controller.js:31-43 | never throws; passes iff some order has the route id, resolving the first such order; otherwise 404 "Order id not found: {id}" |
| Orders.ValidStatus | src/orders/orders.controller.js:89 | the four accepted statuses, in order: "pending", "preparing", "out-for-delivery", "delivered" |
| Orders.ItemOk | src/orders/orders.controller.js:57 | a line item passes iff it is not null or undefined and its `quantity` is a truthy number of at least 1; a fraction such as 1.5 passes |
| Orders.QuantitySignals | src/orders/orders.controller.js:56-64 | the calls the `forEach` and the final `next()` make from item i on, as written; there is always at least one |
| Orders.QuantitySignalsShape | src/orders/orders.controller.js:56-64 | the loop makes at most one call per item plus one; every call but the last is `next(err)`; the last is `next()`, or a throw exactly when some item from i on is null |
| Orders.DishesSignals | src/orders/orders.controller.js:45-65 | `validateDishes` as written: a null payload throws; a non-array or empty `dishes` gives the single error "at least one dish"; otherwise the first call is `next()` iff the line items are acceptable |
| Orders.FirstQuantitySignal | src/orders/orders.controller.js:56-63 | the loop's first call is `next()` iff every line item has a valid quantity; otherwise the first bad item decides: an error naming its index, or a throw for a null item |
| Orders.ValidateDishesDecision | src/orders/orders.controller.js:45-65 | the step passes iff `dishes` is a non-empty array of items whose quantity is a number of at least 1; a non-array or empty one gives "at least one dish"; otherwise the first bad index is reported |
| Orders.ValidateDishes | src/orders/orders.controller.js:45-65 | the loop produces exactly the as-written sequence of calls; its first call is `next()` iff the line items are acceptable |
| Orders.EveryBadItemSignals | src/orders/orders.controller.js:56-64 | with two bad items the step calls `next(err)` twice and then `next()` |
| Orders.IsOrderIdMatching | src/orders/orders.controller.js:67-86 | always re-stores the payload from `req.body`; passes when the payload id is falsy or equals the resolved order's id; for a truthy id it throws when no order was resolved, and otherwise gives 400 naming both ids |
| Orders.StatusSignals | src/orders/orders.controller.js:94-108 | `validateOrderStatus` as written: one or two calls, the last always `next()`; a single call exactly when the proposed status is one of the four and not "delivered" |
| Orders.ValidateOrderStatus | src/orders/orders.controller.js:89-109 | passes iff the proposed status is one of the four and is not "delivered"; an invalid status gives the status error; "delivered" gives "A delivered order cannot be changed" |
| Orders.StatusRejectionSignalsTwice | src/orders/orders.controller.js:94-108 | a rejected status is followed by a second call, `next()` |
| Orders.IsPendingStatus | src/orders/orders.controller.js:111-121 | passes iff the resolved order's status is "pending"; otherwise 400 "An order cannot be deleted unless it is pending" |
| Orders.Apply | src/orders/orders.controller.js:184-212 | each exported step writes only its own part of `res.locals`: `orderExists` the resolved order, every other step at most the payload |
| Orders.CreateChain | src/orders/orders.controller.js:186-192 | the create chain: `bodyHas` for `deliverTo`, `mobileNumber` and `dishes`, then `validateDishes` |
| Orders.UpdateChain | src/orders/orders.controller.js:193-202 | the update chain: `orderExists`, `isOrderIdMatching`, `validateOrderStatus`, the three `bodyHas` checks, then `validateDishes` |
| Orders.ReadChain | src/orders/orders.controller.js:203-206 | the read chain: `orderExists` alone |
| Orders.DeleteChain | src/orders/orders.controller.js:207-211 | the delete chain: `orderExists`, then `isPendingStatus` |
| Orders.RunChain | src/orders/orders.controller.js:184-212 | a chain runs its steps in order until one does not pass; a chain without `orderExists` keeps the resolved order it was given |
| Orders.RunChainAppend | src/orders/orders.controller.js:193-202 | running two chains one after the other is running their concatenation: the second starts from what the first left, unless the first stopped |
| Orders.RunSteps | src/orders/orders.controller.js:184-212 | running a chain step by step, with the loop form of `validateDishes`, gives the chain's outcome: the first step that does not pass decides |
| Orders.FieldsThenDishesPasses | src/orders/orders.controller.js:187-190 | the three presence checks and the line-item check pass together iff `deliverTo` and `mobileNumber` are truthy and the line items are acceptable |
| Orders.FieldStepsOutcome | src/orders/orders.controller.js:187-190 | on a normalized payload the four create steps decide as the three presence checks in order, then the line items |
| Orders.CreateChainOutcome | src/orders/orders.controller.js:186-192 | the create chain checks `deliverTo`, `mobileNumber`, `dishes`, then the line items, in that order, and never looks at `status` |
| Orders.UpdateChainOutcome | src/orders/orders.controller.js:193-202 | the update chain gives 404 for an unknown id, then checks the id match, the status, the three fields and the line items, in that order |
| Orders.UpdateAfterLookup | src/orders/orders.controller.js:195-202 | once the order is resolved, the rest of the update chain throws on a missing or nullish payload, rejects an id mismatch, then a bad or delivered status, then missing fields or bad line items |
| Orders.UpdateChainPasses | src/orders/orders.controller.js:193-202 | the update chain passes iff the order exists and the payload meets every check; it leaves the payload and the first order with the id |
| Orders.NewOrder | src/orders/orders.controller.js:137-143 | the created order holds the fresh id and the payload's `deliverTo`, `mobileNumber`, `status` and `dishes`, whatever they hold |
| Orders.Overwrite | src/orders/orders.controller.js:161-164 | update assigns the payload's `deliverTo`, `mobileNumber`, `status` and `dishes` to the order and leaves its id as it was |
| Orders.Order.Assign | src/orders/orders.controller.js:161-164 | the four assignments change the order object in place so that its field values become `Overwrite` of the old ones; its id is kept |
| Orders.CreateSpec | src/orders/orders.controller.js:132-146 | create keeps every existing order in place and appends at most one; a reply is 201 with the appended order, which carries the fresh id |
| Orders.ReadSpec | src/orders/orders.controller.js:149-151 | a reply is 200 with an order of the collection whose id is the route's |
| Orders.UpdateSpec | src/orders/orders.controller.js:154-167 | update keeps the length; a failed update changes nothing; a reply is 200 with an order of the new collection |
| Orders.DestroySpec | src/orders/orders.controller.js:170-179 | delete either changes nothing or removes one order; a reply is always 204 without a body; a failure changes nothing |
| Orders.CreateAppendsOne | src/orders/orders.controller.js:132-146 | create succeeds iff the payload passes; it then appends exactly one order with the fresh id and the payload's four fields, status unchecked, and answers 201 with it; on failure the collection is unchanged |
| Orders.CreatedOrderReadable | src/orders/orders.controller.js:132-151 | with unique ids and a fresh id, ids stay unique and a read of the new id returns the created order |
| Orders.LookupIsFirst | src/orders/orders.controller.js:33 | the lookup stops at the first order carrying the id, and at no other position |
| Orders.ReadResolvesFirst | src/orders/orders.controller.js:149-151 | a read answers 200 with the first order whose id is the route's, or 404 when there is none |
| Orders.UpdateOverwritesResolved | src/orders/orders.controller.js:154-167 | update succeeds iff the order exists and the payload passes; it then overwrites only the four fields of the first matching order; the id, the length and every other order are kept; on failure nothing changes |
| Orders.UpdateKeepsIds | src/orders/orders.controller.js:160-164 | update never changes an id: the ids of the collection stay as they were, in order |
| Orders.EmptyDishesRejected | src/orders/orders.controller.js:48-53 | an empty `dishes` array passes the presence check and is then rejected with "at least one dish" |
| Orders.UpdateIgnoresCurrentStatus | src/orders/orders.controller.js:102 | whether an update passes does not depend on the stored order's current status |
| Orders.UpdateNeverStoresDelivered | src/orders/orders.controller.js:94-107 | an order a successful update answers with has one of the four statuses, and not "delivered" |
| Orders.MismatchedIdRejected | src/orders/orders.controller.js:79-85 | a truthy payload id other than the route's gives 400, and the collection is unchanged |
| Orders.DestroyRemovesResolved | src/orders/orders.controller.js:170-179 | delete gives 404 for an unknown id; if the first matching order is pending it removes exactly that order and answers 204; otherwise 400 and nothing changes |
| Orders.DeletedOrderNotFound | src/orders/orders.controller.js:170-179 | with unique ids, a read after a successful delete gives 404 |
| Orders.DestroyKeepsIdsDistinct | src/orders/orders.controller.js:173-176 | when ids are unique before a delete, they are unique after it |
| Orders.Order.constructor | src/orders/orders.controller.js:137-143 | the new object holds the given field values |
| Orders.OrderStore.constructor | src/orders/orders.controller.js:4 | the collection starts as the given seed objects, each held once |
| Orders.OrderStore.List | src/orders/orders.controller.js:127-129 | answers 200 with the whole collection and changes nothing |
| Orders.OrderStore.Create | src/orders/orders.controller.js:132-146 | the new collection and the response are those `CreateSpec` gives; each object is still held once |
| Orders.OrderStore.Read | src/orders/orders.controller.js:149-151 | the response is the one `ReadSpec` gives, and nothing changes |
| Orders.OrderStore.Update | src/orders/orders.controller.js:154-167 | the resolved object is changed in place; the new field values and the response are those `UpdateSpec` gives |
| Orders.OrderStore.Destroy | src/orders/orders.controller.js:170-179 | the new collection and the response are those `DestroySpec` gives; the remaining objects are still held once |
| Dishes.DishExists | src/dishes/dishes.controller.js:42-54 | never throws; passes iff some dish has the route id, resolving the first such dish; otherwise 404 "Dish does not exist: {id}" |
| Dishes.PriceOk | src/dishes/dishes.controller.js:33 | a price passes iff it is a number of at least 1; there is no integer test |
| Dishes.PriceSignals | src/dishes/dishes.controller.js:33-39 | `validateDishPrice` as written: one or two calls, the last always `next()`; a single call exactly when the price is a number of at least 1; a null payload throws |
| Dishes.ValidateDishPrice | src/dishes/dishes.controller.js:31-40 | passes iff the price is a number of at least 1; otherwise 400 about the price |
| Dishes.PriceRejectionSignalsTwice | src/dishes/dishes.controller.js:33-39 | a rejected price is followed by a second call, `next()` |
| Dishes.FractionalPriceAccepted | src/dishes/dishes.controller.js:33 | a price of 1.5 passes, although the message asks for an integer |
| Dishes.IsDishIdMatching | src/dishes/dishes.controller.js:56-75 | always re-stores the payload; passes when the payload id is falsy or equals the resolved dish's id; for a truthy id it throws when no dish was resolved, and otherwise gives 400 quoting the payload id and the request URL |
| Dishes.Apply | src/dishes/dishes.controller.js:126-147 | each exported step writes only its own part of `res.locals`: `dishExists` the resolved dish, every other step at most the payload |
| Dishes.CreateChain | src/dishes/dishes.controller.js:127-134 | the create chain: `bodyHas` for `name`, `description`, `image_url` and `price`, then `validateDishPrice` |
| Dishes.ReadChain | src/dishes/dishes.controller.js:136 | the read chain: `dishExists` alone |
| Dishes.UpdateChain | src/dishes/dishes.controller.js:137-146 | the update chain: `dishExists`, `isDishIdMatching`, the four `bodyHas` checks, then `validateDishPrice` |
| Dishes.RunChain | src/dishes/dishes.controller.js:126-147 | a chain runs its steps in order until one does not pass; a chain without `dishExists` keeps the resolved dish it was given |
| Dishes.RunChainAppend | src/dishes/dishes.controller.js:137-146 | running two chains one after the other is running their concatenation: the second starts from what the first left, unless the first stopped |
| Dishes.RunSteps | src/dishes/dishes.controller.js:126-147 | running a chain step by step gives the chain's outcome: the first step that does not pass decides |
| Dishes.FieldStepsOutcome | src/dishes/dishes.controller.js:127-132 | on a normalized payload the five validation steps decide as the four presence checks in order, then the price |
| Dishes.CreateChainOutcome | src/dishes/dishes.controller.js:127-134 | the create chain checks `name`, `description`, `image_url`, `price`, then the price's value, in that order |
| Dishes.UpdateChainOutcome | src/dishes/dishes.controller.js:137-146 | the update chain gives 404 for an unknown id, then checks the id match, the four fields and the price, in that order |
| Dishes.UpdateChainPasses | src/dishes/dishes.controller.js:137-146 | the update chain passes iff the dish exists and the payload meets every check; it leaves the payload and the first dish with the id |
| Dishes.NewDish | src/dishes/dishes.controller.js:91-97 | the created dish holds the fresh id and the payload's `name`, `description`, `image_url` and `price` |
| Dishes.Overwrite | src/dishes/dishes.controller.js:115-118 | update assigns the payload's `name`, `description`, `image_url` and `price` to the dish and leaves its id as it was |
| Dishes.Dish.Assign | src/dishes/dishes.controller.js:115-118 | the four assignments change the dish object in place so that its field values become `Overwrite` of the old ones; its id is kept |
| Dishes.CreateSpec | src/dishes/dishes.controller.js:86-100 | create keeps every existing dish in place and appends at most one; a reply is 201 with the appended dish, which carries the fresh id |
| Dishes.ReadSpec | src/dishes/dishes.controller.js:103-105 | a reply is 200 with a dish of the collection whose id is the route's |
| Dishes.UpdateSpec | src/dishes/dishes.controller.js:108-121 | update keeps the length; a failed update changes nothing; a reply is 200 with a dish of the new collection |
| Dishes.LookupIsFirst | src/dishes/dishes.controller.js:44 | the lookup stops at the first dish carrying the id, and at no other position |
| Dishes.CreateAppendsOne | src/dishes/dishes.controller.js:86-100 | create succeeds iff the four fields are truthy and the price passes; it then appends exactly one dish with the fresh id and the payload's fields and answers 201; on failure nothing is appended |
| Dishes.CreatedDishReadable | src/dishes/dishes.controller.js:86-105 | with unique ids and a fresh id, ids stay unique and a read of the new id returns the created dish |
| Dishes.ReadResolvesFirst | src/dishes/dishes.controller.js:103-105 | a read answers 200 with the first dish whose id is the route's, or 404 when there is none |
| Dishes.UpdateOverwritesResolved | src/dishes/dishes.controller.js:108-121 | update succeeds iff the dish exists and the payload passes; it then overwrites only the four fields of the first matching dish; the id, the length and every other dish are kept; on failure nothing changes |
| Dishes.MismatchedIdRejected | src/dishes/dishes.controller.js:68-74 | a truthy payload id other than the route's gives 400, and the collection is unchanged |
| Dishes.NoDishRemoved | src/dishes/dishes.controller.js:126-147 | no chain removes a dish: create keeps every dish in place, and update keeps the length and every id |
| Dishes.Dish.constructor | src/dishes/dishes.controller.js:91-97 | the new object holds the given field values |
| Dishes.DishStore.constructor | src/dishes/dishes.controller.js:4 | the collection starts as the given seed objects, each held once |
| Dishes.DishStore.List | src/dishes/dishes.controller.js:81-83 | answers 200 with the whole collection and changes nothing |
| Dishes.DishStore.Create | src/dishes/dishes.controller.js:86-100 | the new collection and the response are those `CreateSpec` gives; each object is still held once |
| Dishes.DishStore.Read | src/dishes/dishes.controller.js:103-105 | the response is the one `ReadSpec` gives, and nothing changes |
| Dishes.DishStore.Update | src/dishes/dishes.controller.js:108-121 | the resolved object is changed in place; the new field values and the response are those `UpdateSpec` gives |

## Left out

- The Express application, its routers and the error handler are not part of this model. A `Thrown` response stands for whatever that handler sends for a TypeError.
- `nextId` is not part of this model. Create takes the new id as a parameter, required to be absent from the collection.
- The seed data files are not part of this model. Each collection starts as any list of distinct objects.
- Numbers are exact reals: NaN, the infinities and floating-point rounding are not modelled.
- The string conversion of interpolated values in error messages is not modelled. A message is kept as its literal parts and the values it interpolates.
- What Express does with a second `next` call from the same step is not modelled: double dispatch and "headers already sent" errors. The model lets the first call decide and records the later calls.
- Properties inherited from a prototype (a string's `length`, an array's `map`) are not modelled. The controllers read only field names that no prototype defines.
- The JSON serialization of a response is not modelled. A response carries the field values of the objects it sends, at the time it is sent.
- Concurrency is not modelled: the handlers are synchronous, and each request runs to completion.
- Orders.OrderStore.Create and Dishes.DishStore.Create: these require the new id to be fresh. The source relies on `nextId` for this.

## Findings

| source | as written | input that shows it | evidently intended | confidence | as-written member | corrected member |
|---|---|---|---|---|---|---|
| src/orders/orders.controller.js:94-108 | `next(err)` for a bad or "delivered" status has no `return`, so `next()` is called after it | an update whose payload has `status: "bogus"` | stop after the first `next(err)` | not executed | Orders.StatusRejectionSignalsTwice | Orders.ValidateOrderStatus |
| src/orders/orders.controller.js:56-64 | the `return` inside the `forEach` callback leaves only the callback, so every bad line item calls `next(err)` and `next()` follows | `dishes: [{quantity: 0}, {quantity: 0}]` | report the first bad item and stop | not executed | Orders.EveryBadItemSignals | Orders.ValidateDishesDecision |
| src/dishes/dishes.controller.js:33-39 | `next(err)` for a bad price has no `return`, so `next()` is called after it | a create whose payload has `price: -1` | stop after the first `next(err)` | not executed | Dishes.PriceRejectionSignalsTwice | Dishes.ValidateDishPrice |
