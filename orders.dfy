/**
 * The order controller: its validation steps, the chains it exports, the
 * order objects and the in-memory collection its handlers change.
 */
module Orders {
  import opened Js
  import opened Chain
  import Seqs

  // ---------------------------------------------------------------------------
  // Entities and requests

  /** The field values of one order object. */
  datatype OrderData = OrderData(id: string, deliverTo: JsValue, mobileNumber: JsValue, status: JsValue, dishes: JsValue)

  function Ids(view: seq<OrderData>): (ids: seq<string>)
    ensures |ids| == |view|
    ensures forall i :: 0 <= i < |view| ==> ids[i] == view[i].id
  {
    seq(|view|, i requires 0 <= i < |view| => view[i].id)
  }

  /** k is where `orders.find(order => order.id === id)` stops. */
  ghost predicate FirstWithId(view: seq<OrderData>, id: string, k: int)
  {
    0 <= k < |view| && view[k].id == id && forall j :: 0 <= j < k ==> view[j].id != id
  }

  /** The parts of a request the controller reads: `req.body` and `req.params.orderId`. */
  datatype Request = Request(body: JsValue, orderId: string)

  type OrderLocals = Locals<OrderData>

  /** `res.locals` when a request arrives. */
  const NoLocals: OrderLocals := Locals(Undefined, None)

  /** The locals resolve the order the route's id names. */
  ghost predicate Resolves(locals: OrderLocals, view: seq<OrderData>, id: string)
  {
    && locals.found.Some?
    && FirstWithId(view, id, locals.found.value.index)
    && locals.found.value.record == view[locals.found.value.index]
  }

  /** The statuses `validStatus` lists. */
  function ValidStatus(): seq<JsValue>
  {
    [Str("pending"), Str("preparing"), Str("out-for-delivery"), Str("delivered")]
  }

  // ---------------------------------------------------------------------------
  // Errors

  function OrderNotFound(id: string): HttpError
  {
    HttpError(404, [Lit("Order id not found: "), Interp(Str(id))])
  }

  const NoDishes := HttpError(400, [Lit("Order must include at least one dish")])

  function BadQuantity(index: nat): HttpError
  {
    HttpError(400, [Lit("dish "), Interp(Num(index as real)), Lit(" must have a quantity that is an integer greater than 0")])
  }

  /** The order controller's own wording: it names a "Dish" id although it compares order ids. */
  function IdMismatch(given: JsValue, route: string): HttpError
  {
    HttpError(400, [Lit("Dish id does not match route id. Dish: "), Interp(given), Lit(", Route: "), Interp(Str(route))])
  }

  const InvalidStatus := HttpError(400, [Lit("Order must have a status of pending, preparing, out-for-delivery, delivered")])

  const DeliveredFrozen := HttpError(400, [Lit("A delivered order cannot be changed")])

  const NotPending := HttpError(400, [Lit("An order cannot be deleted unless it is pending")])

  // ---------------------------------------------------------------------------
  // Validation steps

  /** `orderExists`: resolve the first order whose id is the route's, or 404. */
  function OrderExists(req: Request, locals: OrderLocals, view: seq<OrderData>): (r: StepResult<OrderLocals>)
    ensures !r.Crash?
    ensures r.Continue? <==> req.orderId in Ids(view)
    ensures r.Continue? ==> Resolves(r.locals, view, req.orderId) && r.locals.requestBody == locals.requestBody
    ensures r.Stop? ==> r.error == OrderNotFound(req.orderId)
  {
    match Seqs.IndexOf(Ids(view), req.orderId)
    case Some(k) =>
      assert forall j :: 0 <= j < k ==> Ids(view)[..k][j] == view[j].id;
      Continue(locals.(found := Some(Found(k, view[k]))))
    case None => Stop(OrderNotFound(req.orderId))
  }

  /** What the `forEach` in `validateDishes` accepts for one line item. */
  predicate ItemOk(item: JsValue)
  {
    && !Nullish(item)
    && var q := Prop(item, "quantity");
    Truthy(q) && q.Num? && q.n >= 1.0
  }

  /** A non-empty array whose every line item has a valid quantity. */
  predicate DishesAcceptable(dishes: JsValue)
  {
    && dishes.Arr?
    && |dishes.items| > 0
    && forall j :: 0 <= j < |dishes.items| ==> ItemOk(dishes.items[j])
  }

  /**
   * The signals the `forEach` gives from item i on, as written: it does not
   * stop at a bad quantity, so each bad item calls `next(err)`; a null or
   * undefined item throws and ends the loop; then `next()` is called.
   */
  function QuantitySignals(items: seq<JsValue>, i: nat): (signals: seq<Signal>)
    requires i <= |items|
    ensures signals != []
    decreases |items| - i
  {
    if i == |items| then [Next]
    else if Nullish(items[i]) then [Throw]
    else (if ItemOk(items[i]) then [] else [NextErr(BadQuantity(i))]) + QuantitySignals(items, i + 1)
  }

  /**
   * The loop's calls, as written: only `next(err)` calls, then a last call
   * that is `next()`, or a throw exactly when some item from i on is null.
   */
  lemma {:induction false} QuantitySignalsShape(items: seq<JsValue>, i: nat)
    requires i <= |items|
    ensures var signals := QuantitySignals(items, i);
      && |signals| <= |items| - i + 1
      && (forall k :: 0 <= k < |signals| - 1 ==> signals[k].NextErr?)
      && (signals[|signals| - 1] == Next || signals[|signals| - 1] == Throw)
      && (signals[|signals| - 1] == Next <==> forall j :: i <= j < |items| ==> !Nullish(items[j]))
    decreases |items| - i
  {
    if i < |items| && !Nullish(items[i]) {
      QuantitySignalsShape(items, i + 1);
      var rest := QuantitySignals(items, i + 1);
      var signals := QuantitySignals(items, i);
      if !ItemOk(items[i]) {
        assert signals == [NextErr(BadQuantity(i))] + rest;
        forall k | 0 <= k < |signals| - 1
          ensures signals[k].NextErr?
        {
          if k > 0 { assert signals[k] == rest[k - 1]; }
        }
        assert signals[|signals| - 1] == rest[|rest| - 1];
      } else {
        assert signals == rest;
      }
    }
  }

  /**
   * The signals `validateDishes` gives, as written: a single `next(err)`
   * for a missing or empty list, otherwise those of the loop.
   */
  function DishesSignals(locals: OrderLocals): (signals: seq<Signal>)
    ensures signals != []
    ensures Nullish(locals.requestBody) ==> signals == [Throw]
    ensures !Nullish(locals.requestBody) ==>
      var dishes := Prop(locals.requestBody, "dishes");
      && (signals[0] == Next <==> DishesAcceptable(dishes))
      && (!dishes.Arr? || dishes.items == [] ==> signals == [NextErr(NoDishes)])
  {
    var body := locals.requestBody;
    if Nullish(body) then [Throw]
    else
      var dishes := Prop(body, "dishes");
      if !dishes.Arr? || |dishes.items| == 0 then [NextErr(NoDishes)]
      else
        FirstQuantitySignal(dishes.items, 0);
        QuantitySignals(dishes.items, 0)
  }

  /** The first signal of the `forEach` is decided by the first bad line item. */
  lemma {:induction false} FirstQuantitySignal(items: seq<JsValue>, i: nat)
    requires i <= |items|
    ensures QuantitySignals(items, i)[0] == Next <==> forall j :: i <= j < |items| ==> ItemOk(items[j])
    ensures forall k :: i <= k < |items| && !ItemOk(items[k]) && (forall j :: i <= j < k ==> ItemOk(items[j])) ==>
      QuantitySignals(items, i)[0] == if Nullish(items[k]) then Throw else NextErr(BadQuantity(k))
    decreases |items| - i
  {
    if i < |items| {
      FirstQuantitySignal(items, i + 1);
      if ItemOk(items[i]) {
        assert QuantitySignals(items, i) == QuantitySignals(items, i + 1);
      }
    }
  }

  /**
   * `validateDishes`: a missing or empty `dishes` array gives 400; otherwise
   * the first line item with a bad quantity decides the error; if none is
   * bad the step passes.
   */
  lemma ValidateDishesDecision(locals: OrderLocals)
    requires !Nullish(locals.requestBody)
    ensures var r := Decide(DishesSignals(locals), locals);
      var d := Prop(locals.requestBody, "dishes");
      && (r.Continue? <==> DishesAcceptable(d))
      && (r.Continue? ==> r.locals == locals)
      && (!d.Arr? || d.items == [] ==> r == Stop(NoDishes))
      && (forall k :: d.Arr? && 0 <= k < |d.items| && !ItemOk(d.items[k]) && (forall j :: 0 <= j < k ==> ItemOk(d.items[j])) ==>
            r == if Nullish(d.items[k]) then Crash else Stop(BadQuantity(k)))
  {
    var d := Prop(locals.requestBody, "dishes");
    if d.Arr? && d.items != [] {
      FirstQuantitySignal(d.items, 0);
    }
  }

  /**
   * `validateDishes` as the source runs it: the loop visits every line item
   * (a `forEach` cannot break) and collects the signals in order.
   */
  method ValidateDishes(locals: OrderLocals) returns (signals: seq<Signal>)
    ensures signals == DishesSignals(locals)
    ensures signals[0] == Next <==> !Nullish(locals.requestBody) && DishesAcceptable(Prop(locals.requestBody, "dishes"))
  {
    var body := locals.requestBody;
    if Nullish(body) {
      return [Throw];
    }
    var dishes := Prop(body, "dishes");
    if !dishes.Arr? || |dishes.items| == 0 {
      return [NextErr(NoDishes)];
    }
    var items := dishes.items;
    FirstQuantitySignal(items, 0);
    signals := [];
    var i := 0;
    while i < |items|
      invariant 0 <= i <= |items|
      invariant signals + QuantitySignals(items, i) == QuantitySignals(items, 0)
    {
      if Nullish(items[i]) {
        // reading `quantity` of a null item throws out of the forEach
        assert QuantitySignals(items, i) == [Throw];
        signals := signals + [Throw];
        return;
      }
      if !ItemOk(items[i]) {
        assert QuantitySignals(items, i) == [NextErr(BadQuantity(i))] + QuantitySignals(items, i + 1);
        signals := signals + [NextErr(BadQuantity(i))];
      } else {
        assert QuantitySignals(items, i) == QuantitySignals(items, i + 1);
      }
      i := i + 1;
    }
    assert QuantitySignals(items, i) == [Next];
    signals := signals + [Next];
  }

  /** Two bad line items give two `next(err)` calls and then a `next()`. */
  lemma EveryBadItemSignals()
    ensures var bad := Obj(map["quantity" := Num(0.0)]);
      QuantitySignals([bad, bad], 0) == [NextErr(BadQuantity(0)), NextErr(BadQuantity(1)), Next]
  {
    var bad := Obj(map["quantity" := Num(0.0)]);
    assert !ItemOk(bad);
    assert QuantitySignals([bad, bad], 2) == [Next];
    assert QuantitySignals([bad, bad], 1) == [NextErr(BadQuantity(1)), Next];
  }

  /** `isOrderIdMatching`: re-normalize the payload, then compare a truthy payload id with the resolved order's. */
  function IsOrderIdMatching(req: Request, locals: OrderLocals): (r: StepResult<OrderLocals>)
    ensures DataOf(req.body).None? ==> r == Crash
    ensures DataOf(req.body).Some? ==>
      var data := DataOf(req.body).value;
      && (Nullish(data) ==> r == Crash)
      && (!Nullish(data) && !Truthy(Prop(data, "id")) ==> r == Continue(locals.(requestBody := data)))
      && (!Nullish(data) && Truthy(Prop(data, "id")) && locals.found.None? ==> r == Crash)
      && (!Nullish(data) && Truthy(Prop(data, "id")) && locals.found.Some? ==>
            var route := locals.found.value.record.id;
            r == if Prop(data, "id") == Str(route) then Continue(locals.(requestBody := data))
                 else Stop(IdMismatch(Prop(data, "id"), route)))
  {
    match DataOf(req.body)
    case None => Crash
    case Some(data) =>
      if Nullish(data) then Crash
      else
        var id := Prop(data, "id");
        if !Truthy(id) then Continue(locals.(requestBody := data))
        else if locals.found.None? then Crash
        else if id == Str(locals.found.value.record.id) then Continue(locals.(requestBody := data))
        else Stop(IdMismatch(id, locals.found.value.record.id))
  }

  /**
   * The signals `validateOrderStatus` gives, as written: neither `next(err)`
   * returns, so a rejected status is followed by a further call.
   */
  function StatusSignals(locals: OrderLocals): (signals: seq<Signal>)
    ensures signals != []
    ensures Nullish(locals.requestBody) ==> signals == [Throw]
    ensures !Nullish(locals.requestBody) ==>
      var status := Prop(locals.requestBody, "status");
      && |signals| <= 2
      && signals[|signals| - 1] == Next
      && (|signals| == 1 <==> status in ValidStatus() && status != Str("delivered"))
  {
    var body := locals.requestBody;
    if Nullish(body) then [Throw]
    else
      var status := Prop(body, "status");
      (if !Truthy(status) || status == Str("") || status !in ValidStatus() then [NextErr(InvalidStatus)] else [])
      + (if status == Str("delivered") then [NextErr(DeliveredFrozen)] else [])
      + [Next]
  }

  /**
   * `validateOrderStatus`: the proposed status must be one of the four and
   * must not be "delivered"; the order's current status is not consulted.
   */
  function ValidateOrderStatus(locals: OrderLocals): (r: StepResult<OrderLocals>)
    ensures Nullish(locals.requestBody) ==> r == Crash
    ensures !Nullish(locals.requestBody) ==>
      var status := Prop(locals.requestBody, "status");
      && (r.Continue? <==> status in ValidStatus() && status != Str("delivered"))
      && (r.Continue? ==> r.locals == locals)
      && (status !in ValidStatus() ==> r == Stop(InvalidStatus))
      && (status == Str("delivered") ==> r == Stop(DeliveredFrozen))
  {
    Decide(StatusSignals(locals), locals)
  }

  /** A rejected status is followed by a second call: `next()` (or a second `next(err)`). */
  lemma StatusRejectionSignalsTwice(locals: OrderLocals)
    requires !Nullish(locals.requestBody)
    requires Prop(locals.requestBody, "status") !in ValidStatus() || Prop(locals.requestBody, "status") == Str("delivered")
    ensures |StatusSignals(locals)| == 2 && StatusSignals(locals)[1] == Next
  {
  }

  /** `isPendingStatus`: only an order whose current status is "pending" passes. */
  function IsPendingStatus(locals: OrderLocals): (r: StepResult<OrderLocals>)
    ensures locals.found.None? ==> r == Crash
    ensures locals.found.Some? ==>
      && (r.Continue? <==> locals.found.value.record.status == Str("pending"))
      && (r.Continue? ==> r.locals == locals)
      && (!r.Continue? ==> r == Stop(NotPending))
  {
    if locals.found.None? then Crash
    else if locals.found.value.record.status == Str("pending") then Continue(locals)
    else Stop(NotPending)
  }

  // ---------------------------------------------------------------------------
  // Chains

  datatype Step = HasField(name: string) | Exists | DishesValid | IdMatches | StatusValid | Pending

  /** The chains the controller exports, step by step in export order. */
  function CreateChain(): seq<Step>
  {
    [HasField("deliverTo"), HasField("mobileNumber"), HasField("dishes"), DishesValid]
  }

  function UpdateChain(): seq<Step>
  {
    [Exists, IdMatches, StatusValid, HasField("deliverTo"), HasField("mobileNumber"), HasField("dishes"), DishesValid]
  }

  function ReadChain(): seq<Step>
  {
    [Exists]
  }

  function DeleteChain(): seq<Step>
  {
    [Exists, Pending]
  }

  /**
   * One exported step. Each writes only its own part of `res.locals`:
   * `orderExists` the resolved order, the others at most the payload.
   */
  function Apply(step: Step, req: Request, locals: OrderLocals, view: seq<OrderData>): (r: StepResult<OrderLocals>)
    ensures r.Continue? && !step.Exists? ==> r.locals.found == locals.found
    ensures r.Continue? && step.Exists? ==> r.locals.requestBody == locals.requestBody
  {
    match step
    case HasField(name) => BodyHas("Order", name, req.body, locals)
    case Exists => OrderExists(req, locals, view)
    case DishesValid => Decide(DishesSignals(locals), locals)
    case IdMatches => IsOrderIdMatching(req, locals)
    case StatusValid => ValidateOrderStatus(locals)
    case Pending => IsPendingStatus(locals)
  }

  /**
   * Run the steps in order; the first that does not continue decides the
   * outcome. A chain without `orderExists` keeps the resolved order it was given.
   */
  function RunChain(steps: seq<Step>, req: Request, locals: OrderLocals, view: seq<OrderData>): (r: StepResult<OrderLocals>)
    ensures r.Continue? && Exists !in steps ==> r.locals.found == locals.found
    decreases |steps|
  {
    if steps == [] then Continue(locals)
    else
      match Apply(steps[0], req, locals, view)
      case Continue(next) =>
        assert forall s :: s in steps[1..] ==> s in steps;
        RunChain(steps[1..], req, next, view)
      case Stop(e) => Stop(e)
      case Crash => Crash
  }

  /** Chains compose: running `s1 + s2` runs `s1`, then `s2` on what `s1` left, unless `s1` already stopped. */
  lemma {:induction false} RunChainAppend(s1: seq<Step>, s2: seq<Step>, req: Request, locals: OrderLocals, view: seq<OrderData>)
    ensures RunChain(s1 + s2, req, locals, view) ==
      match RunChain(s1, req, locals, view)
      case Continue(next) => RunChain(s2, req, next, view)
      case Stop(e) => Stop(e)
      case Crash => Crash
    decreases |s1|
  {
    if s1 == [] {
      assert s1 + s2 == s2;
    } else {
      assert (s1 + s2)[0] == s1[0];
      assert (s1 + s2)[1..] == s1[1..] + s2;
      match Apply(s1[0], req, locals, view)
      case Continue(next) => RunChainAppend(s1[1..], s2, req, next, view);
      case Stop(_) =>
      case Crash =>
    }
  }

  /** The runner, stepping through a chain with the loop form of `validateDishes`. */
  method RunSteps(steps: seq<Step>, req: Request, view: seq<OrderData>) returns (r: StepResult<OrderLocals>)
    ensures r == RunChain(steps, req, NoLocals, view)
  {
    var locals := NoLocals;
    var i := 0;
    while i < |steps|
      invariant 0 <= i <= |steps|
      invariant RunChain(steps[i..], req, locals, view) == RunChain(steps, req, NoLocals, view)
    {
      assert steps[i..][1..] == steps[i + 1..];
      var out;
      if steps[i] == DishesValid {
        var signals := ValidateDishes(locals);
        out := Decide(signals, locals);
      } else {
        out := Apply(steps[i], req, locals, view);
      }
      if !out.Continue? {
        return out;
      }
      locals := out.locals;
      i := i + 1;
    }
    r := Continue(locals);
  }

  /** The chain's decision once the payload `b` is normalized: the three presence checks, then the line items. */
  function FieldsThenDishes(b: JsValue, found: Option<Found<OrderData>>): StepResult<OrderLocals>
    requires !Nullish(b)
  {
    if !Truthy(Prop(b, "deliverTo")) then Stop(MissingField("Order", "deliverTo"))
    else if !Truthy(Prop(b, "mobileNumber")) then Stop(MissingField("Order", "mobileNumber"))
    else if !Truthy(Prop(b, "dishes")) then Stop(MissingField("Order", "dishes"))
    else Decide(DishesSignals(Locals(b, found)), Locals(b, found))
  }

  /** The three presence checks and the line items all pass. */
  predicate FieldsPass(b: JsValue)
    requires !Nullish(b)
  {
    Truthy(Prop(b, "deliverTo")) && Truthy(Prop(b, "mobileNumber")) && DishesAcceptable(Prop(b, "dishes"))
  }

  lemma FieldsThenDishesPasses(b: JsValue, found: Option<Found<OrderData>>)
    requires !Nullish(b)
    ensures FieldsThenDishes(b, found).Continue? <==> FieldsPass(b)
    ensures FieldsThenDishes(b, found).Continue? ==> FieldsThenDishes(b, found).locals == Locals(b, found)
  {
    ValidateDishesDecision(Locals(b, found));
  }

  lemma FieldStepsOutcome(req: Request, b: JsValue, found: Option<Found<OrderData>>, view: seq<OrderData>)
    requires !Nullish(b)
    ensures RunChain(CreateChain(), req, Locals(b, found), view) == FieldsThenDishes(b, found)
  {
    assert CreateChain()[1..] == [HasField("mobileNumber"), HasField("dishes"), DishesValid];
    assert CreateChain()[2..] == [HasField("dishes"), DishesValid];
    assert CreateChain()[3..] == [DishesValid];
  }

  /**
   * The create chain checks `deliverTo`, `mobileNumber` and `dishes` in that
   * order, then the line items; it never looks at `status`.
   */
  lemma CreateChainOutcome(req: Request, view: seq<OrderData>)
    ensures var r := RunChain(CreateChain(), req, NoLocals, view);
      match DataOf(req.body)
      case None => r == Crash
      case Some(b) => if Nullish(b) then r == Crash else r == FieldsThenDishes(b, None)
  {
    match DataOf(req.body)
    case None =>
    case Some(b) =>
      if !Nullish(b) && Truthy(Prop(b, "deliverTo")) {
        FieldStepsOutcome(req, b, None, view);
        assert CreateChain()[1..] == [HasField("mobileNumber"), HasField("dishes"), DishesValid];
        assert RunChain(CreateChain(), req, NoLocals, view) == RunChain(CreateChain()[1..], req, Locals(b, None), view);
      }
  }

  /** The update chain, step by step, once the order is resolved and the payload normalized. */
  function UpdateDecision(b: JsValue, f: Found<OrderData>): StepResult<OrderLocals>
    requires !Nullish(b)
  {
    var id := Prop(b, "id");
    var status := Prop(b, "status");
    if Truthy(id) && id != Str(f.record.id) then Stop(IdMismatch(id, f.record.id))
    else if status !in ValidStatus() then Stop(InvalidStatus)
    else if status == Str("delivered") then Stop(DeliveredFrozen)
    else FieldsThenDishes(b, Some(f))
  }

  /** The update chain: 404 for an unknown id, then id match, status, presence and line items, in that order. */
  lemma UpdateChainOutcome(req: Request, view: seq<OrderData>)
    ensures var r := RunChain(UpdateChain(), req, NoLocals, view);
      match Seqs.IndexOf(Ids(view), req.orderId)
      case None => r == Stop(OrderNotFound(req.orderId))
      case Some(k) =>
        match DataOf(req.body)
        case None => r == Crash
        case Some(b) => if Nullish(b) then r == Crash else r == UpdateDecision(b, Found(k, view[k]))
  {
    match Seqs.IndexOf(Ids(view), req.orderId)
    case None =>
    case Some(k) =>
      var f := Found(k, view[k]);
      var l2 := Locals(Undefined, Some(f));
      assert OrderExists(req, NoLocals, view) == Continue(l2);
      assert RunChain(UpdateChain(), req, NoLocals, view) == RunChain(UpdateChain()[1..], req, l2, view);
      UpdateAfterLookup(req, f, view);
  }

  /** The update chain past its lookup step: payload, id match, status, presence and line items. */
  lemma UpdateAfterLookup(req: Request, f: Found<OrderData>, view: seq<OrderData>)
    ensures var r := RunChain(UpdateChain()[1..], req, Locals(Undefined, Some(f)), view);
      match DataOf(req.body)
      case None => r == Crash
      case Some(b) => if Nullish(b) then r == Crash else r == UpdateDecision(b, f)
  {
    var l2 := Locals(Undefined, Some(f));
    match DataOf(req.body)
    case None =>
    case Some(b) =>
      if !Nullish(b) {
        var l3 := Locals(b, Some(f));
        var id := Prop(b, "id");
        if !Truthy(id) || id == Str(f.record.id) {
          assert IsOrderIdMatching(req, l2) == Continue(l3);
          assert UpdateChain()[1..][1..] == UpdateChain()[2..];
          assert RunChain(UpdateChain()[1..], req, l2, view) == RunChain(UpdateChain()[2..], req, l3, view);
          var status := Prop(b, "status");
          if status in ValidStatus() && status != Str("delivered") {
            assert UpdateChain()[2..][1..] == UpdateChain()[3..];
            assert UpdateChain()[3..] == CreateChain();
            FieldStepsOutcome(req, b, Some(f), view);
          }
        }
      }
  }

  // ---------------------------------------------------------------------------
  // Terminal handlers, specified on the collection's field values

  /** The object `create` builds: the fresh id and the payload's four fields, whatever they hold. */
  function NewOrder(b: JsValue, id: string): OrderData
    requires !Nullish(b)
  {
    OrderData(id, Prop(b, "deliverTo"), Prop(b, "mobileNumber"), Prop(b, "status"), Prop(b, "dishes"))
  }

  /** `update`'s four assignments; the id is not among them. */
  function Overwrite(o: OrderData, b: JsValue): OrderData
    requires !Nullish(b)
  {
    o.(deliverTo := Prop(b, "deliverTo"), mobileNumber := Prop(b, "mobileNumber"),
       status := Prop(b, "status"), dishes := Prop(b, "dishes"))
  }

  /** `create` on the collection's field values: at most one order is appended, at the end. */
  function CreateSpec(view: seq<OrderData>, req: Request, freshId: string): (r: (seq<OrderData>, Response<OrderData>))
    ensures |view| <= |r.0| <= |view| + 1 && r.0[..|view|] == view
    ensures r.1.Reply? <==> |r.0| == |view| + 1
    ensures r.1.Reply? ==> r.0[|view|].id == freshId && r.1 == Reply(201, One(r.0[|view|]))
  {
    match RunChain(CreateChain(), req, NoLocals, view)
    case Stop(e) => (view, Failure(e))
    case Crash => (view, Thrown)
    case Continue(l) =>
      if Nullish(l.requestBody) then (view, Thrown)
      else
        var o := NewOrder(l.requestBody, freshId);
        (view + [o], Reply(201, One(o)))
  }

  /** `read`: a reply carries an order of the collection with the route's id. */
  function ReadSpec(view: seq<OrderData>, req: Request): (r: Response<OrderData>)
    ensures r.Reply? ==> r.status == 200 && r.payload.One? && r.payload.item in view && r.payload.item.id == req.orderId
  {
    assert ReadChain()[1..] == [];
    match RunChain(ReadChain(), req, NoLocals, view)
    case Stop(e) => Failure(e)
    case Crash => Thrown
    case Continue(l) => if l.found.None? then Thrown else Reply(200, One(l.found.value.record))
  }

  /** `update`: the length is kept, and a failed update changes nothing. */
  function UpdateSpec(view: seq<OrderData>, req: Request): (r: (seq<OrderData>, Response<OrderData>))
    ensures |r.0| == |view|
    ensures !r.1.Reply? ==> r.0 == view
    ensures r.1.Reply? ==> r.1.status == 200 && r.1.payload.One? && r.1.payload.item in r.0
  {
    match RunChain(UpdateChain(), req, NoLocals, view)
    case Stop(e) => (view, Failure(e))
    case Crash => (view, Thrown)
    case Continue(l) =>
      UpdateChainPasses(req, view);
      var k := l.found.value.index;
      var o := Overwrite(view[k], l.requestBody);
      assert view[k := o][k] == o;
      (view[k := o], Reply(200, One(o)))
  }

  /** `delete`: either nothing changes or one order goes; a reply is always 204 without a body. */
  function DestroySpec(view: seq<OrderData>, req: Request): (r: (seq<OrderData>, Response<OrderData>))
    ensures r.1.Reply? ==> r.1 == Reply(204, NoBody)
    ensures !r.1.Reply? ==> r.0 == view
    ensures r.0 == view || |r.0| == |view| - 1
  {
    match RunChain(DeleteChain(), req, NoLocals, view)
    case Stop(e) => (view, Failure(e))
    case Crash => (view, Thrown)
    case Continue(l) =>
      if l.found.None? then (view, Thrown)
      else
        match Seqs.IndexOf(Ids(view), l.found.value.record.id)
        case Some(i) => (Seqs.RemoveAt(view, i), Reply(204, NoBody))
        case None => (view, Reply(204, NoBody))
  }

  // ---------------------------------------------------------------------------
  // Properties of the handlers

  /**
   * `create` succeeds iff the payload has truthy `deliverTo` and
   * `mobileNumber` and acceptable line items; it then appends exactly one
   * order carrying the fresh id and the payload's four fields, `status`
   * included unchecked. Otherwise the collection is unchanged.
   */
  lemma CreateAppendsOne(view: seq<OrderData>, req: Request, freshId: string)
    ensures var (after, resp) := CreateSpec(view, req, freshId);
      var d := DataOf(req.body);
      && (resp.Reply? <==> d.Some? && !Nullish(d.value) && FieldsPass(d.value))
      && (resp.Reply? ==> after == view + [NewOrder(d.value, freshId)] && resp == Reply(201, One(NewOrder(d.value, freshId))))
      && (!resp.Reply? ==> after == view)
  {
    CreateChainOutcome(req, view);
    var d := DataOf(req.body);
    if d.Some? && !Nullish(d.value) {
      FieldsThenDishesPasses(d.value, None);
    }
  }

  /** A created order is found by a later read of its id, when ids were unique and the new one fresh. */
  lemma CreatedOrderReadable(view: seq<OrderData>, req: Request, freshId: string, body: JsValue)
    requires Seqs.Distinct(Ids(view)) && freshId !in Ids(view)
    requires CreateSpec(view, req, freshId).1.Reply?
    ensures var after := CreateSpec(view, req, freshId).0;
      && Seqs.Distinct(Ids(after))
      && ReadSpec(after, Request(body, freshId)) == CreateSpec(view, req, freshId).1.(status := 200)
  {
    CreateAppendsOne(view, req, freshId);
    var after := CreateSpec(view, req, freshId).0;
    assert Ids(after) == Ids(view) + [freshId];
    assert freshId !in Ids(after)[..|view|];
  }

  /** The lookup by id stops at the first order carrying the id, and only there. */
  lemma LookupIsFirst(view: seq<OrderData>, id: string)
    ensures Seqs.IndexOf(Ids(view), id).Some? ==> FirstWithId(view, id, Seqs.IndexOf(Ids(view), id).value)
    ensures forall k :: FirstWithId(view, id, k) ==> Seqs.IndexOf(Ids(view), id) == Some(k)
  {
    match Seqs.IndexOf(Ids(view), id)
    case None =>
      forall k | 0 <= k < |view| ensures view[k].id != id {
        assert Ids(view)[k] == view[k].id;
      }
    case Some(i) =>
      forall k | 0 <= k < i ensures view[k].id != id {
        assert Ids(view)[..i][k] == view[k].id;
      }
  }

  /** A read returns the first order whose id is the route's, or 404. */
  lemma ReadResolvesFirst(view: seq<OrderData>, req: Request)
    ensures var resp := ReadSpec(view, req);
      && (req.orderId !in Ids(view) ==> resp == Failure(OrderNotFound(req.orderId)))
      && (forall k :: FirstWithId(view, req.orderId, k) ==> resp == Reply(200, One(view[k])))
  {
    assert RunChain(ReadChain(), req, NoLocals, view) == OrderExists(req, NoLocals, view);
    LookupIsFirst(view, req.orderId);
  }

  /**
   * `update` succeeds iff the order exists, the payload id is falsy or the
   * route's, the proposed status is valid and not "delivered", and the
   * fields and line items pass. It then overwrites the four fields of the
   * first order with that id; the id, the length and every other order stay.
   */
  lemma UpdateOverwritesResolved(view: seq<OrderData>, req: Request)
    ensures var (after, resp) := UpdateSpec(view, req);
      && (resp.Reply? <==> req.orderId in Ids(view) && UpdatePasses(req.body, req.orderId))
      && (!resp.Reply? ==> after == view)
      && (forall k :: FirstWithId(view, req.orderId, k) && resp.Reply? ==>
            && |after| == |view|
            && after[k] == Overwrite(view[k], DataOf(req.body).value)
            && after[k].id == view[k].id
            && (forall j :: 0 <= j < |view| && j != k ==> after[j] == view[j])
            && resp == Reply(200, One(after[k])))
  {
    UpdateChainPasses(req, view);
    LookupIsFirst(view, req.orderId);
  }

  /** The update chain passes exactly under UpdatePasses, leaving the payload and the first order with the id in the locals. */
  lemma UpdateChainPasses(req: Request, view: seq<OrderData>)
    ensures var r := RunChain(UpdateChain(), req, NoLocals, view);
      var found := Seqs.IndexOf(Ids(view), req.orderId);
      && (r.Continue? <==> found.Some? && UpdatePasses(req.body, req.orderId))
      && (r.Continue? ==> r.locals == Locals(DataOf(req.body).value, Some(Found(found.value, view[found.value]))))
  {
    UpdateChainOutcome(req, view);
    var d := DataOf(req.body);
    match Seqs.IndexOf(Ids(view), req.orderId)
    case None =>
    case Some(i) =>
      assert view[i].id == req.orderId by { assert Ids(view)[i] == view[i].id; }
      if d.Some? && !Nullish(d.value) {
        FieldsThenDishesPasses(d.value, Some(Found(i, view[i])));
      }
  }

  /** The payload conditions under which `update` passes, once the order exists. */
  ghost predicate UpdatePasses(rawBody: JsValue, orderId: string)
  {
    var d := DataOf(rawBody);
    && d.Some? && !Nullish(d.value)
    && var b := d.value;
    && (!Truthy(Prop(b, "id")) || Prop(b, "id") == Str(orderId))
    && Prop(b, "status") in ValidStatus() && Prop(b, "status") != Str("delivered")
    && FieldsPass(b)
  }

  /** An empty `dishes` array passes `bodyHas("dishes")` (arrays are truthy) and is then rejected. */
  lemma EmptyDishesRejected(view: seq<OrderData>, req: Request, freshId: string)
    requires DataOf(req.body).Some? && !Nullish(DataOf(req.body).value)
    requires var b := DataOf(req.body).value;
      Truthy(Prop(b, "deliverTo")) && Truthy(Prop(b, "mobileNumber")) && Prop(b, "dishes") == Arr([])
    ensures CreateSpec(view, req, freshId) == (view, Failure(NoDishes))
  {
    CreateChainOutcome(req, view);
  }

  /** Whether an update passes does not depend on the order's current status. */
  lemma UpdateIgnoresCurrentStatus(view: seq<OrderData>, req: Request, k: nat, current: JsValue)
    requires k < |view|
    ensures UpdateSpec(view[k := view[k].(status := current)], req).1.Reply? == UpdateSpec(view, req).1.Reply?
  {
    var view' := view[k := view[k].(status := current)];
    assert Ids(view') == Ids(view);
    UpdateOverwritesResolved(view, req);
    UpdateOverwritesResolved(view', req);
  }

  /** A successful update never leaves an order "delivered", nor with a status outside the four. */
  lemma UpdateNeverStoresDelivered(view: seq<OrderData>, req: Request)
    ensures var resp := UpdateSpec(view, req).1;
      resp.Reply? ==> resp.payload.One? && resp.payload.item.status in ValidStatus() && resp.payload.item.status != Str("delivered")
  {
    UpdateOverwritesResolved(view, req);
    LookupIsFirst(view, req.orderId);
  }

  /** A truthy payload id other than the route's gives 400, whatever the other fields hold. */
  lemma MismatchedIdRejected(view: seq<OrderData>, req: Request)
    requires req.orderId in Ids(view)
    requires DataOf(req.body).Some? && !Nullish(DataOf(req.body).value)
    requires var id := Prop(DataOf(req.body).value, "id"); Truthy(id) && id != Str(req.orderId)
    ensures UpdateSpec(view, req) == (view, Failure(IdMismatch(Prop(DataOf(req.body).value, "id"), req.orderId)))
  {
    UpdateChainOutcome(req, view);
    LookupIsFirst(view, req.orderId);
  }

  /**
   * `delete` passes iff the first order with the route's id is "pending";
   * it then removes exactly that order, the others keeping their order.
   */
  lemma DestroyRemovesResolved(view: seq<OrderData>, req: Request)
    ensures var (after, resp) := DestroySpec(view, req);
      && (req.orderId !in Ids(view) ==> after == view && resp == Failure(OrderNotFound(req.orderId)))
      && (forall k :: FirstWithId(view, req.orderId, k) ==>
            if view[k].status == Str("pending") then after == Seqs.RemoveAt(view, k) && resp == Reply(204, NoBody)
            else after == view && resp == Failure(NotPending))
  {
    LookupIsFirst(view, req.orderId);
    assert DeleteChain()[1..] == [Pending];
  }

  /** With unique ids, a deleted order is no longer found: a later read gives 404. */
  lemma DeletedOrderNotFound(view: seq<OrderData>, req: Request, body: JsValue)
    requires Seqs.Distinct(Ids(view))
    requires DestroySpec(view, req).1 == Reply(204, NoBody)
    ensures ReadSpec(DestroySpec(view, req).0, Request(body, req.orderId)) == Failure(OrderNotFound(req.orderId))
  {
    DestroyRemovesResolved(view, req);
    LookupIsFirst(view, req.orderId);
    var k := Seqs.IndexOf(Ids(view), req.orderId).value;
    var after := DestroySpec(view, req).0;
    assert after == Seqs.RemoveAt(view, k);
    assert Ids(after) == Seqs.RemoveAt(Ids(view), k);
    Seqs.RemoveAtDistinct(Ids(view), k);
    ReadResolvesFirst(after, Request(body, req.orderId));
  }

  /** `update` never changes an id: the ids of the collection stay as they were, in order. */
  lemma UpdateKeepsIds(view: seq<OrderData>, req: Request)
    ensures Ids(UpdateSpec(view, req).0) == Ids(view)
  {
    UpdateOverwritesResolved(view, req);
    LookupIsFirst(view, req.orderId);
  }

  /** `delete` keeps the ids of the collection free of repeats. */
  lemma DestroyKeepsIdsDistinct(view: seq<OrderData>, req: Request)
    requires Seqs.Distinct(Ids(view))
    ensures Seqs.Distinct(Ids(DestroySpec(view, req).0))
  {
    DestroyRemovesResolved(view, req);
    LookupIsFirst(view, req.orderId);
    var after := DestroySpec(view, req).0;
    if after != view {
      var k := Seqs.IndexOf(Ids(view), req.orderId).value;
      assert after == Seqs.RemoveAt(view, k);
      assert Ids(after) == Seqs.RemoveAt(Ids(view), k);
      Seqs.RemoveAtDistinct(Ids(view), k);
    }
  }

  // ---------------------------------------------------------------------------
  // The order objects and the collection

  /** An order object; `update` assigns four of its fields in place. */
  class Order {
    var id: string
    var deliverTo: JsValue
    var mobileNumber: JsValue
    var status: JsValue
    var dishes: JsValue

    constructor (data: OrderData)
      ensures Data() == data
    {
      id, deliverTo, mobileNumber, status, dishes := data.id, data.deliverTo, data.mobileNumber, data.status, data.dishes;
    }

    /** `update`'s four assignments to the object found; the id is left alone. */
    method Assign(b: JsValue)
      requires !Nullish(b)
      modifies this
      ensures Data() == Overwrite(old(Data()), b)
    {
      deliverTo := Prop(b, "deliverTo");
      mobileNumber := Prop(b, "mobileNumber");
      status := Prop(b, "status");
      dishes := Prop(b, "dishes");
    }

    function Data(): OrderData
      reads this
    {
      OrderData(id, deliverTo, mobileNumber, status, dishes)
    }
  }

  /** The module-level `orders` array and the handlers that read and change it. */
  class OrderStore {
    var orders: seq<Order>

    /** Each order object is in the array at most once. */
    ghost predicate Valid()
      reads this
    {
      Seqs.Distinct(orders)
    }

    /** The field values of the orders, in array order. */
    function View(): (v: seq<OrderData>)
      reads this, orders
      ensures |v| == |orders|
      ensures forall i :: 0 <= i < |orders| ==> v[i] == orders[i].Data()
    {
      var os := orders;
      seq(|os|, i requires 0 <= i < |os| reads os => os[i].Data())
    }

    /** The seed data: any array of distinct order objects. */
    constructor (initial: seq<Order>)
      requires Seqs.Distinct(initial)
      ensures Valid() && orders == initial
    {
      orders := initial;
    }

    /** `list`: the whole collection, unchanged. */
    method List() returns (resp: Response<OrderData>)
      ensures resp == Reply(200, Many(View()))
    {
      resp := Reply(200, Many(View()));
    }

    /** The `create` chain; `freshId` is what `nextId()` returns. */
    method Create(req: Request, freshId: string) returns (resp: Response<OrderData>)
      requires Valid() && freshId !in Ids(View())
      modifies this
      ensures Valid()
      ensures (View(), resp) == CreateSpec(old(View()), req, freshId)
    {
      ghost var before := View();
      var r := RunSteps(CreateChain(), req, View());
      match r
      case Stop(e) => resp := Failure(e);
      case Crash => resp := Thrown;
      case Continue(l) =>
        if Nullish(l.requestBody) {
          resp := Thrown;
        } else {
          var order := new Order(NewOrder(l.requestBody, freshId));
          orders := orders + [order];
          assert View() == before + [order.Data()];
          resp := Reply(201, One(order.Data()));
        }
    }

    /** The `read` chain. */
    method Read(req: Request) returns (resp: Response<OrderData>)
      ensures resp == ReadSpec(View(), req)
    {
      var r := RunSteps(ReadChain(), req, View());
      match r
      case Stop(e) => resp := Failure(e);
      case Crash => resp := Thrown;
      case Continue(l) =>
        resp := if l.found.None? then Thrown else Reply(200, One(l.found.value.record));
    }

    /** The `update` chain: the resolved order object is changed in place. */
    method Update(req: Request) returns (resp: Response<OrderData>)
      requires Valid()
      modifies orders
      ensures Valid() && orders == old(orders)
      ensures (View(), resp) == UpdateSpec(old(View()), req)
    {
      ghost var before := View();
      var r := RunSteps(UpdateChain(), req, View());
      match r
      case Stop(e) => resp := Failure(e);
      case Crash => resp := Thrown;
      case Continue(l) =>
        UpdateChainPasses(req, before);
        var b := l.requestBody;
        var k := l.found.value.index;
        ghost var updated := Overwrite(before[k], b);
        assert UpdateSpec(before, req) == (before[k := updated], Reply(200, One(updated)));
        var order := orders[k];
        order.Assign(b);
        forall j | 0 <= j < |orders| && j != k
          ensures orders[j].Data() == before[j]
        {
          assert orders[j] != order;
        }
        assert View() == before[k := updated];
        resp := Reply(200, One(order.Data()));
    }

    /** The `delete` chain: `findIndex` by the resolved order's id, then `splice`. */
    method Destroy(req: Request) returns (resp: Response<OrderData>)
      requires Valid()
      modifies this
      ensures Valid()
      ensures (View(), resp) == DestroySpec(old(View()), req)
    {
      ghost var before := View();
      var r := RunSteps(DeleteChain(), req, View());
      match r
      case Stop(e) => resp := Failure(e);
      case Crash => resp := Thrown;
      case Continue(l) =>
        if l.found.None? {
          resp := Thrown;
        } else {
          var index := Seqs.IndexOf(Ids(View()), l.found.value.record.id);
          if index.Some? {
            Seqs.RemoveAtDistinct(orders, index.value);
            orders := Seqs.RemoveAt(orders, index.value);
            assert View() == Seqs.RemoveAt(before, index.value);
          }
          resp := Reply(204, NoBody);
        }
    }
  }
}
