/**
 * The dish controller: its validation steps, the chains it exports, the
 * dish objects and the in-memory collection its handlers change. No chain
 * removes a dish.
 */
module Dishes {
  import opened Js
  import opened Chain
  import Seqs

  // ---------------------------------------------------------------------------
  // Entities and requests

  /** The field values of one dish object. */
  datatype DishData = DishData(id: string, name: JsValue, description: JsValue, imageUrl: JsValue, price: JsValue)

  function Ids(view: seq<DishData>): (ids: seq<string>)
    ensures |ids| == |view|
    ensures forall i :: 0 <= i < |view| ==> ids[i] == view[i].id
  {
    seq(|view|, i requires 0 <= i < |view| => view[i].id)
  }

  /** k is where `dishes.find(dish => dish.id === id)` stops. */
  ghost predicate FirstWithId(view: seq<DishData>, id: string, k: int)
  {
    0 <= k < |view| && view[k].id == id && forall j :: 0 <= j < k ==> view[j].id != id
  }

  /** The parts of a request the controller reads: `req.body`, `req.params.dishId` and `req.originalUrl`. */
  datatype Request = Request(body: JsValue, dishId: string, originalUrl: string)

  type DishLocals = Locals<DishData>

  /** `res.locals` when a request arrives. */
  const NoLocals: DishLocals := Locals(Undefined, None)

  /** The locals resolve the dish the route's id names. */
  ghost predicate Resolves(locals: DishLocals, view: seq<DishData>, id: string)
  {
    && locals.found.Some?
    && FirstWithId(view, id, locals.found.value.index)
    && locals.found.value.record == view[locals.found.value.index]
  }

  // ---------------------------------------------------------------------------
  // Errors

  function DishNotFound(id: string): HttpError
  {
    HttpError(404, [Lit("Dish does not exist: "), Interp(Str(id))])
  }

  const BadPrice := HttpError(400, [Lit("Dish must have a price that is an integer greater than 0")])

  function IdMismatch(given: JsValue, url: string): HttpError
  {
    HttpError(400, [Lit("Dish id does not match route id. Dish: "), Interp(given), Lit(", Route: "), Interp(Str(url))])
  }

  // ---------------------------------------------------------------------------
  // Validation steps

  /** `dishExists`: resolve the first dish whose id is the route's, or 404. */
  function DishExists(req: Request, locals: DishLocals, view: seq<DishData>): (r: StepResult<DishLocals>)
    ensures !r.Crash?
    ensures r.Continue? <==> req.dishId in Ids(view)
    ensures r.Continue? ==> Resolves(r.locals, view, req.dishId) && r.locals.requestBody == locals.requestBody
    ensures r.Stop? ==> r.error == DishNotFound(req.dishId)
  {
    match Seqs.IndexOf(Ids(view), req.dishId)
    case Some(k) =>
      assert forall j :: 0 <= j < k ==> Ids(view)[..k][j] == view[j].id;
      Continue(locals.(found := Some(Found(k, view[k]))))
    case None => Stop(DishNotFound(req.dishId))
  }

  /** What `validateDishPrice` accepts: a number of at least 1, integral or not. */
  predicate PriceOk(price: JsValue)
  {
    price.Num? && price.n >= 1.0
  }

  /**
   * The signals `validateDishPrice` gives, as written: its `next(err)` does
   * not return, so a rejected price is followed by `next()`.
   */
  function PriceSignals(locals: DishLocals): (signals: seq<Signal>)
    ensures signals != []
    ensures Nullish(locals.requestBody) ==> signals == [Throw]
    ensures !Nullish(locals.requestBody) ==>
      && |signals| <= 2
      && signals[|signals| - 1] == Next
      && (|signals| == 1 <==> PriceOk(Prop(locals.requestBody, "price")))
  {
    var body := locals.requestBody;
    if Nullish(body) then [Throw]
    else (if PriceOk(Prop(body, "price")) then [] else [NextErr(BadPrice)]) + [Next]
  }

  /** `validateDishPrice`: the payload's price must be a number no smaller than 1. */
  function ValidateDishPrice(locals: DishLocals): (r: StepResult<DishLocals>)
    ensures Nullish(locals.requestBody) ==> r == Crash
    ensures !Nullish(locals.requestBody) ==>
      && (r.Continue? <==> PriceOk(Prop(locals.requestBody, "price")))
      && (r.Continue? ==> r.locals == locals)
      && (!r.Continue? ==> r == Stop(BadPrice))
  {
    Decide(PriceSignals(locals), locals)
  }

  /** A rejected price is followed by a second call, `next()`. */
  lemma PriceRejectionSignalsTwice(locals: DishLocals)
    requires !Nullish(locals.requestBody) && !PriceOk(Prop(locals.requestBody, "price"))
    ensures PriceSignals(locals) == [NextErr(BadPrice), Next]
  {
  }

  /** Integer-ness is not checked: a price of 1.5 passes. */
  lemma FractionalPriceAccepted(locals: DishLocals)
    requires locals.requestBody == Obj(map["price" := Num(1.5)])
    ensures ValidateDishPrice(locals) == Continue(locals)
  {
  }

  /**
   * `isDishIdMatching`: re-normalize the payload, then compare a truthy
   * payload id with the resolved dish's; the error quotes the request URL.
   */
  function IsDishIdMatching(req: Request, locals: DishLocals): (r: StepResult<DishLocals>)
    ensures DataOf(req.body).None? ==> r == Crash
    ensures DataOf(req.body).Some? ==>
      var data := DataOf(req.body).value;
      && (Nullish(data) ==> r == Crash)
      && (!Nullish(data) && !Truthy(Prop(data, "id")) ==> r == Continue(locals.(requestBody := data)))
      && (!Nullish(data) && Truthy(Prop(data, "id")) && locals.found.None? ==> r == Crash)
      && (!Nullish(data) && Truthy(Prop(data, "id")) && locals.found.Some? ==>
            r == if Prop(data, "id") == Str(locals.found.value.record.id) then Continue(locals.(requestBody := data))
                 else Stop(IdMismatch(Prop(data, "id"), req.originalUrl)))
  {
    match DataOf(req.body)
    case None => Crash
    case Some(data) =>
      if Nullish(data) then Crash
      else
        var id := Prop(data, "id");
        if !Truthy(id) then Continue(locals.(requestBody := data))
        else if locals.found.None? then Crash
        else if id == Str(locals.found.value.record.id) then Continue(locals.(requestBody := data))
        else Stop(IdMismatch(id, req.originalUrl))
  }

  // ---------------------------------------------------------------------------
  // Chains

  datatype Step = HasField(field: string) | PriceValid | Exists | IdMatches

  /** The chains the controller exports, step by step in export order. */
  function CreateChain(): seq<Step>
  {
    [HasField("name"), HasField("description"), HasField("image_url"), HasField("price"), PriceValid]
  }

  function ReadChain(): seq<Step>
  {
    [Exists]
  }

  function UpdateChain(): seq<Step>
  {
    [Exists, IdMatches, HasField("name"), HasField("description"), HasField("image_url"), HasField("price"), PriceValid]
  }

  /**
   * One exported step. Each writes only its own part of `res.locals`:
   * `dishExists` the resolved dish, the others at most the payload.
   */
  function Apply(step: Step, req: Request, locals: DishLocals, view: seq<DishData>): (r: StepResult<DishLocals>)
    ensures r.Continue? && !step.Exists? ==> r.locals.found == locals.found
    ensures r.Continue? && step.Exists? ==> r.locals.requestBody == locals.requestBody
  {
    match step
    case HasField(field) => BodyHas("Dish", field, req.body, locals)
    case PriceValid => ValidateDishPrice(locals)
    case Exists => DishExists(req, locals, view)
    case IdMatches => IsDishIdMatching(req, locals)
  }

  /**
   * Run the steps in order; the first that does not continue decides the
   * outcome. A chain without `dishExists` keeps the resolved dish it was given.
   */
  function RunChain(steps: seq<Step>, req: Request, locals: DishLocals, view: seq<DishData>): (r: StepResult<DishLocals>)
    ensures r.Continue? && Exists !in steps ==> r.locals.found == locals.found
    decreases |steps|
  {
    if steps == [] then Continue(locals)
    else
      match Apply(steps[0], req, locals, view)
      case Continue(next) =>
        assert forall s :: s in steps[1..] ==> s in steps;
        RunChain(steps[1..], req, next, view)
      case Stop(e) => Stop(e)
      case Crash => Crash
  }

  /** Chains compose: running `s1 + s2` runs `s1`, then `s2` on what `s1` left, unless `s1` already stopped. */
  lemma {:induction false} RunChainAppend(s1: seq<Step>, s2: seq<Step>, req: Request, locals: DishLocals, view: seq<DishData>)
    ensures RunChain(s1 + s2, req, locals, view) ==
      match RunChain(s1, req, locals, view)
      case Continue(next) => RunChain(s2, req, next, view)
      case Stop(e) => Stop(e)
      case Crash => Crash
    decreases |s1|
  {
    if s1 == [] {
      assert s1 + s2 == s2;
    } else {
      assert (s1 + s2)[0] == s1[0];
      assert (s1 + s2)[1..] == s1[1..] + s2;
      match Apply(s1[0], req, locals, view)
      case Continue(next) => RunChainAppend(s1[1..], s2, req, next, view);
      case Stop(_) =>
      case Crash =>
    }
  }

  /** The runner, stepping through a chain as the router does. */
  method RunSteps(steps: seq<Step>, req: Request, view: seq<DishData>) returns (r: StepResult<DishLocals>)
    ensures r == RunChain(steps, req, NoLocals, view)
  {
    var locals := NoLocals;
    var i := 0;
    while i < |steps|
      invariant 0 <= i <= |steps|
      invariant RunChain(steps[i..], req, locals, view) == RunChain(steps, req, NoLocals, view)
    {
      assert steps[i..][1..] == steps[i + 1..];
      var out := Apply(steps[i], req, locals, view);
      if !out.Continue? {
        return out;
      }
      locals := out.locals;
      i := i + 1;
    }
    r := Continue(locals);
  }

  /** The decision once the payload `b` is normalized: four presence checks in order, then the price. */
  function FieldsThenPrice(b: JsValue, found: Option<Found<DishData>>): StepResult<DishLocals>
    requires !Nullish(b)
  {
    if !Truthy(Prop(b, "name")) then Stop(MissingField("Dish", "name"))
    else if !Truthy(Prop(b, "description")) then Stop(MissingField("Dish", "description"))
    else if !Truthy(Prop(b, "image_url")) then Stop(MissingField("Dish", "image_url"))
    else if !Truthy(Prop(b, "price")) then Stop(MissingField("Dish", "price"))
    else if !PriceOk(Prop(b, "price")) then Stop(BadPrice)
    else Continue(Locals(b, found))
  }

  /** The four fields are truthy and the price is a number of at least 1. */
  predicate FieldsPass(b: JsValue)
    requires !Nullish(b)
  {
    && Truthy(Prop(b, "name")) && Truthy(Prop(b, "description")) && Truthy(Prop(b, "image_url"))
    && PriceOk(Prop(b, "price"))
  }

  lemma FieldStepsOutcome(req: Request, b: JsValue, found: Option<Found<DishData>>, view: seq<DishData>)
    requires !Nullish(b)
    ensures RunChain(CreateChain(), req, Locals(b, found), view) == FieldsThenPrice(b, found)
  {
    assert CreateChain()[1..] == [HasField("description"), HasField("image_url"), HasField("price"), PriceValid];
    assert CreateChain()[2..] == [HasField("image_url"), HasField("price"), PriceValid];
    assert CreateChain()[3..] == [HasField("price"), PriceValid];
    assert CreateChain()[4..] == [PriceValid];
  }

  /**
   * The create chain checks `name`, `description`, `image_url` and `price`
   * for presence in that order, then the price; the first failure decides.
   */
  lemma CreateChainOutcome(req: Request, view: seq<DishData>)
    ensures var r := RunChain(CreateChain(), req, NoLocals, view);
      match DataOf(req.body)
      case None => r == Crash
      case Some(b) => if Nullish(b) then r == Crash else r == FieldsThenPrice(b, None)
  {
    match DataOf(req.body)
    case None =>
    case Some(b) =>
      if !Nullish(b) && Truthy(Prop(b, "name")) {
        FieldStepsOutcome(req, b, None, view);
        assert RunChain(CreateChain(), req, NoLocals, view) == RunChain(CreateChain()[1..], req, Locals(b, None), view);
      }
  }

  /** The update chain: 404 for an unknown id, then id match, then the create chain's checks. */
  lemma UpdateChainOutcome(req: Request, view: seq<DishData>)
    ensures var r := RunChain(UpdateChain(), req, NoLocals, view);
      match Seqs.IndexOf(Ids(view), req.dishId)
      case None => r == Stop(DishNotFound(req.dishId))
      case Some(k) =>
        match DataOf(req.body)
        case None => r == Crash
        case Some(b) =>
          if Nullish(b) then r == Crash
          else if Truthy(Prop(b, "id")) && Prop(b, "id") != Str(req.dishId) then r == Stop(IdMismatch(Prop(b, "id"), req.originalUrl))
          else r == FieldsThenPrice(b, Some(Found(k, view[k])))
  {
    match Seqs.IndexOf(Ids(view), req.dishId)
    case None =>
    case Some(k) =>
      assert view[k].id == req.dishId by { assert Ids(view)[k] == view[k].id; }
      var f := Found(k, view[k]);
      var l2 := Locals(Undefined, Some(f));
      assert DishExists(req, NoLocals, view) == Continue(l2);
      assert RunChain(UpdateChain(), req, NoLocals, view) == RunChain(UpdateChain()[1..], req, l2, view);
      match DataOf(req.body)
      case None =>
      case Some(b) =>
        if !Nullish(b) {
          var id := Prop(b, "id");
          if !Truthy(id) || id == Str(req.dishId) {
            var l3 := Locals(b, Some(f));
            assert IsDishIdMatching(req, l2) == Continue(l3);
            assert UpdateChain()[1..][1..] == UpdateChain()[2..] == CreateChain();
            FieldStepsOutcome(req, b, Some(f), view);
          }
        }
  }

  /** The update chain passes exactly when the dish exists and the payload passes, leaving both in the locals. */
  lemma UpdateChainPasses(req: Request, view: seq<DishData>)
    ensures var r := RunChain(UpdateChain(), req, NoLocals, view);
      var found := Seqs.IndexOf(Ids(view), req.dishId);
      && (r.Continue? <==> found.Some? && UpdatePasses(req.body, req.dishId))
      && (r.Continue? ==> r.locals == Locals(DataOf(req.body).value, Some(Found(found.value, view[found.value]))))
  {
    UpdateChainOutcome(req, view);
  }

  /** The payload conditions under which `update` passes, once the dish exists. */
  ghost predicate UpdatePasses(rawBody: JsValue, dishId: string)
  {
    var d := DataOf(rawBody);
    && d.Some? && !Nullish(d.value)
    && (!Truthy(Prop(d.value, "id")) || Prop(d.value, "id") == Str(dishId))
    && FieldsPass(d.value)
  }

  // ---------------------------------------------------------------------------
  // Terminal handlers, specified on the collection's field values

  /** The object `create` builds: the fresh id and the payload's four fields. */
  function NewDish(b: JsValue, id: string): DishData
    requires !Nullish(b)
  {
    DishData(id, Prop(b, "name"), Prop(b, "description"), Prop(b, "image_url"), Prop(b, "price"))
  }

  /** `update`'s four assignments; the id is not among them. */
  function Overwrite(d: DishData, b: JsValue): DishData
    requires !Nullish(b)
  {
    d.(name := Prop(b, "name"), description := Prop(b, "description"), imageUrl := Prop(b, "image_url"), price := Prop(b, "price"))
  }

  /** `create` on the collection's field values: at most one dish is appended, at the end. */
  function CreateSpec(view: seq<DishData>, req: Request, freshId: string): (r: (seq<DishData>, Response<DishData>))
    ensures |view| <= |r.0| <= |view| + 1 && r.0[..|view|] == view
    ensures r.1.Reply? <==> |r.0| == |view| + 1
    ensures r.1.Reply? ==> r.0[|view|].id == freshId && r.1 == Reply(201, One(r.0[|view|]))
  {
    match RunChain(CreateChain(), req, NoLocals, view)
    case Stop(e) => (view, Failure(e))
    case Crash => (view, Thrown)
    case Continue(l) =>
      if Nullish(l.requestBody) then (view, Thrown)
      else
        var d := NewDish(l.requestBody, freshId);
        (view + [d], Reply(201, One(d)))
  }

  /** `read`: a reply carries a dish of the collection with the route's id. */
  function ReadSpec(view: seq<DishData>, req: Request): (r: Response<DishData>)
    ensures r.Reply? ==> r.status == 200 && r.payload.One? && r.payload.item in view && r.payload.item.id == req.dishId
  {
    assert ReadChain()[1..] == [];
    match RunChain(ReadChain(), req, NoLocals, view)
    case Stop(e) => Failure(e)
    case Crash => Thrown
    case Continue(l) => if l.found.None? then Thrown else Reply(200, One(l.found.value.record))
  }

  /** `update`: the length is kept, and a failed update changes nothing. */
  function UpdateSpec(view: seq<DishData>, req: Request): (r: (seq<DishData>, Response<DishData>))
    ensures |r.0| == |view|
    ensures !r.1.Reply? ==> r.0 == view
    ensures r.1.Reply? ==> r.1.status == 200 && r.1.payload.One? && r.1.payload.item in r.0
  {
    match RunChain(UpdateChain(), req, NoLocals, view)
    case Stop(e) => (view, Failure(e))
    case Crash => (view, Thrown)
    case Continue(l) =>
      UpdateChainPasses(req, view);
      var k := l.found.value.index;
      var d := Overwrite(view[k], l.requestBody);
      assert view[k := d][k] == d;
      (view[k := d], Reply(200, One(d)))
  }

  // ---------------------------------------------------------------------------
  // Properties of the handlers

  /** The lookup by id stops at the first dish carrying the id, and only there. */
  lemma LookupIsFirst(view: seq<DishData>, id: string)
    ensures Seqs.IndexOf(Ids(view), id).Some? ==> FirstWithId(view, id, Seqs.IndexOf(Ids(view), id).value)
    ensures forall k :: FirstWithId(view, id, k) ==> Seqs.IndexOf(Ids(view), id) == Some(k)
  {
    match Seqs.IndexOf(Ids(view), id)
    case None =>
      forall k | 0 <= k < |view| ensures view[k].id != id {
        assert Ids(view)[k] == view[k].id;
      }
    case Some(i) =>
      forall k | 0 <= k < i ensures view[k].id != id {
        assert Ids(view)[..i][k] == view[k].id;
      }
  }

  /**
   * `create` succeeds iff the four fields are truthy and the price is a
   * number of at least 1; it then appends exactly one dish with the fresh
   * id and the payload's fields. Otherwise the collection is unchanged.
   */
  lemma CreateAppendsOne(view: seq<DishData>, req: Request, freshId: string)
    ensures var (after, resp) := CreateSpec(view, req, freshId);
      var d := DataOf(req.body);
      && (resp.Reply? <==> d.Some? && !Nullish(d.value) && FieldsPass(d.value))
      && (resp.Reply? ==> after == view + [NewDish(d.value, freshId)] && resp == Reply(201, One(NewDish(d.value, freshId))))
      && (!resp.Reply? ==> after == view)
  {
    CreateChainOutcome(req, view);
  }

  /** A created dish is found by a later read of its id, when ids were unique and the new one fresh. */
  lemma CreatedDishReadable(view: seq<DishData>, req: Request, freshId: string, body: JsValue, url: string)
    requires Seqs.Distinct(Ids(view)) && freshId !in Ids(view)
    requires CreateSpec(view, req, freshId).1.Reply?
    ensures var after := CreateSpec(view, req, freshId).0;
      && Seqs.Distinct(Ids(after))
      && ReadSpec(after, Request(body, freshId, url)) == CreateSpec(view, req, freshId).1.(status := 200)
  {
    CreateAppendsOne(view, req, freshId);
    var after := CreateSpec(view, req, freshId).0;
    assert Ids(after) == Ids(view) + [freshId];
    assert freshId !in Ids(after)[..|view|];
  }

  /** A read returns the first dish whose id is the route's, or 404. */
  lemma ReadResolvesFirst(view: seq<DishData>, req: Request)
    ensures var resp := ReadSpec(view, req);
      && (req.dishId !in Ids(view) ==> resp == Failure(DishNotFound(req.dishId)))
      && (forall k :: FirstWithId(view, req.dishId, k) ==> resp == Reply(200, One(view[k])))
  {
    assert RunChain(ReadChain(), req, NoLocals, view) == DishExists(req, NoLocals, view);
    LookupIsFirst(view, req.dishId);
  }

  /**
   * `update` succeeds iff the dish exists, the payload id is falsy or the
   * route's, and the fields and price pass. It then overwrites the four
   * fields of the first dish with that id; the id, the length and every
   * other dish stay as they were.
   */
  lemma UpdateOverwritesResolved(view: seq<DishData>, req: Request)
    ensures var (after, resp) := UpdateSpec(view, req);
      && (resp.Reply? <==> req.dishId in Ids(view) && UpdatePasses(req.body, req.dishId))
      && (!resp.Reply? ==> after == view)
      && (forall k :: FirstWithId(view, req.dishId, k) && resp.Reply? ==>
            && |after| == |view|
            && after[k] == Overwrite(view[k], DataOf(req.body).value)
            && after[k].id == view[k].id
            && (forall j :: 0 <= j < |view| && j != k ==> after[j] == view[j])
            && resp == Reply(200, One(after[k])))
  {
    UpdateChainPasses(req, view);
    LookupIsFirst(view, req.dishId);
  }

  /** A truthy payload id other than the route's gives 400, whatever the other fields hold. */
  lemma MismatchedIdRejected(view: seq<DishData>, req: Request)
    requires req.dishId in Ids(view)
    requires DataOf(req.body).Some? && !Nullish(DataOf(req.body).value)
    requires var id := Prop(DataOf(req.body).value, "id"); Truthy(id) && id != Str(req.dishId)
    ensures UpdateSpec(view, req) == (view, Failure(IdMismatch(Prop(DataOf(req.body).value, "id"), req.originalUrl)))
  {
    UpdateChainOutcome(req, view);
  }

  /**
   * No chain removes a dish: `create` keeps every dish in place and at most
   * appends, and `update` keeps the length and every dish's id.
   */
  lemma NoDishRemoved(view: seq<DishData>, req: Request, freshId: string)
    ensures var after := CreateSpec(view, req, freshId).0;
      |after| >= |view| && after[..|view|] == view
    ensures Ids(UpdateSpec(view, req).0) == Ids(view)
  {
    CreateAppendsOne(view, req, freshId);
    UpdateOverwritesResolved(view, req);
    LookupIsFirst(view, req.dishId);
    var after := UpdateSpec(view, req).0;
    assert |after| == |view|;
    forall j | 0 <= j < |view|
      ensures after[j].id == view[j].id
    {
    }
  }

  // ---------------------------------------------------------------------------
  // The dish objects and the collection

  /** A dish object; `update` assigns four of its fields in place. */
  class Dish {
    var id: string
    var name: JsValue
    var description: JsValue
    var imageUrl: JsValue
    var price: JsValue

    constructor (data: DishData)
      ensures Data() == data
    {
      id, name, description, imageUrl, price := data.id, data.name, data.description, data.imageUrl, data.price;
    }

    /** `update`'s four assignments to the object found; the id is left alone. */
    method Assign(b: JsValue)
      requires !Nullish(b)
      modifies this
      ensures Data() == Overwrite(old(Data()), b)
    {
      name := Prop(b, "name");
      description := Prop(b, "description");
      imageUrl := Prop(b, "image_url");
      price := Prop(b, "price");
    }

    function Data(): DishData
      reads this
    {
      DishData(id, name, description, imageUrl, price)
    }
  }

  /** The module-level `dishes` array and the handlers that read and change it. */
  class DishStore {
    var dishes: seq<Dish>

    /** Each dish object is in the array at most once. */
    ghost predicate Valid()
      reads this
    {
      Seqs.Distinct(dishes)
    }

    /** The field values of the dishes, in array order. */
    function View(): (v: seq<DishData>)
      reads this, dishes
      ensures |v| == |dishes|
      ensures forall i :: 0 <= i < |dishes| ==> v[i] == dishes[i].Data()
    {
      var ds := dishes;
      seq(|ds|, i requires 0 <= i < |ds| reads ds => ds[i].Data())
    }

    /** The seed data: any array of distinct dish objects. */
    constructor (initial: seq<Dish>)
      requires Seqs.Distinct(initial)
      ensures Valid() && dishes == initial
    {
      dishes := initial;
    }

    /** `list`: the whole collection, unchanged. */
    method List() returns (resp: Response<DishData>)
      ensures resp == Reply(200, Many(View()))
    {
      resp := Reply(200, Many(View()));
    }

    /** The `create` chain; `freshId` is what `nextId()` returns. */
    method Create(req: Request, freshId: string) returns (resp: Response<DishData>)
      requires Valid() && freshId !in Ids(View())
      modifies this
      ensures Valid()
      ensures (View(), resp) == CreateSpec(old(View()), req, freshId)
    {
      ghost var before := View();
      var r := RunSteps(CreateChain(), req, View());
      match r
      case Stop(e) => resp := Failure(e);
      case Crash => resp := Thrown;
      case Continue(l) =>
        if Nullish(l.requestBody) {
          resp := Thrown;
        } else {
          var dish := new Dish(NewDish(l.requestBody, freshId));
          dishes := dishes + [dish];
          assert View() == before + [dish.Data()];
          resp := Reply(201, One(dish.Data()));
        }
    }

    /** The `read` chain. */
    method Read(req: Request) returns (resp: Response<DishData>)
      ensures resp == ReadSpec(View(), req)
    {
      var r := RunSteps(ReadChain(), req, View());
      match r
      case Stop(e) => resp := Failure(e);
      case Crash => resp := Thrown;
      case Continue(l) =>
        resp := if l.found.None? then Thrown else Reply(200, One(l.found.value.record));
    }

    /** The `update` chain: the resolved dish object is changed in place. */
    method Update(req: Request) returns (resp: Response<DishData>)
      requires Valid()
      modifies dishes
      ensures Valid() && dishes == old(dishes)
      ensures (View(), resp) == UpdateSpec(old(View()), req)
    {
      ghost var before := View();
      var r := RunSteps(UpdateChain(), req, View());
      match r
      case Stop(e) => resp := Failure(e);
      case Crash => resp := Thrown;
      case Continue(l) =>
        UpdateChainPasses(req, before);
        var b := l.requestBody;
        var k := l.found.value.index;
        ghost var updated := Overwrite(before[k], b);
        assert UpdateSpec(before, req) == (before[k := updated], Reply(200, One(updated)));
        var dish := dishes[k];
        dish.Assign(b);
        forall j | 0 <= j < |dishes| && j != k
          ensures dishes[j].Data() == before[j]
        {
          assert dishes[j] != dish;
        }
        assert View() == before[k := updated];
        resp := Reply(200, One(dish.Data()));
    }
  }
}
