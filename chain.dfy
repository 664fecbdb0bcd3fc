/**
 * What the two controllers share: the per-request context (`res.locals`),
 * the errors a step passes to `next`, the outcome of one step, the responses
 * the terminal handlers send, and the field-presence check `bodyHas`, which
 * both controllers define identically apart from the resource name.
 */
module Chain {
  import opened Js

  /** One part of a template literal: literal text or an interpolated `${value}`. */
  datatype Piece = Lit(text: string) | Interp(value: JsValue)

  /** The `{ status, message }` object a step passes to `next`. */
  datatype HttpError = HttpError(status: int, message: seq<Piece>)

  /**
   * One thing a step does to end its turn: `next()`, `next(err)`, or a
   * thrown TypeError (which the host turns into a `next(err)` of its own).
   */
  datatype Signal = Next | NextErr(error: HttpError) | Throw

  /** The outcome of a step, or of a chain of steps. */
  datatype StepResult<L> = Continue(locals: L) | Stop(error: HttpError) | Crash

  /** The first signal a step gives decides its outcome; later ones are ignored. */
  function Decide<L>(signals: seq<Signal>, locals: L): (r: StepResult<L>)
    requires signals != []
    ensures r.Continue? <==> signals[0] == Next
    ensures r.Continue? ==> r.locals == locals
    ensures r.Stop? <==> signals[0].NextErr?
    ensures r.Stop? ==> r.error == signals[0].error
  {
    match signals[0]
    case Next => Continue(locals)
    case NextErr(e) => Stop(e)
    case Throw => Crash
  }

  /**
   * A resolved entity: a reference into the collection, given as its
   * position there together with the field values it held when found.
   */
  datatype Found<E> = Found(index: nat, record: E)

  /** `res.locals`: the normalized payload (`undefined` until set) and the resolved entity. */
  datatype Locals<E> = Locals(requestBody: JsValue, found: Option<Found<E>>)

  /** The payload a body-reading step sees: the stored one, else `req.body`'s normalized `data`. */
  function CurrentBody<E>(rawBody: JsValue, locals: Locals<E>): (r: Option<JsValue>)
    ensures locals.requestBody != Undefined ==> r == Some(locals.requestBody)
    ensures locals.requestBody == Undefined ==> r == DataOf(rawBody)
  {
    if locals.requestBody == Undefined then DataOf(rawBody) else Some(locals.requestBody)
  }

  function MissingField(resource: string, name: string): HttpError
  {
    HttpError(400, [Lit(resource + " must include a "), Interp(Str(name))])
  }

  /**
   * `bodyHas(name)`: normalize the payload if no earlier step did, then pass
   * iff the payload's `name` field is truthy.
   */
  function BodyHas<E>(resource: string, name: string, rawBody: JsValue, locals: Locals<E>): (r: StepResult<Locals<E>>)
    ensures var b := CurrentBody(rawBody, locals);
      && (r.Crash? <==> b.None? || Nullish(b.value))
      && (r.Continue? <==> b.Some? && !Nullish(b.value) && Truthy(Prop(b.value, name)))
      && (r.Continue? ==> r.locals == locals.(requestBody := b.value))
      && (r.Stop? ==> r.error == MissingField(resource, name))
  {
    match CurrentBody(rawBody, locals)
    case None => Crash
    case Some(body) =>
      if Nullish(body) then Crash
      else if Truthy(Prop(body, name)) then Continue(locals.(requestBody := body))
      else Stop(MissingField(resource, name))
  }

  /**
   * The payload is normalized once: after a passing `bodyHas`, every later
   * body-reading step sees that same object, whatever the raw body holds.
   */
  lemma BodyNormalizedOnce<E>(resource: string, name: string, rawBody: JsValue, locals: Locals<E>, otherBody: JsValue)
    requires BodyHas(resource, name, rawBody, locals).Continue?
    ensures var after := BodyHas(resource, name, rawBody, locals).locals;
      && after.requestBody == CurrentBody(rawBody, locals).value
      && CurrentBody(otherBody, after) == Some(after.requestBody)
      && (locals.requestBody != Undefined ==> after == locals)
  {
  }

  /** Missing, null, "", 0 and false all fail the presence check the same way. */
  lemma FalsyFieldRejected<E>(resource: string, name: string, rawBody: JsValue, locals: Locals<E>)
    requires CurrentBody(rawBody, locals).Some? && CurrentBody(rawBody, locals).value.Obj?
    requires var p := CurrentBody(rawBody, locals).value.props;
      name !in p || p[name] in {Null, Str(""), Num(0.0), Bool(false)}
    ensures BodyHas(resource, name, rawBody, locals) == Stop(MissingField(resource, name))
  {
  }

  datatype Payload<T> = One(item: T) | Many(items: seq<T>) | NoBody

  /**
   * What a request ends in: a status with a `{ data }` payload, the error
   * a step passed to `next`, or a TypeError thrown before a response was sent.
   */
  datatype Response<T> = Reply(status: int, payload: Payload<T>) | Failure(error: HttpError) | Thrown
}
