/** The caller's transform and the `finish` step that follows it
    (index.js lines 76-104 and 119-144). A body string is modelled by its
    UTF-8 bytes, so `data.toString()` and `Buffer.from` are the identity. */
module Transform {
  import opened Wrappers
  import opened Bytes

  /** What the transform returns, or what its promise resolves to. */
  datatype Returned = Undefined | Null | Text(text: Bytes)

  /** The transform's result: a value, a promise already resolved to a
      value, or a promise that is rejected (or never settles). */
  datatype TransformResult = Immediate(value: Returned) | Pending(value: Returned) | Rejected

  /** The caller-supplied transform; `None` when the argument is not a
      function. */
  type Callback = Option<Bytes -> TransformResult>

  /** JavaScript falsiness of a returned value. */
  predicate Falsy(v: Returned)
  {
    v.Undefined? || v.Null? || (v.Text? && v.text == [])
  }

  /** The callback's result when it is a function; otherwise the body
      text itself, unchanged. */
  function Invoke(transform: Callback, body: Bytes): TransformResult
  {
    match transform
    case None => Immediate(Text(body))
    case Some(f) => f(body)
  }

  /** The value `finish` is called with: directly for an immediate value,
      through `then` for a promise; a rejected promise never calls it. */
  function Settle(r: TransformResult): (v: Option<Returned>)
    ensures v.None? <==> r.Rejected?
    ensures !r.Rejected? ==> v == Some(r.value)
  {
    match r
    case Immediate(value) => Some(value)
    case Pending(value) => Some(value)
    case Rejected => None
  }

  /** A falsy value becomes the empty text before it is turned into bytes. */
  function Normalize(v: Returned): (b: Bytes)
    ensures Falsy(v) ==> b == []
    ensures !Falsy(v) ==> v.Text? && b == v.text
  {
    if Falsy(v) then [] else v.text
  }

  /** The bytes `finish` hands on for a collected body, or `None` when
      `finish` is never called. */
  function FinalBody(transform: Callback, body: Bytes): Option<Bytes>
  {
    match Settle(Invoke(transform, body))
    case Some(v) => Some(Normalize(v))
    case None => None
  }

  /** With no transform the body passes through unchanged; with one, its
      settled result replaces the body, a falsy one becoming empty, and a
      rejected one stopping the pipeline. */
  lemma FinalBodyCases(transform: Callback, body: Bytes)
    ensures transform.None? ==> FinalBody(transform, body) == Some(body)
    ensures transform.Some? && transform.value(body).Rejected? ==> FinalBody(transform, body) == None
    ensures transform.Some? && !transform.value(body).Rejected? ==>
      FinalBody(transform, body) == Some(Normalize(transform.value(body).value))
    ensures transform.Some? && !transform.value(body).Rejected? && Falsy(transform.value(body).value) ==>
      FinalBody(transform, body) == Some([])
  {
  }

  /** A transform that returns a value and one whose promise resolves to
      the same value produce the same bytes. */
  lemma ImmediatePendingAgree(f: Bytes -> TransformResult, g: Bytes -> TransformResult, body: Bytes, v: Returned)
    requires f(body) == Immediate(v) && g(body) == Pending(v)
    ensures FinalBody(Some(f), body) == FinalBody(Some(g), body) == Some(Normalize(v))
  {
  }
}
