/** What the route handlers send back, and how they read request fields. */
module Http {
  import opened Wrappers

  const StatusOk: int := 200
  const StatusCreated: int := 201
  const StatusBadRequest: int := 400
  const StatusUnauthorized: int := 401
  const StatusForbidden: int := 403
  const StatusNotFound: int := 404
  const StatusConflict: int := 409
  const StatusServerError: int := 500

  /** A JSON reply: a payload, or an `{ error }` object, with its status code. */
  datatype Response<T> = Json(status: int, value: T) | Fail(status: int, error: string)

  /** A handler's reply together with the table it leaves behind. */
  datatype Outcome<T, S> = Outcome(response: Response<T>, state: S)

  /** JavaScript truthiness of an optional string field: `undefined`, `null`
      and `""` are falsy. */
  predicate Truthy(v: Option<string>)
  {
    v.Some? && v.value != ""
  }

  /** `v || undefined`: a falsy field is dropped. */
  function OrUndefined(v: Option<string>): (r: Option<string>)
    ensures r.Some? <==> Truthy(v)
    ensures r.Some? ==> r == v
  {
    if Truthy(v) then v else None
  }

  /** `v === lit` for an optional field and a string literal. */
  predicate Is(v: Option<string>, lit: string)
  {
    v == Some(lit)
  }
}
