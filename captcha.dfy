/** How `solve_recaptcha_rucaptcha` of cookie_collector/solve_captcha.py reads the reply
    of the RuCaptcha client library. The request itself is a parameter: the model starts
    from what `captcha_handler()` returned, or from the fact that it raised. */
module Captcha {
  import opened Wrappers

  /** A decoded JSON value, as the client library hands it over. */
  datatype Json =
    | Null
    | Bool(b: bool)
    | Int(i: int)
    | Str(s: string)
    | List(items: seq<Json>)
    | Object(fields: map<string, Json>)

  /** The outcome of `captcha_handler()`: a value, or an exception. */
  datatype Reply = HandlerRaised | Returned(result: Json)

  const ERROR_ID := "errorId"
  const STATUS := "status"
  const READY := "ready"
  const SOLUTION := "solution"
  const G_RECAPTCHA_RESPONSE := "gRecaptchaResponse"
  const TOKEN := "token"

  /** Python truthiness: `None`, `False`, `0`, `""`, `[]` and `{}` are false. */
  predicate Truthy(v: Json) {
    match v
    case Null => false
    case Bool(b) => b
    case Int(i) => i != 0
    case Str(s) => s != ""
    case List(items) => items != []
    case Object(fields) => fields != map[]
  }

  /** `d.get(key)`: a missing key reads as `None`. */
  function Get(fields: map<string, Json>, key: string): Json {
    if key in fields then fields[key] else Null
  }

  /** `x or y`. */
  function Or(x: Json, y: Json): Json {
    if Truthy(x) then x else y
  }

  /** `v == 0`: true of the integer 0 and of `False`. */
  predicate EqualsZero(v: Json) {
    v == Int(0) || v == Bool(false)
  }

  /** `result.get("errorId") == 0 and result.get("status") == "ready"`. */
  predicate IsReady(fields: map<string, Json>) {
    EqualsZero(Get(fields, ERROR_ID)) && Get(fields, STATUS) == Str(READY)
  }

  /** The values on which `token[:20]` and `len(token)` do not raise. */
  predicate Sliceable(v: Json) {
    v.Str? || v.List?
  }

  /** The token `solve_recaptcha_rucaptcha` returns; `None` for every path that logs
      a warning, including each exception the `try` block catches: the handler
      raising, `.get` on something that is not a dictionary, and slicing or measuring
      a token that is neither a string nor a list. */
  function Solve(reply: Reply): (token: Option<Json>)
    ensures token.Some? ==>
      && reply.Returned? && reply.result.Object?
      && IsReady(reply.result.fields)
      && SOLUTION in reply.result.fields
      && var solution := reply.result.fields[SOLUTION];
         solution.Object? &&
         (token.value == Get(solution.fields, G_RECAPTCHA_RESPONSE) ||
          token.value == Get(solution.fields, TOKEN))
    ensures token.Some? ==> Sliceable(token.value)
  {
    match reply
    case HandlerRaised => None
    case Returned(result) =>
      if !result.Object? then
        None
      else if !IsReady(result.fields) then
        None
      else
        var solution := Or(Get(result.fields, SOLUTION), Object(map[]));
        if !solution.Object? then
          None
        else
          var token := Or(Get(solution.fields, G_RECAPTCHA_RESPONSE), Get(solution.fields, TOKEN));
          if Sliceable(token) then Some(token) else None
  }

  /** Whether the caller goes on to inject the token (`if token:`). */
  predicate Obtained(token: Option<Json>) {
    token.Some? && Truthy(token.value)
  }

  // ---------------------------------------------------------------------------
  // Properties of solve_recaptcha_rucaptcha

  /** An error id other than 0 / `False`, or a status other than "ready", gives `None`. */
  lemma NotReadyGivesNone(fields: map<string, Json>)
    requires !IsReady(fields)
    ensures Solve(Returned(Object(fields))) == None
  {
  }

  /** The handler raising gives `None`: the exception does not escape. */
  lemma HandlerRaisedGivesNone()
    ensures Solve(HandlerRaised) == None
  {
  }

  /** A ready reply whose solution carries a non-empty "gRecaptchaResponse" string yields
      exactly that string, whatever "token" holds. */
  lemma PrefersGRecaptchaResponse(fields: map<string, Json>, solution: map<string, Json>, t: string)
    requires IsReady(fields) && Get(fields, SOLUTION) == Object(solution)
    requires Get(solution, G_RECAPTCHA_RESPONSE) == Str(t) && t != ""
    ensures Solve(Returned(Object(fields))) == Some(Str(t))
  {
    assert Truthy(Object(solution)) by {
      assert G_RECAPTCHA_RESPONSE in solution;
    }
  }

  /** Without a usable "gRecaptchaResponse" (missing, empty or otherwise false), the
      "token" field is returned when it is a string. */
  lemma FallsBackToToken(fields: map<string, Json>, solution: map<string, Json>, t: string)
    requires IsReady(fields) && Get(fields, SOLUTION) == Object(solution)
    requires !Truthy(Get(solution, G_RECAPTCHA_RESPONSE)) && Get(solution, TOKEN) == Str(t)
    ensures Solve(Returned(Object(fields))) == Some(Str(t))
  {
    assert Truthy(Object(solution)) by {
      assert TOKEN in solution;
    }
  }

  /** A ready reply whose solution is missing or false gives `None`: `{}.get(...)` is
      `None` twice, and `None[:20]` raises. */
  lemma MissingSolutionGivesNone(fields: map<string, Json>)
    requires IsReady(fields) && !Truthy(Get(fields, SOLUTION))
    ensures Solve(Returned(Object(fields))) == None
  {
    assert Get(map[], G_RECAPTCHA_RESPONSE) == Null;
  }

  /** A token of another kind (a number, `True`, a dictionary) is not returned: slicing
      it raises. */
  lemma OddTokenGivesNone(fields: map<string, Json>, solution: map<string, Json>, v: Json)
    requires IsReady(fields) && Get(fields, SOLUTION) == Object(solution)
    requires Get(solution, G_RECAPTCHA_RESPONSE) == v && Truthy(v) && !Sliceable(v)
    ensures Solve(Returned(Object(fields))) == None
  {
    assert Truthy(Object(solution)) by {
      assert G_RECAPTCHA_RESPONSE in solution;
    }
  }

  /** An error id of `False` passes the check as well as 0 does, because `False == 0`. */
  lemma FalseErrorIdIsReady(fields: map<string, Json>)
    requires Get(fields, STATUS) == Str(READY)
    ensures IsReady(fields[ERROR_ID := Bool(false)]) && IsReady(fields[ERROR_ID := Int(0)])
  {
    assert Get(fields[ERROR_ID := Bool(false)], STATUS) == Str(READY);
    assert Get(fields[ERROR_ID := Int(0)], STATUS) == Str(READY);
  }
}
