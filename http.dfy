/**
 * What a route handler sends back: a status code and the body, and the
 * allow-list gate both PATCH handlers apply to `Object.keys(req.body)`.
 */
module Http {
  import opened Json
  import opened TaskModel

  const StatusOk: nat := 200
  const StatusCreated: nat := 201
  const StatusBadRequest: nat := 400
  const StatusForbidden: nat := 403
  const StatusNotFound: nat := 404
  const StatusServerError: nat := 500

  datatype Payload =
    | Empty                                            // `send()` with nothing
    | ErrorMessage(error: string)                      // `{ error: ... }`
    | SuccessMessage(success: string)                  // `{ success: ... }`
    | ValidationFailed(paths: set<string>)             // a caught ValidationError, by failing path
    | ThrownError                                      // a caught `new Error(...)`: serialises to {}
    | Profile(user: map<string, Value>)                // an account through `toJSON`
    | ProfileWithToken(user: map<string, Value>, token: string)
    | TaskDoc(task: Task)
    | TaskList(tasks: seq<Task>)
    | Image(png: seq<bv8>)

  datatype Reply = Reply(status: nat, payload: Payload)

  /**
   * The update gate: at least one key, and every key in the allow-list
   * (`every` on an empty array is true, so the empty body is refused apart).
   */
  predicate UpdatesAllowed(updates: set<string>, allowed: set<string>)
    ensures UpdatesAllowed(updates, allowed) <==> updates != {} && updates <= allowed
  {
    if |updates| > 0 then (forall u :: u in updates ==> u in allowed) else false
  }

  /** One key outside the allow-list rejects the whole request, whatever the other keys are. */
  lemma ForeignKeyRejects(updates: set<string>, allowed: set<string>, u: string)
    requires u in updates && u !in allowed
    ensures !UpdatesAllowed(updates, allowed)
    ensures forall more :: !UpdatesAllowed(updates + more, allowed)
  {
  }
}
