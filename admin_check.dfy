/** The elevation guard. `IsUserAnAdmin()` answers with a C BOOL, or the call
    itself raises; the guard fails closed. */
module AdminCheck {

  /** What the shell32 query did: raised, or returned an integer. */
  datatype AdminQuery = Raised | Returned(value: int)

  /** `is_admin`: truthy exactly when the query returned a non-zero value. */
  function IsAdmin(query: AdminQuery): (admin: bool)
    ensures query.Raised? ==> !admin
    ensures query.Returned? ==> (admin <==> query.value != 0)
  {
    match query
    case Raised => false
    case Returned(v) => v != 0
  }

  /** What a call through the `require_admin` wrapper produces. */
  datatype Guarded<R> = PermissionError | Called(result: R)

  /** `require_admin(func)`: a wrapper that asks the elevation query anew on
      each call. Without rights it raises PermissionError and leaves the state
      it was handed as it is; with rights it calls `func` with the same state
      and arguments and returns what `func` returns. */
  function RequireAdmin<S(!new), A(!new), R>(func: (S, A) -> (R, S)): (wrapper: (AdminQuery, S, A) -> (Guarded<R>, S))
    ensures forall query, s, args :: !IsAdmin(query) ==> wrapper(query, s, args) == (PermissionError, s)
    ensures forall query, s, args :: IsAdmin(query) ==>
              wrapper(query, s, args) == (Called(func(s, args).0), func(s, args).1)
  {
    (query: AdminQuery, s: S, args: A) =>
      if !IsAdmin(query) then (PermissionError, s)
      else var (result, s') := func(s, args); (Called(result), s')
  }

  /** Without rights, what the wrapper does cannot depend on the wrapped
      function: it is never called. */
  lemma RequireAdminNeverCallsWithoutRights<S(!new), A(!new), R>(f: (S, A) -> (R, S), g: (S, A) -> (R, S),
                                                     query: AdminQuery, s: S, args: A)
    requires !IsAdmin(query)
    ensures RequireAdmin(f)(query, s, args) == RequireAdmin(g)(query, s, args)
  {
  }

  /** One wrapped function answers each call by that call's query: the admin
      status is not captured when the function is wrapped. */
  lemma RequireAdminAsksEachCall<S(!new), A(!new), R>(f: (S, A) -> (R, S), denied: AdminQuery, granted: AdminQuery, s: S, args: A)
    requires !IsAdmin(denied) && IsAdmin(granted)
    ensures var wrapper := RequireAdmin(f);
            && wrapper(denied, s, args).0 == PermissionError
            && wrapper(granted, s, args).0 == Called(f(s, args).0)
  {
  }
}
