/** The role gate that the `login_required` decorator puts in front of every
    admin handler and of request submission. */
module Access {

  datatype Option<+T> = None | Some(value: T)

  /** The parts of the server-side session the gate and the handlers read.
      `None` means the key is absent from the session. */
  datatype Session = Session(userId: Option<int>, role: Option<string>, region: Option<string>)

  /** What the gate decides: run the wrapped handler, or abort with a status code. */
  datatype Decision = Allow | Deny(code: int, message: string)

  const LoginRequired := "Login required"
  const RoleNotAuthorized := "Role not authorized"

  /** Python truthiness of the decorator's `role` argument: `None` and the empty
      string are falsy, so neither asks for a role. */
  predicate RoleRequired(role: Option<string>)
  {
    role.Some? && role.value != ""
  }

  /** The gate: no `user_id` in the session aborts with 401; a required role that
      differs from the session's role (an absent session role included) aborts
      with 403; anything else lets the handler run. */
  function Authorize(s: Session, role: Option<string>): (d: Decision)
    ensures d == Deny(401, LoginRequired) <==> s.userId.None?
    ensures d == Deny(403, RoleNotAuthorized) <==>
              s.userId.Some? && RoleRequired(role) && s.role != role
    ensures d.Allow? <==> s.userId.Some? && (!RoleRequired(role) || s.role == role)
    ensures d.Deny? ==> d.code == 401 || d.code == 403
  {
    if s.userId.None? then Deny(401, LoginRequired)
    else if RoleRequired(role) && s.role != role then Deny(403, RoleNotAuthorized)
    else Allow
  }

  /** Only a logged-in session holding exactly the required role gets through,
      and with no role required any logged-in session does. */
  lemma AllowedMeansLoggedInWithRole(s: Session, r: string)
    requires r != ""
    ensures Authorize(s, Some(r)).Allow? <==> s.userId.Some? && s.role == Some(r)
    ensures Authorize(s, None).Allow? <==> s.userId.Some?
  {
  }
}
