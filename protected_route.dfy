/**
  The route guard of the pages and the roles the route table asks of it.
*/
module ProtectedRoute {
  import opened Optional
  import opened JsValues

  /** The object stored under `localStorage.user`; only its `rol` matters here. */
  datatype StoredUser = StoredUser(rol: Json)

  /** What the guard renders. */
  datatype Outcome = RedirectHome | RenderChildren

  /**
    `ProtectedRoute({children, role})`: without a stored user, or when a role is
    required and the user's `rol` is not that text, a redirect to "/".
  */
  function Guard(user: Option<StoredUser>, role: Option<string>): (o: Outcome)
    ensures o == RenderChildren ==> user.Some? && (Present(role) ==> user.value.rol == Str(role.value))
  {
    if user.None? then RedirectHome
    else if Present(role) && user.value.rol != Str(role.value) then RedirectHome
    else RenderChildren
  }

  /** The guard renders exactly for a stored user that has the required role, if there is one. */
  lemma GuardRendersIff(user: Option<StoredUser>, role: Option<string>)
    ensures Guard(user, role) == RenderChildren <==>
      user.Some? && (!Present(role) || user.value.rol == Str(role.value))
  {
  }

  lemma NoUserRedirects(role: Option<string>)
    ensures Guard(None, role) == RedirectHome
  {
  }

  /** A role compared as text: a number, or text differing in case, does not match. */
  lemma RoleMustMatchExactly(r: string)
    requires r != ""
    ensures Guard(Some(StoredUser(Str(r))), Some(r)) == RenderChildren
    ensures Guard(Some(StoredUser(Undefined)), Some(r)) == RedirectHome
    ensures Guard(Some(StoredUser(Num(1))), Some(r)) == RedirectHome
  {
  }

  /** Any stored user passes a route without a required role, whatever its `rol`. */
  lemma NoRoleRendersForAnyUser(u: StoredUser, role: Option<string>)
    requires !Present(role)
    ensures Guard(Some(u), role) == RenderChildren
  {
  }

  const Admin := "admin"
  const ClientRole := "cliente"

  /** The role the route table requires for a path; `None` for an unguarded path. */
  function RouteRole(path: string): (r: Option<string>)
    ensures r.Some? ==> Present(r)
  {
    if path == "/admin" then Some(Admin)
    else if path == "/reservations" then Some(ClientRole)
    else None
  }
}
