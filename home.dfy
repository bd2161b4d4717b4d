/**
  How the home page handles the answer of `POST /api/login`: the error
  shown, or the user stored and the page it goes to.
*/
module Home {
  import opened Optional
  import opened Text
  import opened JsValues
  import Accounts
  import ProtectedRoute

  /** The fields of the parsed body the page reads. */
  datatype LoginBody = LoginBody(error: Json, idUsuario: Json, rol: Json)

  /** The response: `ok`, the status, and the body (`None` when it is not JSON). */
  datatype LoginResponse = LoginResponse(ok: bool, status: int, body: Option<LoginBody>)

  /** What `handleLogin` does: show an error, or store the body and navigate. */
  datatype Step = ShowError(message: string) | StoreAndGo(stored: LoginBody, target: string)

  const NotJson := "La respuesta del servidor no es JSON válido"
  const MissingUserData := "Respuesta inválida del servidor: faltan datos de usuario"

  /** `new Error(v).message` for a truthy value. */
  function MessageOf(v: Json): string
    requires Truthy(v)
  {
    match v
    case Num(n) => IntToString(n)
    case Str(s) => s
  }

  /** `data.rol === 'admin' ? '/admin' : '/reservations'`. */
  function TargetFor(rol: Json): (path: string)
    ensures path == "/admin" <==> rol == Str(ProtectedRoute.Admin)
  {
    if rol == Str(ProtectedRoute.Admin) then "/admin" else "/reservations"
  }

  function HandleLogin(r: LoginResponse): (s: Step)
    ensures s.StoreAndGo? ==> r.ok && r.body == Some(s.stored)
    ensures s.StoreAndGo? ==> Truthy(s.stored.idUsuario) && Truthy(s.stored.rol)
    ensures s.StoreAndGo? ==> (s.target == "/admin" <==> s.stored.rol == Str("admin"))
  {
    match r.body
    case None => ShowError(NotJson)
    case Some(data) =>
      if !r.ok then ShowError(if Truthy(data.error) then MessageOf(data.error) else "Error HTTP: " + IntToString(r.status))
      else if !Truthy(data.idUsuario) || !Truthy(data.rol) then ShowError(MissingUserData)
      else StoreAndGo(data, TargetFor(data.rol))
  }

  /** The page stores a user exactly for an OK JSON answer with an id and a role. */
  lemma StoresIff(r: LoginResponse)
    ensures HandleLogin(r).StoreAndGo? <==>
      r.body.Some? && r.ok && Truthy(r.body.value.idUsuario) && Truthy(r.body.value.rol)
    ensures HandleLogin(r).StoreAndGo? ==> HandleLogin(r).stored == r.body.value
  {
  }

  /** A failed answer shows the server's `error`, or the status when there is none. */
  lemma FailureMessage(status: int, body: LoginBody)
    ensures HandleLogin(LoginResponse(false, status, Some(body))) ==
      ShowError(if Truthy(body.error) then MessageOf(body.error) else "Error HTTP: " + IntToString(status))
    ensures !Truthy(body.error) ==>
      ParseInt(HandleLogin(LoginResponse(false, status, Some(body))).message[12..]) == Some(status)
  {
    if !Truthy(body.error) {
      var m := "Error HTTP: " + IntToString(status);
      assert m[12..] == IntToString(status);
      ParseIntRoundTrip(status);
    }
  }

  /** The JSON the login endpoint sends for each of its replies. */
  function ReplyBody(reply: JsValues.Reply<Accounts.UserInfo>): LoginResponse {
    match reply
    case Success(code, info) => LoginResponse(true, code, Some(LoginBody(Undefined, Num(info.id), Str(info.rol))))
    case Failure(code, e) => LoginResponse(false, code, Some(LoginBody(Str(e), Undefined, Undefined)))
  }

  /** Every refusal of the login endpoint reaches the page as its own message. */
  lemma LoginErrorsReachThePage(users: seq<Accounts.UserRow>, usuario: Option<string>, contrasena: Option<string>)
    requires Accounts.Login(users, usuario, contrasena).Failure?
    ensures HandleLogin(ReplyBody(Accounts.Login(users, usuario, contrasena))) ==
      ShowError(Accounts.Login(users, usuario, contrasena).error)
  {
  }

  /**
    A successful login takes the user to the page of its role, and the guard of
    that page lets it in exactly when the role is "admin" or "cliente".
  */
  lemma LoginLandsOnGuardedPage(info: Accounts.UserInfo)
    requires info.id != 0 && info.rol != ""
    ensures HandleLogin(ReplyBody(JsValues.Success(200, info))) ==
      StoreAndGo(LoginBody(Undefined, Num(info.id), Str(info.rol)), TargetFor(Str(info.rol)))
    ensures ProtectedRoute.Guard(Some(ProtectedRoute.StoredUser(Str(info.rol))),
        ProtectedRoute.RouteRole(TargetFor(Str(info.rol)))) == ProtectedRoute.RenderChildren
      <==> info.rol == ProtectedRoute.Admin || info.rol == ProtectedRoute.ClientRole
  {
    assert "/admin" != "/reservations";
  }

  /** A user who just registered logs in and lands on the reservations page, which admits it. */
  lemma RegisteredClientReachesReservations(users: seq<Accounts.UserRow>, u: Accounts.UserRow)
    requires Accounts.CountWithEmail(users, u.email) == 0
    requires Accounts.EmailKey(u.email).Some? && u.contrasena != ""
    requires u.rol == Accounts.Cliente && u.id != 0
    ensures HandleLogin(ReplyBody(Accounts.Login(users + [u], Some(u.email), Some(u.contrasena)))).StoreAndGo?
    ensures HandleLogin(ReplyBody(Accounts.Login(users + [u], Some(u.email), Some(u.contrasena)))).target == "/reservations"
    ensures ProtectedRoute.Guard(Some(ProtectedRoute.StoredUser(Str(u.rol))), ProtectedRoute.RouteRole("/reservations"))
      == ProtectedRoute.RenderChildren
  {
    Accounts.LoginAfterRegistering(users, u);
    LoginLandsOnGuardedPage(Accounts.InfoOf(u));
  }
}
