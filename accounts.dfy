/**
  The account rules of the backend: how `POST /api/login` finds a user and checks
  the password, and the e-mail uniqueness that `POST /api/registro` relies on.
*/
module Accounts {
  import opened Optional
  import opened Text
  import opened JsValues
  import opened Sequences

  /** A row of USUARIOS (its columns are taken to be non-null). */
  datatype UserRow = UserRow(id: int, nombre: string, email: string, contrasena: string, rol: string)

  /** What a successful login returns: the row without its password. */
  datatype UserInfo = UserInfo(id: int, nombre: string, email: string, rol: string)

  const Cliente := "cliente"

  function InfoOf(u: UserRow): UserInfo {
    UserInfo(u.id, u.nombre, u.email, u.rol)
  }

  /** `UPPER(TRIM(e))` as Oracle evaluates it: spaces only are trimmed, and the empty result is NULL. */
  function EmailKey(e: string): (k: Option<string>)
    ensures k.Some? ==> e != "" && IsUpperCase(k.value)
  {
    UpperProperties(Trim(SqlSpace, e));
    Stored(Upper(Trim(SqlSpace, e)))
  }

  /** `UPPER(TRIM(email)) = UPPER(TRIM(:email))`: a NULL side never matches. */
  predicate SameEmail(stored: string, given: string) {
    EmailKey(stored).Some? && EmailKey(stored) == EmailKey(given)
  }

  /** The row test of the two e-mail queries. */
  function EmailMatches(email: string): UserRow -> bool {
    (u: UserRow) => SameEmail(u.email, email)
  }

  /** The first row the login query returns (the table's order stands for the driver's). */
  function FirstWithEmail(users: seq<UserRow>, email: string): (k: Option<nat>)
    ensures k.Some? ==> k.value < |users| && SameEmail(users[k.value].email, email)
    ensures k.Some? ==> forall j :: 0 <= j < k.value ==> !SameEmail(users[j].email, email)
    ensures k.None? ==> forall j :: 0 <= j < |users| ==> !SameEmail(users[j].email, email)
  {
    FirstFrom(EmailMatches(email), users, 0)
  }

  /** `SELECT COUNT(*) FROM USUARIOS WHERE UPPER(TRIM(email)) = UPPER(TRIM(:email))`. */
  function CountWithEmail(users: seq<UserRow>, email: string): (n: nat)
    ensures n <= |users|
  {
    Count(EmailMatches(email), users)
  }

  lemma CountWithEmailPositive(users: seq<UserRow>, email: string)
    ensures CountWithEmail(users, email) > 0 <==> exists k :: 0 <= k < |users| && SameEmail(users[k].email, email)
  {
    CountPositive(EmailMatches(email), users);
  }

  /** No two users that the e-mail comparison would confuse. */
  predicate UniqueEmails(users: seq<UserRow>) {
    forall i, j :: 0 <= i < j < |users| ==> !SameEmail(users[i].email, users[j].email)
  }

  /** The password check: both sides compared after JavaScript's `trim`. */
  predicate PasswordMatches(stored: string, given: string) {
    Trim(JsWhitespace, given) == Trim(JsWhitespace, stored)
  }

  const CredentialsRequired := "Credenciales requeridas"
  const UnknownEmail := "Credenciales inválidas"
  const WrongPassword := "Contraseña incorrecta"

  /**
    `POST /api/login` with body `{usuario, contrasena}`: both required, the first
    user whose e-mail matches ignoring case and surrounding spaces, and the two
    passwords compared as plain text after JavaScript's `trim`.
  */
  function Login(users: seq<UserRow>, usuario: Option<string>, contrasena: Option<string>): (r: Reply<UserInfo>)
    ensures !Present(usuario) || !Present(contrasena) <==> r == Failure(400, CredentialsRequired)
    ensures r.Failure? ==> r.code == 400 || r.code == 401
    ensures r.Success? ==> r.code == 200 && SameEmail(r.value.email, usuario.value)
    ensures Present(usuario) && Present(contrasena) ==>
      (r == Failure(401, UnknownEmail) <==> FirstWithEmail(users, usuario.value).None?)
    ensures Present(usuario) && Present(contrasena) ==>
      (r == Failure(401, WrongPassword) <==>
        FirstWithEmail(users, usuario.value).Some?
        && !PasswordMatches(users[FirstWithEmail(users, usuario.value).value].contrasena, contrasena.value))
  {
    if !Present(usuario) || !Present(contrasena) then Failure(400, CredentialsRequired)
    else
      match FirstWithEmail(users, usuario.value)
      case None => Failure(401, UnknownEmail)
      case Some(k) =>
        if !PasswordMatches(users[k].contrasena, contrasena.value) then Failure(401, WrongPassword)
        else Success(200, InfoOf(users[k]))
  }

  lemma SameEmailMatchesKey(a: string, b: string, e: string)
    requires SameEmail(a, e) && SameEmail(b, e)
    ensures SameEmail(a, b)
  {
  }

  /**
    With unique e-mails, a login succeeds exactly for a user whose e-mail matches and
    whose password equals the given one up to surrounding white space, and
    returns that user.
  */
  lemma LoginSucceedsIff(users: seq<UserRow>, usuario: string, contrasena: string, info: UserInfo)
    requires UniqueEmails(users)
    ensures Login(users, Some(usuario), Some(contrasena)) == Success(200, info) <==>
      usuario != "" && contrasena != "" &&
      exists k :: 0 <= k < |users| && SameEmail(users[k].email, usuario)
        && PasswordMatches(users[k].contrasena, contrasena)
        && info == InfoOf(users[k])
  {
    var r := Login(users, Some(usuario), Some(contrasena));
    if r == Success(200, info) {
      var k := FirstWithEmail(users, usuario).value;
      assert PasswordMatches(users[k].contrasena, contrasena) && info == InfoOf(users[k]);
    }
    if usuario != "" && contrasena != "" &&
      exists k :: 0 <= k < |users| && SameEmail(users[k].email, usuario)
        && PasswordMatches(users[k].contrasena, contrasena)
        && info == InfoOf(users[k])
    {
      var k :| 0 <= k < |users| && SameEmail(users[k].email, usuario)
        && PasswordMatches(users[k].contrasena, contrasena)
        && info == InfoOf(users[k]);
      MatchIsFirst(users, usuario, k);
    }
  }

  /** With unique e-mails, any matching row is the one the login query returns. */
  lemma MatchIsFirst(users: seq<UserRow>, usuario: string, k: nat)
    requires UniqueEmails(users)
    requires k < |users| && SameEmail(users[k].email, usuario)
    ensures FirstWithEmail(users, usuario) == Some(k)
  {
    var f := FirstWithEmail(users, usuario);
    var m := f.value;
    if m < k {
      SameEmailMatchesKey(users[m].email, users[k].email, usuario);
    }
  }

  /** Logging in ignores the case of the e-mail and the spaces around it. */
  lemma LoginIgnoresEmailCaseAndSpaces(users: seq<UserRow>, e1: string, e2: string, contrasena: Option<string>)
    requires e1 != "" && e2 != ""
    requires Upper(Trim(SqlSpace, e1)) == Upper(Trim(SqlSpace, e2))
    ensures Login(users, Some(e1), contrasena) == Login(users, Some(e2), contrasena)
  {
    FirstFromSame(EmailMatches(e1), EmailMatches(e2), users, 0);
  }

  /** White space around a non-empty password does not change the outcome. */
  lemma LoginTrimsPassword(users: seq<UserRow>, usuario: Option<string>, pre: string, p: string, post: string)
    requires p != ""
    requires AllBlank(JsWhitespace, pre) && AllBlank(JsWhitespace, post)
    ensures Login(users, usuario, Some(pre + p + post)) == Login(users, usuario, Some(p))
  {
    var q := pre + p + post;
    TrimOfPadded(JsWhitespace, pre, p, post);
    assert |q| >= |p|;
    LoginSeesTrimmedPassword(users, usuario, q, p);
  }

  /** The login outcome depends on a non-empty password only through its trimmed form. */
  lemma LoginSeesTrimmedPassword(users: seq<UserRow>, usuario: Option<string>, c1: string, c2: string)
    requires c1 != "" && c2 != ""
    requires Trim(JsWhitespace, c1) == Trim(JsWhitespace, c2)
    ensures Login(users, usuario, Some(c1)) == Login(users, usuario, Some(c2))
  {
    if Present(usuario) {
      match FirstWithEmail(users, usuario.value)
      case None =>
      case Some(k) =>
        assert PasswordMatches(users[k].contrasena, c1) == PasswordMatches(users[k].contrasena, c2);
    }
  }

  /** An e-mail made only of spaces has a NULL key and never logs in. */
  lemma BlankEmailNeverLogsIn(users: seq<UserRow>, e: string, contrasena: Option<string>)
    requires EmailKey(e).None?
    ensures Login(users, Some(e), contrasena).Failure?
  {
  }

  /** A registration that passed the uniqueness check keeps e-mails unique. */
  lemma AppendKeepsUniqueEmails(users: seq<UserRow>, u: UserRow)
    requires UniqueEmails(users)
    requires CountWithEmail(users, u.email) == 0
    ensures UniqueEmails(users + [u])
  {
    CountWithEmailPositive(users, u.email);
    var all := users + [u];
    forall i, j | 0 <= i < j < |all| ensures !SameEmail(all[i].email, all[j].email) {
      assert all[i] == users[i];
      if j < |users| { assert all[j] == users[j]; }
    }
  }

  /** A user just registered with a usable e-mail logs in with the same e-mail and password. */
  lemma LoginAfterRegistering(users: seq<UserRow>, u: UserRow)
    requires CountWithEmail(users, u.email) == 0
    requires EmailKey(u.email).Some? && u.contrasena != ""
    ensures Login(users + [u], Some(u.email), Some(u.contrasena)) == Success(200, InfoOf(u))
  {
    CountWithEmailPositive(users, u.email);
    var all := users + [u];
    assert all[|users|] == u;
    forall j | 0 <= j < |users| ensures !SameEmail(all[j].email, u.email) {
      assert all[j] == users[j];
    }
    var f := FirstWithEmail(all, u.email);
    assert f == Some(|users|);
  }
}
