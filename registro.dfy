/**
  The checks the registration page makes before it sends `POST /api/registro`.
*/
module Registro {
  import Database

  const PasswordsDiffer := "Las contraseñas no coinciden"

  /** What `handleRegister` does: show an error, or send the three fields. */
  datatype Step = Refuse(message: string) | Send(nombre: string, email: string, contrasena: string)

  /** The password must equal its confirmation, and then have at least six characters. */
  function ValidateRegistration(nombre: string, email: string, contrasena: string, confirmar: string): (s: Step)
    ensures s.Send? ==> contrasena == confirmar && |s.contrasena| >= 6
    ensures s.Refuse? ==> s.message == PasswordsDiffer || s.message == Database.PasswordTooShort
  {
    if contrasena != confirmar then Refuse(PasswordsDiffer)
    else if |contrasena| < 6 then Refuse(Database.PasswordTooShort)
    else Send(nombre, email, contrasena)
  }

  /** A request is sent exactly when both checks pass, and it carries the fields as typed. */
  lemma SendsIff(nombre: string, email: string, contrasena: string, confirmar: string)
    ensures ValidateRegistration(nombre, email, contrasena, confirmar).Send? <==>
      contrasena == confirmar && |contrasena| >= 6
    ensures ValidateRegistration(nombre, email, contrasena, confirmar).Send? ==>
      ValidateRegistration(nombre, email, contrasena, confirmar) == Send(nombre, email, contrasena)
  {
  }

  /** A mismatch is reported even when the password is also too short. */
  lemma MismatchTakesPrecedence(nombre: string, email: string, contrasena: string, confirmar: string)
    requires contrasena != confirmar
    ensures ValidateRegistration(nombre, email, contrasena, confirmar) == Refuse(PasswordsDiffer)
  {
  }

  lemma ShortPasswordRefused(nombre: string, email: string, contrasena: string)
    requires |contrasena| < 6
    ensures ValidateRegistration(nombre, email, contrasena, contrasena) == Refuse(Database.PasswordTooShort)
  {
  }

  /** The page's length rule is the server's, with the same message. */
  lemma SameLengthRuleAsServer(nombre: string, email: string, contrasena: string)
    ensures ValidateRegistration(nombre, email, contrasena, contrasena) == Refuse(Database.PasswordTooShort)
      <==> |contrasena| < 6
  {
    assert PasswordsDiffer != Database.PasswordTooShort by {
      assert PasswordsDiffer[4] != Database.PasswordTooShort[4];
    }
  }
}
