/**
 * The form rules of the login, register and change-password screens. Each
 * `validateForm` builds a fresh error record, one key per failing field, and the
 * form is valid when the record has no key (`Object.keys(newErrors).length === 0`).
 */
module AuthForms {
  import opened Wrappers
  import opened JsText
  import opened EmailPattern

  /** The keys the screens use in their error records. */
  datatype Field = NombreCompleto | Email | Password | ConfirmPassword | NewPassword

  /** An error record: the message shown under each failing field. */
  type Errors = map<Field, string>

  const EmailRequired: string := "El email es requerido"
  const EmailInvalid: string := "Email inválido"
  const PasswordRequired: string := "La contraseña es requerida"
  const NewPasswordRequired: string := "La nueva contraseña es requerida"
  const PasswordTooShort: string := "La contraseña debe tener al menos 6 caracteres"
  const NameRequired: string := "El nombre es requerido"
  const PasswordsDiffer: string := "Las contraseñas no coinciden"

  const MinPasswordLength: nat := 6

  /** `newErrors[field] = message` when the rule produced a message. */
  function Put(errors: Errors, field: Field, message: Option<string>): Errors {
    if message.Some? then errors[field := message.value] else errors
  }

  /** Required (after `trim`), then the format test on the untrimmed text. */
  function EmailError(email: string): Option<string> {
    if IsBlank(email) then Some(EmailRequired)
    else if !EmailFormatOk(email) then Some(EmailInvalid)
    else None
  }

  /** Required (`!password`), then at least six UTF-16 code units. */
  function PasswordError(password: string, requiredMessage: string): Option<string> {
    if password == "" then Some(requiredMessage)
    else if JsLength(password) < MinPasswordLength then Some(PasswordTooShort)
    else None
  }

  /** The confirmation must be the same string as the password. */
  function ConfirmError(password: string, confirmation: string): Option<string> {
    if password != confirmation then Some(PasswordsDiffer) else None
  }

  /** A name that is only white space is missing. */
  function NameError(nombreCompleto: string): Option<string> {
    if IsBlank(nombreCompleto) then Some(NameRequired) else None
  }

  /** The record `LoginScreen.validateForm` builds. */
  function LoginErrors(email: string, password: string): Errors {
    var e := Put(map[], Email, EmailError(email));
    Put(e, Password, PasswordError(password, PasswordRequired))
  }

  /** The record `RegisterScreen.validateForm` builds. */
  function RegisterErrors(nombreCompleto: string, email: string, password: string, confirmPassword: string): Errors {
    var e := Put(map[], NombreCompleto, NameError(nombreCompleto));
    var e := Put(e, Email, EmailError(email));
    var e := Put(e, Password, PasswordError(password, PasswordRequired));
    Put(e, ConfirmPassword, ConfirmError(password, confirmPassword))
  }

  /** The record `ResetPasswordScreen.validateForm` builds. */
  function ResetErrors(newPassword: string, confirmPassword: string): Errors {
    var e := Put(map[], NewPassword, PasswordError(newPassword, NewPasswordRequired));
    Put(e, ConfirmPassword, ConfirmError(newPassword, confirmPassword))
  }

  /** `Object.keys(errors).length === 0` says the record is empty. */
  lemma NoKeysIsEmpty(errors: Errors)
    ensures |errors| == 0 <==> errors == map[]
  {
    if errors != map[] {
      var f :| f in errors;
      assert f in errors.Keys;
    }
  }

  /** `Put` on `field` leaves every other key as it was. */
  lemma PutOther(errors: Errors, field: Field, message: Option<string>, other: Field)
    requires other != field
    ensures other in Put(errors, field, message) <==> other in errors
    ensures other in errors ==> Put(errors, field, message)[other] == errors[other]
  {
  }

  // ---------------------------------------------------------------------------
  // The rules, stated against white space and the regular expression itself.

  /** An e-mail made only of white space is "required" (and the format test is
      not reached); otherwise it is "invalid" exactly when the expression finds
      no match in the untrimmed text. */
  lemma EmailErrorSpec(email: string)
    ensures EmailError(email) == Some(EmailRequired) <==> AllSpace(email)
    ensures EmailError(email) == Some(EmailInvalid) <==> !AllSpace(email) && !RegexTest(email)
    ensures EmailError(email) == None <==> !AllSpace(email) && RegexTest(email)
  {
    TrimEmptyIffAllSpace(email);
    EmailFormatOkIsRegexTest(email);
  }

  /** An empty password gets `requiredMessage`, a non-empty one under six code
      units the length message, and only one of the two. */
  lemma PasswordErrorSpec(password: string, requiredMessage: string)
    ensures password == "" ==> PasswordError(password, requiredMessage) == Some(requiredMessage)
    ensures 0 < JsLength(password) < MinPasswordLength ==> PasswordError(password, requiredMessage) == Some(PasswordTooShort)
    ensures PasswordError(password, requiredMessage) == None <==> JsLength(password) >= MinPasswordLength
  {
  }

  /** Six characters always pass the length rule, whatever their encoding,
      since `length` never counts fewer code units than characters. */
  lemma SixCharactersSuffice(password: string, requiredMessage: string)
    requires |password| >= MinPasswordLength
    ensures PasswordError(password, requiredMessage) == None
  {
    JsLengthBounds(password);
    PasswordErrorSpec(password, requiredMessage);
  }

  /** Login, e-mail key: required when blank, else invalid when the test fails. */
  lemma LoginEmailRule(email: string, password: string)
    ensures AllSpace(email) ==> Email in LoginErrors(email, password) && LoginErrors(email, password)[Email] == EmailRequired
    ensures !AllSpace(email) && !RegexTest(email) ==> Email in LoginErrors(email, password) && LoginErrors(email, password)[Email] == EmailInvalid
    ensures Email !in LoginErrors(email, password) <==> !AllSpace(email) && RegexTest(email)
  {
    EmailErrorSpec(email);
  }

  /** Login, password key: "requerida" when empty, the length message when
      shorter than six, never both. */
  lemma LoginPasswordRule(email: string, password: string)
    ensures password == "" ==> Password in LoginErrors(email, password) && LoginErrors(email, password)[Password] == PasswordRequired
    ensures 0 < JsLength(password) < MinPasswordLength ==> Password in LoginErrors(email, password) && LoginErrors(email, password)[Password] == PasswordTooShort
    ensures Password !in LoginErrors(email, password) <==> JsLength(password) >= MinPasswordLength
  {
    PutOther(map[], Email, EmailError(email), Password);
  }

  /** The login form is valid exactly when the e-mail has a non-space character
      and matches the expression and the password has six code units. */
  lemma LoginValidIff(email: string, password: string)
    ensures LoginErrors(email, password).Keys <= {Email, Password}
    ensures LoginErrors(email, password) == map[] <==>
      !AllSpace(email) && RegexTest(email) && JsLength(password) >= MinPasswordLength
  {
    EmailErrorSpec(email);
    var r := LoginErrors(email, password);
    if !AllSpace(email) && RegexTest(email) && JsLength(password) >= MinPasswordLength {
      assert r == map[];
    } else {
      assert Email in r || Password in r;
    }
  }

  /** Register, name key: required exactly when the name is only white space. */
  lemma RegisterNameRule(nombreCompleto: string, email: string, password: string, confirmPassword: string)
    ensures NombreCompleto in RegisterErrors(nombreCompleto, email, password, confirmPassword) <==> AllSpace(nombreCompleto)
    ensures NombreCompleto in RegisterErrors(nombreCompleto, email, password, confirmPassword) ==>
      RegisterErrors(nombreCompleto, email, password, confirmPassword)[NombreCompleto] == NameRequired
  {
    TrimEmptyIffAllSpace(nombreCompleto);
    var e0 := Put(map[], NombreCompleto, NameError(nombreCompleto));
    var e1 := Put(e0, Email, EmailError(email));
    var e2 := Put(e1, Password, PasswordError(password, PasswordRequired));
    PutOther(e0, Email, EmailError(email), NombreCompleto);
    PutOther(e1, Password, PasswordError(password, PasswordRequired), NombreCompleto);
    PutOther(e2, ConfirmPassword, ConfirmError(password, confirmPassword), NombreCompleto);
  }

  /** Register, e-mail and password keys: the same as on the login screen. */
  lemma RegisterMatchesLogin(nombreCompleto: string, email: string, password: string, confirmPassword: string)
    ensures forall f :: f == Email || f == Password ==>
      (f in RegisterErrors(nombreCompleto, email, password, confirmPassword) <==> f in LoginErrors(email, password)) &&
      (f in LoginErrors(email, password) ==>
        RegisterErrors(nombreCompleto, email, password, confirmPassword)[f] == LoginErrors(email, password)[f])
  {
    var e0 := Put(map[], NombreCompleto, NameError(nombreCompleto));
    var e1 := Put(e0, Email, EmailError(email));
    var e2 := Put(e1, Password, PasswordError(password, PasswordRequired));
    var l1 := Put(map[], Email, EmailError(email));
    PutOther(map[], NombreCompleto, NameError(nombreCompleto), Email);
    PutOther(e1, Password, PasswordError(password, PasswordRequired), Email);
    PutOther(l1, Password, PasswordError(password, PasswordRequired), Email);
    PutOther(e2, ConfirmPassword, ConfirmError(password, confirmPassword), Email);
    PutOther(e2, ConfirmPassword, ConfirmError(password, confirmPassword), Password);
  }

  /** Register, confirmation key: set exactly when the two strings differ,
      whatever the password rule said; two empty fields give only the
      "requerida" message. */
  lemma RegisterConfirmRule(nombreCompleto: string, email: string, password: string, confirmPassword: string)
    ensures ConfirmPassword in RegisterErrors(nombreCompleto, email, password, confirmPassword) <==> password != confirmPassword
    ensures password != confirmPassword ==>
      RegisterErrors(nombreCompleto, email, password, confirmPassword)[ConfirmPassword] == PasswordsDiffer
    ensures password == "" && confirmPassword == "" ==>
      && RegisterErrors(nombreCompleto, email, password, confirmPassword)[Password] == PasswordRequired
      && ConfirmPassword !in RegisterErrors(nombreCompleto, email, password, confirmPassword)
  {
  }

  /** The register form is valid exactly when every rule passes. */
  lemma RegisterValidIff(nombreCompleto: string, email: string, password: string, confirmPassword: string)
    ensures RegisterErrors(nombreCompleto, email, password, confirmPassword) == map[] <==>
      && !AllSpace(nombreCompleto)
      && !AllSpace(email) && RegexTest(email)
      && JsLength(password) >= MinPasswordLength
      && password == confirmPassword
  {
    TrimEmptyIffAllSpace(nombreCompleto);
    EmailErrorSpec(email);
    var r := RegisterErrors(nombreCompleto, email, password, confirmPassword);
    if r == map[] {
      assert NombreCompleto !in r && Email !in r && Password !in r && ConfirmPassword !in r;
    }
  }

  /** Change password, new-password key: required when empty, the length
      message when shorter than six. */
  lemma ResetPasswordRule(newPassword: string, confirmPassword: string)
    ensures newPassword == "" ==> ResetErrors(newPassword, confirmPassword)[NewPassword] == NewPasswordRequired
    ensures 0 < JsLength(newPassword) < MinPasswordLength ==> ResetErrors(newPassword, confirmPassword)[NewPassword] == PasswordTooShort
    ensures NewPassword !in ResetErrors(newPassword, confirmPassword) <==> JsLength(newPassword) >= MinPasswordLength
  {
  }

  /** Change password, confirmation key: set exactly when the two differ. */
  lemma ResetConfirmRule(newPassword: string, confirmPassword: string)
    ensures ConfirmPassword in ResetErrors(newPassword, confirmPassword) <==> newPassword != confirmPassword
    ensures newPassword != confirmPassword ==> ResetErrors(newPassword, confirmPassword)[ConfirmPassword] == PasswordsDiffer
  {
  }

  /** The change-password form is valid exactly when the new password has six
      code units and the confirmation equals it. */
  lemma ResetValidIff(newPassword: string, confirmPassword: string)
    ensures ResetErrors(newPassword, confirmPassword).Keys <= {NewPassword, ConfirmPassword}
    ensures ResetErrors(newPassword, confirmPassword) == map[] <==>
      JsLength(newPassword) >= MinPasswordLength && newPassword == confirmPassword
  {
    var r := ResetErrors(newPassword, confirmPassword);
    if r == map[] {
      assert NewPassword !in r && ConfirmPassword !in r;
    }
  }
}
