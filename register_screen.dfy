/**
 * The register screen: name, e-mail, password and confirmation fields, the
 * error record, the busy flag and the requests made to the auth store.
 * `handleRegister` is split at its `await` as on the login screen.
 */
module Register {
  import opened JsText
  import opened EmailPattern
  import opened AuthApi
  import opened AuthForms

  /** A request this screen may make: the sign-up of a form that passed
      `validateForm`. */
  ghost predicate FromValidForm(c: AuthCall) {
    exists nombreCompleto, email, password, confirmPassword ::
      && c == SignUp(NormalizeEmail(email), password, Trim(nombreCompleto))
      && RegisterErrors(nombreCompleto, email, password, confirmPassword) == map[]
  }

  /** Such a request carries a normalised e-mail that passes the format test, a
      password of at least six code units and a trimmed, non-empty name. */
  lemma FromValidFormWellFormed(c: AuthCall)
    requires FromValidForm(c)
    ensures c.SignUp?
    ensures EmailFormatOk(c.email) && NormalizeEmail(c.email) == c.email
    ensures JsLength(c.password) >= MinPasswordLength
    ensures c.nombreCompleto != "" && Trim(c.nombreCompleto) == c.nombreCompleto
  {
    var nombreCompleto, email, password, confirmPassword :|
      && c == SignUp(NormalizeEmail(email), password, Trim(nombreCompleto))
      && RegisterErrors(nombreCompleto, email, password, confirmPassword) == map[];
    RegisterValidIff(nombreCompleto, email, password, confirmPassword);
    EmailFormatOkIsRegexTest(email);
    NormalizeEmailFormat(email);
    NormalizeEmailIdempotent(email);
    TrimEmptyIffAllSpace(nombreCompleto);
    TrimIdempotent(nombreCompleto);
  }

  class RegisterScreen {
    var nombreCompleto: string
    var email: string
    var password: string
    var confirmPassword: string
    var errors: Errors
    var isLoading: bool
    var calls: seq<AuthCall>

    /** Every request the screen has made came from a valid form. */
    ghost predicate Valid()
      reads this
    {
      forall k :: 0 <= k < |calls| ==> FromValidForm(calls[k])
    }

    constructor ()
      ensures Valid()
      ensures nombreCompleto == "" && email == "" && password == "" && confirmPassword == ""
      ensures errors == map[] && !isLoading && calls == []
    {
      nombreCompleto, email, password, confirmPassword := "", "", "", "";
      errors, isLoading, calls := map[], false, [];
    }

    /** `onChangeText={setNombreCompleto}`. */
    method SetNombreCompleto(text: string)
      modifies this`nombreCompleto
      ensures nombreCompleto == text
    {
      nombreCompleto := text;
    }

    /** `onChangeText={setEmail}`. */
    method SetEmail(text: string)
      modifies this`email
      ensures email == text
    {
      email := text;
    }

    /** `onChangeText={setPassword}`. */
    method SetPassword(text: string)
      modifies this`password
      ensures password == text
    {
      password := text;
    }

    /** `onChangeText={setConfirmPassword}`. */
    method SetConfirmPassword(text: string)
      modifies this`confirmPassword
      ensures confirmPassword == text
    {
      confirmPassword := text;
    }

    /** `validateForm`: four independent rules, the record replaced wholesale. */
    method ValidateForm() returns (valid: bool)
      modifies this`errors
      ensures errors == RegisterErrors(nombreCompleto, email, password, confirmPassword)
      ensures valid <==> errors == map[]
    {
      var newErrors: Errors := map[];
      if IsBlank(nombreCompleto) {
        newErrors := newErrors[NombreCompleto := NameRequired];
      }
      ghost var e0 := newErrors;
      assert e0 == Put(map[], NombreCompleto, NameError(nombreCompleto));
      if IsBlank(email) {
        newErrors := newErrors[Email := EmailRequired];
      } else if !EmailFormatOk(email) {
        newErrors := newErrors[Email := EmailInvalid];
      }
      ghost var e1 := newErrors;
      assert e1 == Put(e0, Email, EmailError(email));
      if password == "" {
        newErrors := newErrors[Password := PasswordRequired];
      } else if JsLength(password) < MinPasswordLength {
        newErrors := newErrors[Password := PasswordTooShort];
      }
      ghost var e2 := newErrors;
      assert e2 == Put(e1, Password, PasswordError(password, PasswordRequired));
      if password != confirmPassword {
        newErrors := newErrors[ConfirmPassword := PasswordsDiffer];
      }
      assert newErrors == Put(e2, ConfirmPassword, ConfirmError(password, confirmPassword));
      errors := newErrors;
      valid := |newErrors| == 0;
      NoKeysIsEmpty(newErrors);
    }

    /** `handleRegister` up to its `await`: only a valid form leads to a
        sign-up, with the trimmed, lower-cased e-mail, the password as typed
        and the trimmed name. */
    method HandleRegister() returns (requested: bool)
      requires Valid()
      modifies this`errors, this`isLoading, this`calls
      ensures Valid()
      ensures errors == RegisterErrors(nombreCompleto, email, password, confirmPassword)
      ensures requested <==> errors == map[]
      ensures !requested ==> isLoading == old(isLoading) && calls == old(calls)
      ensures requested ==> isLoading
      ensures requested ==>
        calls == old(calls) + [SignUp(NormalizeEmail(email), password, Trim(nombreCompleto))]
    {
      var valid := ValidateForm();
      if !valid {
        return false;
      }
      isLoading := true;
      assert FromValidForm(SignUp(NormalizeEmail(email), password, Trim(nombreCompleto)));
      calls := calls + [SignUp(ToLower(Trim(email)), password, Trim(nombreCompleto))];
      requested := true;
    }

    /** The continuation of `handleRegister` once `signUp` has answered. */
    method SignUpSettled()
      modifies this`isLoading
      ensures !isLoading
    {
      isLoading := false;
    }
  }
}
