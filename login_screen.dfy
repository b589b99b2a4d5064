/**
 * The login screen: two text fields, the error record shown under them, the
 * busy flag of the submit button and the requests made to the auth store.
 * `handleLogin` is split at its `await`: `HandleLogin` runs up to and
 * including the `signIn` request, `SignInSettled` is the continuation.
 */
module Login {
  import opened JsText
  import opened EmailPattern
  import opened AuthApi
  import opened AuthForms

  /** A request this screen may make: the sign-in of a form that passed
      `validateForm`. */
  ghost predicate FromValidForm(c: AuthCall) {
    exists email, password :: c == SignIn(NormalizeEmail(email), password) && LoginErrors(email, password) == map[]
  }

  /** Such a request carries a normalised e-mail that passes the format test
      and a password of at least six code units. */
  lemma FromValidFormWellFormed(c: AuthCall)
    requires FromValidForm(c)
    ensures c.SignIn?
    ensures EmailFormatOk(c.email) && NormalizeEmail(c.email) == c.email
    ensures JsLength(c.password) >= MinPasswordLength
  {
    var email, password :| c == SignIn(NormalizeEmail(email), password) && LoginErrors(email, password) == map[];
    LoginValidIff(email, c.password);
    EmailFormatOkIsRegexTest(email);
    NormalizeEmailFormat(email);
    NormalizeEmailIdempotent(email);
  }

  class LoginScreen {
    var email: string
    var password: string
    var errors: Errors
    var isLoading: bool
    var calls: seq<AuthCall>

    /** Every request the screen has made came from a valid form. */
    ghost predicate Valid()
      reads this
    {
      forall k :: 0 <= k < |calls| ==> FromValidForm(calls[k])
    }

    constructor ()
      ensures Valid()
      ensures email == "" && password == "" && errors == map[] && !isLoading && calls == []
    {
      email, password, errors, isLoading, calls := "", "", map[], false, [];
    }

    /** `onChangeText={setEmail}`. */
    method SetEmail(text: string)
      modifies this`email
      ensures email == text
    {
      email := text;
    }

    /** `onChangeText={setPassword}`. */
    method SetPassword(text: string)
      modifies this`password
      ensures password == text
    {
      password := text;
    }

    /** `validateForm`: the stored record is replaced by the one the rules give,
        and the form is valid when that record has no key. */
    method ValidateForm() returns (valid: bool)
      modifies this`errors
      ensures errors == LoginErrors(email, password)
      ensures valid <==> errors == map[]
    {
      var newErrors: Errors := map[];
      if IsBlank(email) {
        newErrors := newErrors[Email := EmailRequired];
      } else if !EmailFormatOk(email) {
        newErrors := newErrors[Email := EmailInvalid];
      }
      if password == "" {
        newErrors := newErrors[Password := PasswordRequired];
      } else if JsLength(password) < MinPasswordLength {
        newErrors := newErrors[Password := PasswordTooShort];
      }
      errors := newErrors;
      valid := |newErrors| == 0;
      NoKeysIsEmpty(newErrors);
    }

    /** `handleLogin` up to its `await`: nothing happens beyond the new error
        record unless the form is valid; then the screen is busy and has asked
        for a sign-in with the trimmed, lower-cased e-mail and the password as
        typed. */
    method HandleLogin() returns (requested: bool)
      requires Valid()
      modifies this`errors, this`isLoading, this`calls
      ensures Valid()
      ensures errors == LoginErrors(email, password)
      ensures requested <==> errors == map[]
      ensures !requested ==> isLoading == old(isLoading) && calls == old(calls)
      ensures requested ==> isLoading && calls == old(calls) + [SignIn(NormalizeEmail(email), password)]
    {
      var valid := ValidateForm();
      if !valid {
        return false;
      }
      isLoading := true;
      assert FromValidForm(SignIn(NormalizeEmail(email), password));
      calls := calls + [SignIn(ToLower(Trim(email)), password)];
      requested := true;
    }

    /** The continuation of `handleLogin` once `signIn` has answered. */
    method SignInSettled()
      modifies this`isLoading
      ensures !isLoading
    {
      isLoading := false;
    }
  }
}
