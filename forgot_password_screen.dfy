/**
 * The forgot-password screen: one e-mail field, one error message, the busy
 * flag and the requests made to the auth store. `handleResetPassword` runs its
 * checks in order and returns at the first that fails; it is split at its
 * `await` as the other screens' handlers are.
 */
module ForgotPassword {
  import opened JsText
  import opened EmailPattern
  import opened AuthApi
  import opened AuthForms

  /** A request this screen may make: the reset of an address that passed both
      checks. */
  ghost predicate FromValidEmail(c: AuthCall) {
    exists email :: c == ResetPassword(NormalizeEmail(email)) && !IsBlank(email) && EmailFormatOk(email)
  }

  /** Such a request carries a normalised e-mail that passes the format test. */
  lemma FromValidEmailWellFormed(c: AuthCall)
    requires FromValidEmail(c)
    ensures c.ResetPassword?
    ensures EmailFormatOk(c.email) && NormalizeEmail(c.email) == c.email
  {
    var email :| c == ResetPassword(NormalizeEmail(email)) && !IsBlank(email) && EmailFormatOk(email);
    NormalizeEmailFormat(email);
    NormalizeEmailIdempotent(email);
  }

  class ForgotPasswordScreen {
    var email: string
    var isLoading: bool
    var error: string
    var calls: seq<AuthCall>

    /** Every request the screen has made is for an address that passed. */
    ghost predicate Valid()
      reads this
    {
      forall k :: 0 <= k < |calls| ==> FromValidEmail(calls[k])
    }

    constructor ()
      ensures Valid()
      ensures email == "" && !isLoading && error == "" && calls == []
    {
      email, isLoading, error, calls := "", false, "", [];
    }

    /** The field's `onChangeText`: stores the text and clears the message. */
    method ChangeEmail(text: string)
      modifies this`email, this`error
      ensures email == text && error == ""
    {
      email := text;
      error := "";
    }

    /** `handleResetPassword` up to its `await`. A blank e-mail gets the
        "required" message and a non-blank one that fails the test the
        "invalid" one, and neither makes a request; otherwise the message is
        cleared, the screen is busy and has asked for a reset of the trimmed,
        lower-cased address. */
    method HandleResetPassword() returns (requested: bool)
      requires Valid()
      modifies this`isLoading, this`error, this`calls
      ensures Valid()
      ensures requested <==> !IsBlank(email) && EmailFormatOk(email)
      ensures IsBlank(email) ==> error == EmailRequired
      ensures !IsBlank(email) && !EmailFormatOk(email) ==> error == EmailInvalid
      ensures !requested ==> isLoading == old(isLoading) && calls == old(calls)
      ensures requested ==> error == "" && isLoading && calls == old(calls) + [ResetPassword(NormalizeEmail(email))]
    {
      if IsBlank(email) {
        error := EmailRequired;
        return false;
      }
      if !EmailFormatOk(email) {
        error := EmailInvalid;
        return false;
      }
      error := "";
      isLoading := true;
      assert FromValidEmail(ResetPassword(NormalizeEmail(email)));
      calls := calls + [ResetPassword(ToLower(Trim(email)))];
      requested := true;
    }

    /** The continuation of `handleResetPassword` once `resetPassword` has
        answered. */
    method ResetSettled()
      modifies this`isLoading
      ensures !isLoading
    {
      isLoading := false;
    }
  }

  /** The outcome of the checks, stated against white space and the regular
      expression: "required" exactly for an all-space address, "invalid"
      exactly for one with a non-space character and no match, a request
      exactly otherwise. */
  lemma ResetChecksSpec(email: string)
    ensures IsBlank(email) <==> AllSpace(email)
    ensures !IsBlank(email) && !EmailFormatOk(email) <==> !AllSpace(email) && !RegexTest(email)
    ensures !IsBlank(email) && EmailFormatOk(email) <==> !AllSpace(email) && RegexTest(email)
  {
    TrimEmptyIffAllSpace(email);
    EmailFormatOkIsRegexTest(email);
  }
}
