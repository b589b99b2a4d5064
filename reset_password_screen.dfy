/**
 * The change-password screen: the two fields of `formData`, the error record,
 * the busy flag and the requests made to the auth store. Typing in a field
 * blanks that field's own message (the key stays, holding "").
 */
module ResetPassword {
  import opened JsText
  import opened AuthApi
  import opened AuthForms

  /** A request this screen may make: the password of a form that passed
      `validateForm`. */
  ghost predicate FromValidForm(c: AuthCall) {
    exists confirmPassword :: c.UpdatePassword? && ResetErrors(c.newPassword, confirmPassword) == map[]
  }

  /** Such a request carries a password of at least six code units. */
  lemma FromValidFormWellFormed(c: AuthCall)
    requires FromValidForm(c)
    ensures c.UpdatePassword? && JsLength(c.newPassword) >= MinPasswordLength
  {
    var confirmPassword :| c.UpdatePassword? && ResetErrors(c.newPassword, confirmPassword) == map[];
    ResetValidIff(c.newPassword, confirmPassword);
  }

  class ResetPasswordScreen {
    var newPassword: string
    var confirmPassword: string
    var errors: Errors
    var loading: bool
    var calls: seq<AuthCall>

    /** Every request the screen has made came from a valid form. */
    ghost predicate Valid()
      reads this
    {
      forall k :: 0 <= k < |calls| ==> FromValidForm(calls[k])
    }

    constructor ()
      ensures Valid()
      ensures newPassword == "" && confirmPassword == "" && errors == map[] && !loading && calls == []
    {
      newPassword, confirmPassword, errors, loading, calls := "", "", map[], false, [];
    }

    /** The new-password field's `onChangeText`: stores the text and blanks its
        own message only. */
    method ChangeNewPassword(text: string)
      modifies this`newPassword, this`errors
      ensures newPassword == text
      ensures errors == old(errors)[NewPassword := ""]
      ensures NewPassword in errors && errors[NewPassword] == ""
      ensures ConfirmPassword in errors <==> ConfirmPassword in old(errors)
      ensures ConfirmPassword in old(errors) ==> errors[ConfirmPassword] == old(errors)[ConfirmPassword]
    {
      newPassword := text;
      errors := errors[NewPassword := ""];
    }

    /** The confirmation field's `onChangeText`: stores the text and blanks its
        own message only. */
    method ChangeConfirmPassword(text: string)
      modifies this`confirmPassword, this`errors
      ensures confirmPassword == text
      ensures errors == old(errors)[ConfirmPassword := ""]
    {
      confirmPassword := text;
      errors := errors[ConfirmPassword := ""];
    }

    /** `validateForm`: the length rule and the equality rule, the record
        replaced wholesale. */
    method ValidateForm() returns (valid: bool)
      modifies this`errors
      ensures errors == ResetErrors(newPassword, confirmPassword)
      ensures valid <==> errors == map[]
    {
      var newErrors: Errors := map[];
      if newPassword == "" {
        newErrors := newErrors[NewPassword := NewPasswordRequired];
      } else if JsLength(newPassword) < MinPasswordLength {
        newErrors := newErrors[NewPassword := PasswordTooShort];
      }
      if newPassword != confirmPassword {
        newErrors := newErrors[ConfirmPassword := PasswordsDiffer];
      }
      errors := newErrors;
      valid := |newErrors| == 0;
      NoKeysIsEmpty(newErrors);
    }

    /** `handleSubmit` up to its `await`: only a valid form leads to
        `updatePassword(newPassword)`. */
    method HandleSubmit() returns (requested: bool)
      requires Valid()
      modifies this`errors, this`loading, this`calls
      ensures Valid()
      ensures errors == ResetErrors(newPassword, confirmPassword)
      ensures requested <==> errors == map[]
      ensures !requested ==> loading == old(loading) && calls == old(calls)
      ensures requested ==> loading && calls == old(calls) + [UpdatePassword(newPassword)]
    {
      var valid := ValidateForm();
      if !valid {
        return false;
      }
      loading := true;
      assert FromValidForm(UpdatePassword(newPassword));
      calls := calls + [UpdatePassword(newPassword)];
      requested := true;
    }

    /** The continuation of `handleSubmit` once `updatePassword` has answered. */
    method UpdateSettled()
      modifies this`loading
      ensures !loading
    {
      loading := false;
    }
  }
}
