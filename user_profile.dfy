/**
 * The profile page: the validator of the profile form (username and
 * e-mail) and of the change-password form, and their change handlers.
 * Both forms share one error map.
 */
module UserProfile {
  import opened Wrappers
  import opened Text
  import opened Forms

  datatype ProfileFields = ProfileFields(username: string, email: string)

  datatype PasswordFields = PasswordFields(oldPassword: string, newPassword: string, confirmPassword: string)

  /**
   * validateProfileForm: username blank after trimming, then shorter than
   * 3 characters; e-mail blank after trimming, then without the e-mail
   * shape. Neither has an upper bound.
   */
  function ProfileErrors(form: ProfileFields): Errors {
    var errors := With(map[], Username, TextIssue(form.username, true, 3, None));
    With(errors, Email, EmailIssue(form.email, true, None))
  }

  /**
   * validatePasswordForm: the current password is required, the new one
   * is required then at least 6 characters, the confirmation is required
   * then equal to the new one. Nothing is trimmed.
   */
  function PasswordErrors(form: PasswordFields): Errors {
    var errors := With(map[], OldPassword, TextIssue(form.oldPassword, false, 0, None));
    var errors := With(errors, NewPassword, TextIssue(form.newPassword, false, 6, None));
    With(errors, ConfirmPassword, ConfirmIssue(form.newPassword, form.confirmPassword))
  }

  /** The profile form is accepted exactly when the username is not blank with at least 3 characters and the e-mail has the e-mail shape. */
  lemma ProfileAcceptedIff(form: ProfileFields)
    ensures ProfileErrors(form) == map[] <==>
      !AllSpace(JavaScript, form.username) && Utf16Length(form.username) >= 3 && MatchesEmailPattern(form.email)
  {
    MissingAfterTrimIffBlank(form.username);
    if MatchesEmailPattern(form.email) {
      EmailShapeIsNeverMissing(form.email, true);
    }
    var e1 := With(map[], Username, TextIssue(form.username, true, 3, None));
    WithEmpty(map[], Username, TextIssue(form.username, true, 3, None));
    WithEmpty(e1, Email, EmailIssue(form.email, true, None));
  }

  /**
   * The password form is accepted exactly when a current password is
   * typed, the new one has at least 6 characters and the confirmation
   * equals it.
   */
  lemma PasswordAcceptedIff(form: PasswordFields)
    ensures PasswordErrors(form) == map[] <==>
      form.oldPassword != "" && Utf16Length(form.newPassword) >= 6 && form.confirmPassword == form.newPassword
  {
    var e1 := With(map[], OldPassword, TextIssue(form.oldPassword, false, 0, None));
    var e2 := With(e1, NewPassword, TextIssue(form.newPassword, false, 6, None));
    WithEmpty(map[], OldPassword, TextIssue(form.oldPassword, false, 0, None));
    WithEmpty(e1, NewPassword, TextIssue(form.newPassword, false, 6, None));
    WithEmpty(e2, ConfirmPassword, ConfirmIssue(form.newPassword, form.confirmPassword));
  }

  /** The profile page's state. */
  class ProfilePage {
    var profile: ProfileFields
    var passwords: PasswordFields
    var errors: Errors

    /** The profile form starts from the signed-in user's username and e-mail (or '' when missing). */
    constructor (username: Option<string>, email: Option<string>)
      ensures profile == ProfileFields(username.GetOr(""), email.GetOr(""))
      ensures passwords == PasswordFields("", "", "") && errors == map[]
    {
      profile := ProfileFields(username.GetOr(""), email.GetOr(""));
      passwords := PasswordFields("", "", "");
      errors := map[];
    }

    method ValidateProfileForm() returns (valid: bool)
      modifies this`errors
      ensures errors == ProfileErrors(profile)
      ensures valid <==> errors == map[]
    {
      errors := map[];
      errors := CheckText(errors, Username, profile.username, true, 3, None);
      errors := CheckEmail(errors, Email, profile.email, true, None);
      valid := |errors| == 0;
    }

    method ValidatePasswordForm() returns (valid: bool)
      modifies this`errors
      ensures errors == PasswordErrors(passwords)
      ensures valid <==> errors == map[]
    {
      errors := map[];
      if passwords.oldPassword == "" {
        errors := errors[OldPassword := Required];
      }
      assert errors == With(map[], OldPassword, TextIssue(passwords.oldPassword, false, 0, None));
      errors := CheckText(errors, NewPassword, passwords.newPassword, false, 6, None);
      errors := CheckConfirm(errors, ConfirmPassword, passwords.newPassword, passwords.confirmPassword);
      valid := |errors| == 0;
    }

    /** Typing into the profile form sets that field and clears only its error. */
    method HandleProfileChange(name: Field, value: string)
      requires name == Username || name == Email
      modifies this`profile, this`errors
      ensures profile == if name == Username then old(profile).(username := value) else old(profile).(email := value)
      ensures errors == Cleared(old(errors), name)
    {
      if name == Username {
        profile := profile.(username := value);
      } else {
        profile := profile.(email := value);
      }
      if name in errors {
        errors := errors - {name};
      }
    }

    /** Typing into the password form sets that field and clears only its error. */
    method HandlePasswordChange(name: Field, value: string)
      requires name == OldPassword || name == NewPassword || name == ConfirmPassword
      modifies this`passwords, this`errors
      ensures passwords ==
        if name == OldPassword then old(passwords).(oldPassword := value)
        else if name == NewPassword then old(passwords).(newPassword := value)
        else old(passwords).(confirmPassword := value)
      ensures errors == Cleared(old(errors), name)
    {
      if name == OldPassword {
        passwords := passwords.(oldPassword := value);
      } else if name == NewPassword {
        passwords := passwords.(newPassword := value);
      } else {
        passwords := passwords.(confirmPassword := value);
      }
      if name in errors {
        errors := errors - {name};
      }
    }
  }
}
