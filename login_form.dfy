/**
 * The sign-in form: its validator, the change handler that clears the
 * typed field's error, and the quick-fill buttons that put a seeded
 * account's credentials into the form.
 */
module LoginForm {
  import opened Wrappers
  import opened Text
  import opened Directory
  import opened Forms

  datatype LoginFields = LoginFields(email: string, password: string)

  /**
   * validateForm: untrimmed values; e-mail required then the e-mail shape;
   * password required then at least 6 characters.
   */
  function LoginErrors(form: LoginFields): Errors {
    var errors := With(map[], Email, EmailIssue(form.email, false, None));
    With(errors, Password, TextIssue(form.password, false, 6, None))
  }

  /** The form is accepted exactly when the e-mail has the e-mail shape and the password has at least 6 characters. */
  lemma LoginAcceptedIff(form: LoginFields)
    ensures LoginErrors(form) == map[] <==> MatchesEmailPattern(form.email) && Utf16Length(form.password) >= 6
  {
    if MatchesEmailPattern(form.email) {
      EmailShapeIsNeverMissing(form.email, false);
    }
    var e1 := With(map[], Email, EmailIssue(form.email, false, None));
    WithEmpty(map[], Email, EmailIssue(form.email, false, None));
    WithEmpty(e1, Password, TextIssue(form.password, false, 6, None));
  }

  /** handleRoleSelect's credentials: the Admin account for "Admin", the User account for anything else. */
  function QuickFill(role: string): LoginFields {
    if role == "Admin" then LoginFields("admin@example.com", AdminSeedPassword)
    else LoginFields("user@example.com", UserSeedPassword)
  }

  /** An address at example.com whose local part ends in a visible character has the e-mail shape. */
  lemma ExampleComAddress(local: string)
    requires |local| > 0 && !IsJsSpace(local[|local| - 1])
    ensures MatchesEmailPattern(local + "@example.com")
  {
    var s := local + "@example.com";
    var at := |local|;
    var dot := at + 8;
    assert s[at - 1] == local[|local| - 1];
    forall k | at <= k < |s| ensures s[k] == "@example.com"[k - at] {}
    assert EmailShapeAt(s, at, dot);
  }

  /** The quick-filled credentials always pass the form's own validation. */
  lemma QuickFillAccepted(role: string)
    ensures LoginErrors(QuickFill(role)) == map[]
  {
    ExampleComAddress("admin");
    ExampleComAddress("user");
    assert "admin" + "@example.com" == "admin@example.com";
    assert "user" + "@example.com" == "user@example.com";
    LoginAcceptedIff(QuickFill(role));
  }

  /**
   * The quick-filled credentials are those of a seeded account: the
   * seeded Admin account for "Admin", the seeded User account otherwise;
   * the e-mail is that account's and the password verifies against its
   * stored hash.
   */
  lemma QuickFillIsSeedAccount(role: string, now: int)
    ensures var id := if role == "Admin" then 1 else 2;
      var seeded := SeedUsers(now)[id];
      && QuickFill(role).email == seeded.email
      && VerifyPassword(QuickFill(role).password, seeded.passwordHash)
      && seeded.roleId == (if role == "Admin" then AdminRoleId else UserRoleId)
  {
    SeedPasswordsVerify(now, QuickFill(role).password);
  }

  /** The sign-in page's state. */
  class LoginPage {
    var email: string
    var password: string
    var formErrors: Errors
    var showFastLogin: bool
    var selectedRole: Option<string>

    constructor ()
      ensures Fields() == LoginFields("", "") && formErrors == map[]
      ensures !showFastLogin && selectedRole == None
    {
      email := "";
      password := "";
      formErrors := map[];
      showFastLogin := false;
      selectedRole := None;
    }

    function Fields(): (r: LoginFields)
      reads this
      ensures r.email == email && r.password == password
    {
      LoginFields(email, password)
    }

    method ValidateForm() returns (valid: bool)
      modifies this`formErrors
      ensures formErrors == LoginErrors(Fields())
      ensures valid <==> formErrors == map[]
    {
      formErrors := map[];
      formErrors := CheckEmail(formErrors, Email, email, false, None);
      formErrors := CheckText(formErrors, Password, password, false, 6, None);
      valid := |formErrors| == 0;
    }

    /** Typing into a field sets it and clears that field's error, and no other. */
    method HandleChange(name: Field, value: string)
      requires name == Email || name == Password
      modifies this`email, this`password, this`formErrors
      ensures Fields() == if name == Email then old(Fields()).(email := value) else old(Fields()).(password := value)
      ensures formErrors == Cleared(old(formErrors), name)
    {
      if name == Email {
        email := value;
      } else {
        password := value;
      }
      if name in formErrors {
        formErrors := formErrors - {name};
      }
    }

    /** Choosing a role closes the quick-login panel and fills the form with that role's seeded account. */
    method HandleRoleSelect(role: string)
      modifies this`selectedRole, this`showFastLogin, this`email, this`password
      ensures selectedRole == Some(role) && !showFastLogin
      ensures Fields() == QuickFill(role)
    {
      selectedRole := Some(role);
      showFastLogin := false;
      if role == "Admin" {
        email := "admin@example.com";
        password := AdminSeedPassword;
      } else {
        email := "user@example.com";
        password := UserSeedPassword;
      }
    }
  }
}
