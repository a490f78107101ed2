/**
 * The registration form: its validator, and the change handler that
 * clears a field's error as the user types and clears the confirmation
 * error once the two passwords agree.
 */
module RegisterForm {
  import opened Wrappers
  import opened Text
  import opened Forms

  /** The form's inputs. */
  datatype RegisterFields = RegisterFields(
    username: string, email: string, password: string, confirmPassword: string, role: string)

  /**
   * validateForm: untrimmed values; username required then at least 3
   * characters (no upper bound); e-mail required then the e-mail shape
   * (no length bound); password required then at least 6 characters;
   * confirmation required then equal to the password.
   */
  function RegisterErrors(form: RegisterFields): Errors {
    var errors := With(map[], Username, TextIssue(form.username, false, 3, None));
    var errors := With(errors, Email, EmailIssue(form.email, false, None));
    var errors := With(errors, Password, TextIssue(form.password, false, 6, None));
    With(errors, ConfirmPassword, ConfirmIssue(form.password, form.confirmPassword))
  }

  /**
   * The form is accepted exactly when the username has at least 3
   * characters, the e-mail has the e-mail shape, the password has at
   * least 6 characters and the confirmation equals it.
   */
  lemma RegisterAcceptedIff(form: RegisterFields)
    ensures RegisterErrors(form) == map[] <==>
      && Utf16Length(form.username) >= 3 && MatchesEmailPattern(form.email)
      && Utf16Length(form.password) >= 6 && form.confirmPassword == form.password
  {
    if MatchesEmailPattern(form.email) {
      EmailShapeIsNeverMissing(form.email, false);
    }
    var e1 := With(map[], Username, TextIssue(form.username, false, 3, None));
    var e2 := With(e1, Email, EmailIssue(form.email, false, None));
    var e3 := With(e2, Password, TextIssue(form.password, false, 6, None));
    WithEmpty(map[], Username, TextIssue(form.username, false, 3, None));
    WithEmpty(e1, Email, EmailIssue(form.email, false, None));
    WithEmpty(e2, Password, TextIssue(form.password, false, 6, None));
    WithEmpty(e3, ConfirmPassword, ConfirmIssue(form.password, form.confirmPassword));
  }

  /** The inputs the form has (each one's `name` attribute). */
  predicate IsInput(name: Field) {
    name in {Username, Email, Password, ConfirmPassword, Field.Role}
  }

  /** The form after typing `value` into input `name`. */
  function Typed(form: RegisterFields, name: Field, value: string): (r: RegisterFields)
    requires IsInput(name)
    ensures r.username == (if name == Username then value else form.username)
    ensures r.email == (if name == Email then value else form.email)
    ensures r.password == (if name == Password then value else form.password)
    ensures r.confirmPassword == (if name == ConfirmPassword then value else form.confirmPassword)
    ensures r.role == (if name == Field.Role then value else form.role)
  {
    match name
    case Username => form.(username := value)
    case Email => form.(email := value)
    case Password => form.(password := value)
    case ConfirmPassword => form.(confirmPassword := value)
    case Role => form.(role := value)
  }

  /**
   * Whether typing `value` into `name` clears the confirmation error: the
   * new password equals a non-empty confirmation, or the new confirmation
   * equals the password. Both tests read the form as it was before the
   * keystroke.
   */
  predicate ClearsConfirmation(form: RegisterFields, name: Field, value: string) {
    || (name == Password && form.confirmPassword != "" && value == form.confirmPassword)
    || (name == ConfirmPassword && value == form.password)
  }

  /** The error map after typing `value` into `name`. */
  function ErrorsAfterTyping(errors: Errors, form: RegisterFields, name: Field, value: string): (r: Errors)
    ensures name !in r
    ensures ConfirmPassword in r <==> ConfirmPassword in errors && name != ConfirmPassword && !ClearsConfirmation(form, name, value)
    ensures forall f :: f in r ==> f in errors && r[f] == errors[f]
  {
    var cleared := Cleared(errors, name);
    if ClearsConfirmation(form, name, value) then Cleared(cleared, ConfirmPassword) else cleared
  }

  /**
   * Editing either password field so that the two agree (on a non-empty
   * value) removes the confirmation error.
   */
  lemma MatchingPasswordsClearConfirmation(errors: Errors, form: RegisterFields, name: Field, value: string)
    requires name == Password || name == ConfirmPassword
    requires var after := Typed(form, name, value);
      after.password == after.confirmPassword && after.confirmPassword != ""
    ensures ConfirmPassword !in ErrorsAfterTyping(errors, form, name, value)
  {
  }

  /**
   * Typing never touches the error of a field other than the one typed
   * into and the confirmation; the confirmation's error only goes away
   * when the passwords agree.
   */
  lemma TypingKeepsOtherErrors(errors: Errors, form: RegisterFields, name: Field, value: string, f: Field)
    requires IsInput(name) && f != name && f in errors
    ensures var r := ErrorsAfterTyping(errors, form, name, value);
      f != ConfirmPassword ==> f in r && r[f] == errors[f]
    ensures var r := ErrorsAfterTyping(errors, form, name, value);
      f == ConfirmPassword && f !in r ==> Typed(form, name, value).password == Typed(form, name, value).confirmPassword
  {
  }

  /** The registration page's state. */
  class RegisterPage {
    var username: string
    var email: string
    var password: string
    var confirmPassword: string
    var role: string
    var formErrors: Errors

    constructor ()
      ensures Fields() == RegisterFields("", "", "", "", "User") && formErrors == map[]
    {
      username := "";
      email := "";
      password := "";
      confirmPassword := "";
      role := "User";
      formErrors := map[];
    }

    function Fields(): (r: RegisterFields)
      reads this
      ensures r.username == username && r.email == email && r.password == password
      ensures r.confirmPassword == confirmPassword && r.role == role
    {
      RegisterFields(username, email, password, confirmPassword, role)
    }

    method ValidateForm() returns (valid: bool)
      modifies this`formErrors
      ensures formErrors == RegisterErrors(Fields())
      ensures valid <==> formErrors == map[]
    {
      var form := Fields();
      var errors: Errors := map[];
      errors := CheckText(errors, Username, username, false, 3, None);
      errors := CheckEmail(errors, Email, email, false, None);
      errors := CheckText(errors, Password, password, false, 6, None);
      errors := CheckConfirm(errors, ConfirmPassword, password, confirmPassword);
      assert errors == RegisterErrors(form);
      formErrors := errors;
      valid := |errors| == 0;
    }

    method HandleChange(name: Field, value: string)
      requires IsInput(name)
      modifies this
      ensures Fields() == Typed(old(Fields()), name, value)
      ensures formErrors == ErrorsAfterTyping(old(formErrors), old(Fields()), name, value)
    {
      var before := Fields();
      match name {
        case Username => username := value;
        case Email => email := value;
        case Password => password := value;
        case ConfirmPassword => confirmPassword := value;
        case Role => role := value;
      }
      if name in formErrors {
        formErrors := formErrors - {name};
      }
      if name == Password && before.confirmPassword != "" && value == before.confirmPassword {
        formErrors := formErrors - {ConfirmPassword};
      }
      if name == ConfirmPassword && value == before.password {
        formErrors := formErrors - {ConfirmPassword};
      }
    }
  }
}
