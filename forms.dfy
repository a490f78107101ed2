/**
 * What the client's form validators have in common: an error map from
 * field to the first rule the field breaks, and the per-field rule chains
 * (required, then minimum length, then maximum length; required, then
 * e-mail shape, then maximum length; required, then equal to the password).
 *
 * The forms show a fixed message per field and rule; an `Issue` stands for
 * that message. Clearing a field's error (setting it to '') is removing
 * the field from the map: the forms only ever test an error for
 * truthiness, and '' is falsy.
 */
module Forms {
  import opened Wrappers
  import opened Text

  datatype Field = Username | Email | Password | ConfirmPassword | Role | OldPassword | NewPassword

  datatype Issue = Required | TooShort | TooLong | InvalidEmail | Mismatch

  type Errors = map<Field, Issue>

  /** The JavaScript test `!value`, or `!value.trim()` when the form trims first. */
  predicate Missing(value: string, trims: bool) {
    if trims then Trim(JavaScript, value) == "" else value == ""
  }

  /** A trimmed field is missing exactly when it is all whitespace. */
  lemma MissingAfterTrimIffBlank(value: string)
    ensures Missing(value, true) <==> AllSpace(JavaScript, value)
  {
    TrimEmptyIffAllSpace(JavaScript, value);
  }

  /**
   * Required, then at least `minLength`, then at most `maxLength` (when
   * there is one). Lengths are of the value as typed, not trimmed, and
   * counted as JavaScript's `.length` counts them, in UTF-16 code units.
   */
  function TextIssue(value: string, trims: bool, minLength: nat, maxLength: Option<nat>): (r: Option<Issue>)
    ensures r == Some(Required) <==> Missing(value, trims)
    ensures r == Some(TooShort) <==> !Missing(value, trims) && Utf16Length(value) < minLength
    ensures r == Some(TooLong) <==>
      !Missing(value, trims) && Utf16Length(value) >= minLength && maxLength.Some? && Utf16Length(value) > maxLength.value
    ensures r == None <==>
      !Missing(value, trims) && Utf16Length(value) >= minLength && (maxLength.None? || Utf16Length(value) <= maxLength.value)
  {
    if Missing(value, trims) then Some(Required)
    else if Utf16Length(value) < minLength then Some(TooShort)
    else if maxLength.Some? && Utf16Length(value) > maxLength.value then Some(TooLong)
    else None
  }

  /**
   * Required, then the shape `\S+@\S+\.\S+` somewhere in the value, then
   * at most `maxLength` UTF-16 code units.
   */
  function EmailIssue(value: string, trims: bool, maxLength: Option<nat>): (r: Option<Issue>)
    ensures r == Some(Required) <==> Missing(value, trims)
    ensures r == Some(InvalidEmail) <==> !Missing(value, trims) && !MatchesEmailPattern(value)
    ensures r == Some(TooLong) <==>
      !Missing(value, trims) && MatchesEmailPattern(value) && maxLength.Some? && Utf16Length(value) > maxLength.value
    ensures r == None <==>
      !Missing(value, trims) && MatchesEmailPattern(value) && (maxLength.None? || Utf16Length(value) <= maxLength.value)
  {
    if Missing(value, trims) then Some(Required)
    else if !MatchesEmailPattern(value) then Some(InvalidEmail)
    else if maxLength.Some? && Utf16Length(value) > maxLength.value then Some(TooLong)
    else None
  }

  /** A value that has the e-mail shape is never missing, trimmed or not: the "required" check is subsumed. */
  lemma EmailShapeIsNeverMissing(value: string, trims: bool)
    requires MatchesEmailPattern(value)
    ensures !Missing(value, trims)
  {
    EmailPatternNeedsFiveChars(value);
    MissingAfterTrimIffBlank(value);
  }

  /** The confirmation: required, then equal to the password. */
  function ConfirmIssue(password: string, confirmation: string): (r: Option<Issue>)
    ensures r == Some(Required) <==> confirmation == ""
    ensures r == Some(Mismatch) <==> confirmation != "" && confirmation != password
    ensures r == None <==> confirmation != "" && confirmation == password
  {
    if confirmation == "" then Some(Required)
    else if password != confirmation then Some(Mismatch)
    else None
  }

  /** `errors.field = message` when the field has an issue; the map as it was otherwise. */
  function With(errors: Errors, field: Field, issue: Option<Issue>): Errors {
    if issue.Some? then errors[field := issue.value] else errors
  }

  /** A map built by `With` is empty exactly when it started empty and no issue was added. */
  lemma WithEmpty(errors: Errors, field: Field, issue: Option<Issue>)
    ensures With(errors, field, issue) == map[] <==> errors == map[] && issue.None?
  {
    if issue.Some? {
      assert field in With(errors, field, issue);
    }
  }

  /** Dropping one field's error commutes with adding another field's. */
  lemma WithThenDrop(errors: Errors, field: Field, issue: Option<Issue>, dropped: Field)
    ensures field != dropped ==> With(errors, field, issue) - {dropped} == With(errors - {dropped}, field, issue)
    ensures field == dropped ==> With(errors, field, issue) - {dropped} == errors - {dropped}
  {
  }

  /**
   * One field's rule chain as the forms run it: test each rule in order
   * and record the message of the first one broken.
   */
  method CheckText(errors: Errors, field: Field, value: string, trims: bool, minLength: nat, maxLength: Option<nat>)
    returns (r: Errors)
    ensures r == With(errors, field, TextIssue(value, trims, minLength, maxLength))
  {
    ghost var issue := TextIssue(value, trims, minLength, maxLength);
    r := errors;
    if Missing(value, trims) {
      assert issue == Some(Required);
      r := r[field := Required];
    } else if Utf16Length(value) < minLength {
      assert issue == Some(TooShort);
      r := r[field := TooShort];
    } else if maxLength.Some? && Utf16Length(value) > maxLength.value {
      assert issue == Some(TooLong);
      r := r[field := TooLong];
    } else {
      assert issue == None;
    }
  }

  method CheckEmail(errors: Errors, field: Field, value: string, trims: bool, maxLength: Option<nat>)
    returns (r: Errors)
    ensures r == With(errors, field, EmailIssue(value, trims, maxLength))
  {
    ghost var issue := EmailIssue(value, trims, maxLength);
    r := errors;
    if Missing(value, trims) {
      assert issue == Some(Required);
      r := r[field := Required];
    } else if !MatchesEmailPattern(value) {
      assert issue == Some(InvalidEmail);
      r := r[field := InvalidEmail];
    } else if maxLength.Some? && Utf16Length(value) > maxLength.value {
      assert issue == Some(TooLong);
      r := r[field := TooLong];
    } else {
      assert issue == None;
    }
  }

  method CheckConfirm(errors: Errors, field: Field, password: string, confirmation: string)
    returns (r: Errors)
    ensures r == With(errors, field, ConfirmIssue(password, confirmation))
  {
    r := errors;
    if confirmation == "" {
      r := r[field := Required];
    } else if password != confirmation {
      r := r[field := Mismatch];
    }
  }

  /** Removing a field's error (the forms set it to ''); every other field keeps its error. */
  function Cleared(errors: Errors, field: Field): (r: Errors)
    ensures field !in r
    ensures forall f :: f != field ==> (f in r <==> f in errors) && (f in r ==> r[f] == errors[f])
  {
    errors - {field}
  }
}
