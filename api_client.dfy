/**
 * The client's API helpers: the message shown for a failed request, and
 * the body the profile page sends to change a password.
 */
module ApiClient {
  import opened Wrappers
  import opened UserPolicy
  import opened Directory

  /**
   * A failed request as the HTTP client reports it: the server answered
   * with a status (its body's `message`, if any, and the status text), the
   * request went out but nothing came back, or the request was never sent.
   */
  datatype RequestFailure =
    | Answered(status: nat, message: Option<string>, statusText: string)
    | NoAnswer
    | NotSent(message: Option<string>)

  const BadRequestText: string := "Bad request"
  const UnauthorizedText: string := "Unauthorized - Please login again"
  const ForbiddenText: string := "Access forbidden - Insufficient permissions"
  const NotFoundText: string := "Resource not found"
  const ConflictText: string := "Conflict - Resource already exists"
  const ValidationText: string := "Validation error"
  const ServerErrorText: string := "Internal server error"
  const NetworkErrorText: string := "Network error - Cannot connect to server"
  const UnexpectedText: string := "An unexpected error occurred"

  /** JavaScript's `a || b` on an optional string: a missing or empty `a` gives `b`. */
  function OrElse(a: Option<string>, b: string): (r: string)
    ensures a.Some? && a.value != "" ==> r == a.value
    ensures a.None? || a.value == "" ==> r == b
  {
    if a.Some? && a.value != "" then a.value else b
  }

  function DigitChar(d: nat): (c: char)
    requires d < 10
    ensures '0' <= c <= '9'
  {
    ['0', '1', '2', '3', '4', '5', '6', '7', '8', '9'][d]
  }

  function DigitValue(c: char): nat
    requires '0' <= c <= '9'
  {
    (c as int - '0' as int) as nat
  }

  /** A number in decimal, as a template literal prints it. */
  function Decimal(n: nat): (s: string)
    ensures |s| >= 1
    ensures forall i :: 0 <= i < |s| ==> '0' <= s[i] <= '9'
    ensures |s| > 1 ==> s[0] != '0'
    decreases n
  {
    if n < 10 then [DigitChar(n)] else Decimal(n / 10) + [DigitChar(n % 10)]
  }

  /** The value of a string of digits. */
  function DecimalValue(s: string): nat
    requires forall i :: 0 <= i < |s| ==> '0' <= s[i] <= '9'
    decreases |s|
  {
    if s == [] then 0 else DecimalValue(s[..|s| - 1]) * 10 + DigitValue(s[|s| - 1])
  }

  /** The decimal form reads back as the same number. */
  lemma {:induction false} DecimalRoundTrip(n: nat)
    ensures DecimalValue(Decimal(n)) == n
    decreases n
  {
    var s := Decimal(n);
    if n < 10 {
      assert s == [DigitChar(n)];
      assert s[..0] == [];
    } else {
      DecimalRoundTrip(n / 10);
      assert s[..|s| - 1] == Decimal(n / 10);
      assert s[|s| - 1] == DigitChar(n % 10);
    }
  }

  /** The message shown to the user for a failed request. */
  function HandleApiError(failure: RequestFailure): (r: string)
    ensures r != ""
    ensures failure.Answered? && failure.status == 400 ==> r == OrElse(failure.message, BadRequestText)
    ensures failure.Answered? && failure.status == 409 ==> r == OrElse(failure.message, ConflictText)
    ensures failure.Answered? && failure.status == 422 ==> r == OrElse(failure.message, ValidationText)
    ensures failure.Answered? && failure.status == 401 ==> r == UnauthorizedText
    ensures failure.Answered? && failure.status == 403 ==> r == ForbiddenText
    ensures failure.Answered? && failure.status == 404 ==> r == NotFoundText
    ensures failure.Answered? && failure.status == 500 ==> r == ServerErrorText
    ensures failure.Answered? && failure.status !in {400, 401, 403, 404, 409, 422, 500} ==>
      r == OrElse(failure.message, "Error " + Decimal(failure.status) + ": " + failure.statusText)
    ensures failure.NoAnswer? ==> r == NetworkErrorText
    ensures failure.NotSent? ==> r == OrElse(failure.message, UnexpectedText)
  {
    match failure
    case Answered(status, message, statusText) =>
      if status == 400 then OrElse(message, BadRequestText)
      else if status == 401 then UnauthorizedText
      else if status == 403 then ForbiddenText
      else if status == 404 then NotFoundText
      else if status == 409 then OrElse(message, ConflictText)
      else if status == 422 then OrElse(message, ValidationText)
      else if status == 500 then ServerErrorText
      else OrElse(message, "Error " + Decimal(status) + ": " + statusText)
    case NoAnswer => NetworkErrorText
    case NotSent(message) => OrElse(message, UnexpectedText)
  }

  /**
   * For 401, 403, 404 and 500 the server's body is never shown: two
   * answers with the same status give the same message.
   */
  lemma FixedStatusesIgnoreBody(status: nat, message1: Option<string>, message2: Option<string>, text1: string, text2: string)
    requires status in {401, 403, 404, 500}
    ensures HandleApiError(Answered(status, message1, text1)) == HandleApiError(Answered(status, message2, text2))
  {
  }

  /** For any status, a non-empty server message is shown as-is unless the status has a fixed text. */
  lemma ServerMessageWins(status: nat, message: string, statusText: string)
    requires message != "" && status !in {401, 403, 404, 500}
    ensures HandleApiError(Answered(status, Some(message), statusText)) == message
  {
  }

  /** The fallback for an unlisted status names the status number, which reads back unchanged. */
  lemma FallbackNamesStatus(status: nat, statusText: string)
    requires status !in {400, 401, 403, 404, 409, 422, 500}
    ensures var r := HandleApiError(Answered(status, None, statusText));
      exists digits :: r == "Error " + digits + ": " + statusText
        && (forall i :: 0 <= i < |digits| ==> '0' <= digits[i] <= '9')
        && DecimalValue(digits) == status
  {
    DecimalRoundTrip(status);
    var digits := Decimal(status);
    assert HandleApiError(Answered(status, None, statusText)) == "Error " + digits + ": " + statusText;
  }

  /** The body of `changePassword`: only the new password; the old one is dropped. */
  function ChangePasswordBody(oldPassword: string, newPassword: string): (request: UpdateUserRequest)
    ensures request.password == Some(newPassword)
    ensures request.oldPassword == None && request.username == None && request.email == None
    ensures request.roleId == 0
  {
    PasswordOnly(Some(newPassword))
  }

  /**
   * End to end, the current password typed on the profile page has no
   * effect: whatever it is, the server answers the same and stores the
   * same table.
   */
  lemma OldPasswordNeverChecked(
    users: UserTable, roles: RoleTable, caller: Caller, id: int,
    typed1: string, typed2: string, newPassword: string, now: int)
    ensures Update(users, roles, caller, id, ChangePasswordBody(typed1, newPassword), now)
         == Update(users, roles, caller, id, ChangePasswordBody(typed2, newPassword), now)
  {
  }

  /**
   * A user changing their own password with a wrong current password still
   * succeeds: the new password is the only one that verifies afterwards.
   */
  lemma WrongCurrentPasswordAccepted(users: UserTable, roles: RoleTable, caller: Caller, typed: string, newPassword: string, now: int)
    requires caller.id in users && newPassword != ""
    requires !VerifyPassword(typed, users[caller.id].passwordHash)
    ensures var r := Update(users, roles, caller, caller.id, ChangePasswordBody(typed, newPassword), now);
      && r.outcome == NoContent
      && forall attempt :: VerifyPassword(attempt, r.users[caller.id].passwordHash) <==> attempt == newPassword
  {
    if IsSystemAccount(caller.id) {
      SystemAccountRules(users, roles, caller, caller.id, ChangePasswordBody(typed, newPassword), now);
    } else {
      PasswordOnlyAlwaysAccepted(users, roles, caller, caller.id, newPassword, now);
      PasswordRules(users, roles, caller, caller.id, ChangePasswordBody(typed, newPassword), now);
    }
  }
}
