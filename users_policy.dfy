/**
 * The rules of the users endpoints that change the directory: who may
 * update which record and how, and who may delete which record. `Update`
 * and `Delete` state the decision for a whole request; the controller's
 * step-by-step methods (module UsersController) are proved equal to them.
 */
module UserPolicy {
  import opened Wrappers
  import opened Text
  import opened Directory

  /**
   * The authenticated caller: the NameIdentifier claim read as an int (0
   * when the claim is missing) and the Role claim.
   */
  datatype Caller = Caller(id: int, role: Option<string>)

  predicate IsAdmin(caller: Caller) {
    caller.role == Some("Admin")
  }

  /** The admin-or-self gate of GetUser and UpdateUser. */
  predicate MayAccess(caller: Caller, id: int) {
    IsAdmin(caller) || caller.id == id
  }

  /** C#'s `!string.IsNullOrEmpty(s)`. */
  predicate Filled(s: Option<string>) {
    s.Some? && s.value != ""
  }

  /** The body of PUT /users/{id}; a missing RoleId binds to 0. */
  datatype UpdateUserRequest = UpdateUserRequest(
    username: Option<string>,
    email: Option<string>,
    password: Option<string>,
    oldPassword: Option<string>,
    roleId: int)

  /**
   * What an endpoint that changes the directory answers. `InternalError`
   * is the 500 "Internal server error" of the handler's catch.
   */
  datatype Outcome = NoContent | Forbid | NotFound | BadRequest(message: string) | InternalError

  const CannotModifySystemUsers: string := "Cannot modify default system users"
  const UsernameAlreadyExists: string := "Username already exists"
  const EmailAlreadyExists: string := "Email already exists"
  const IncorrectCurrentPassword: string := "Current password is incorrect"
  const OldPasswordRequired: string := "Old password is required to change password"
  const InvalidRoleSpecified: string := "Invalid role specified"
  const CannotDeleteOwnAccount: string := "Cannot delete your own account"
  const CannotDeleteSystemUsers: string := "Cannot delete default system users"

  /** An answer together with the user table it leaves behind. */
  datatype Committed = Committed(outcome: Outcome, users: UserTable)

  /** Some user other than `id` already has this username (exact comparison). */
  predicate UsernameTaken(users: UserTable, name: string, id: int) {
    exists k :: k in users && k != id && users[k].username == name
  }

  /** Some user other than `id` already has this e-mail address (exact comparison). */
  predicate EmailTaken(users: UserTable, email: string, id: int) {
    exists k :: k in users && k != id && users[k].email == email
  }

  /** A role change is attempted only by an administrator with a non-zero RoleId. */
  predicate WantsRoleChange(caller: Caller, request: UpdateUserRequest) {
    request.roleId != 0 && IsAdmin(caller)
  }

  /**
   * The general (non-system) path's checks, in order: the message of the
   * first one that fails, or None when the request passes them all.
   */
  function Rejection(users: UserTable, roles: RoleTable, caller: Caller, id: int, request: UpdateUserRequest): Option<string>
    requires id in users
  {
    var u := users[id];
    if Filled(request.username) && request.username.value != u.username
      && UsernameTaken(users, request.username.value, id) then Some(UsernameAlreadyExists)
    else if Filled(request.email) && request.email.value != u.email
      && EmailTaken(users, request.email.value, id) then Some(EmailAlreadyExists)
    else if Filled(request.password) && Filled(request.oldPassword)
      && !VerifyPassword(request.oldPassword.value, u.passwordHash) then Some(IncorrectCurrentPassword)
    else if Filled(request.password) && !Filled(request.oldPassword)
      && caller.id != id && !IsAdmin(caller) then Some(OldPasswordRequired)
    else if WantsRoleChange(caller, request) && request.roleId !in roles then Some(InvalidRoleSpecified)
    else None
  }

  /** The record after a general update that passed every check, at clock reading `now`. */
  function Patched(u: User, caller: Caller, request: UpdateUserRequest, now: int): User {
    u.(
      username := if Filled(request.username) then request.username.value else u.username,
      email := if Filled(request.email) then request.email.value else u.email,
      passwordHash := if Filled(request.password) then HashPassword(request.password.value) else u.passwordHash,
      roleId := if WantsRoleChange(caller, request) then request.roleId else u.roleId,
      updatedAt := now)
  }

  /** PUT /users/{id}: the answer and the table afterwards. */
  function Update(users: UserTable, roles: RoleTable, caller: Caller, id: int, request: UpdateUserRequest, now: int): (r: Committed)
    ensures r.outcome != NoContent ==> r.users == users
    ensures r.outcome == Forbid <==> !MayAccess(caller, id)
    ensures r.outcome == NotFound <==> MayAccess(caller, id) && id !in users
    ensures r.outcome == NoContent ==> id in users && id in r.users && r.users == users[id := r.users[id]]
    ensures r.outcome == NoContent ==> r.users[id].updatedAt == now && r.users[id].createdAt == users[id].createdAt
    ensures r.outcome == NoContent && WithinColumnBounds(users[id]) ==> WithinColumnBounds(r.users[id])
  {
    if !MayAccess(caller, id) then Committed(Forbid, users)
    else if id !in users then Committed(NotFound, users)
    else if IsSystemAccount(id) then
      if caller.id == id && Filled(request.password) then
        Committed(NoContent, users[id := users[id].(passwordHash := HashPassword(request.password.value), updatedAt := now)])
      else
        Committed(BadRequest(CannotModifySystemUsers), users)
    else
      match Rejection(users, roles, caller, id, request)
      case Some(message) => Committed(BadRequest(message), users)
      case None =>
        var patched := Patched(users[id], caller, request, now);
        // The controller checks no length; the database refuses a value
        // longer than its column when the change is saved.
        if ColumnsAcceptChange(users[id], patched) then Committed(NoContent, users[id := patched])
        else Committed(InternalError, users)
  }

  /** A request that carries a new password and nothing else (RoleId left at 0). */
  function PasswordOnly(password: Option<string>): (request: UpdateUserRequest)
    ensures request.username.None? && request.email.None? && request.oldPassword.None? && request.roleId == 0
  {
    UpdateUserRequest(None, None, password, None, 0)
  }

  /**
   * A system account can be updated only by itself and only with a
   * non-empty password; then just the digest and updatedAt change. Every
   * other field of the request is ignored (the old password is not checked),
   * and every other request is refused with the store unchanged.
   */
  lemma SystemAccountRules(users: UserTable, roles: RoleTable, caller: Caller, id: int, request: UpdateUserRequest, now: int)
    requires IsSystemAccount(id) && id in users && MayAccess(caller, id)
    ensures var r := Update(users, roles, caller, id, request, now);
      && (r.outcome == NoContent <==> caller.id == id && Filled(request.password))
      && (r.outcome != NoContent ==> r.outcome == BadRequest(CannotModifySystemUsers) && r.users == users)
      && (r.outcome == NoContent ==>
            && SameIdentity(r.users[id], users[id])
            && r.users[id].passwordHash == HashPassword(request.password.value)
            && r.users[id].updatedAt == now)
    ensures Update(users, roles, caller, id, request, now) == Update(users, roles, caller, id, PasswordOnly(request.password), now)
  {
  }

  /** "Old password is required" is never answered: the admin-or-self gate has already let through only callers it would accept. */
  lemma OldPasswordRequiredUnreachable(users: UserTable, roles: RoleTable, caller: Caller, id: int, request: UpdateUserRequest, now: int)
    ensures Update(users, roles, caller, id, request, now).outcome != BadRequest(OldPasswordRequired)
  {
  }

  /**
   * Password rules on the general path: a supplied old password must verify
   * against the stored digest; the new digest verifies against the new
   * password and no other; without a new password the digest is kept.
   */
  lemma PasswordRules(users: UserTable, roles: RoleTable, caller: Caller, id: int, request: UpdateUserRequest, now: int)
    requires !IsSystemAccount(id)
    ensures var r := Update(users, roles, caller, id, request, now);
      r.outcome == NoContent ==>
        && (Filled(request.password) && Filled(request.oldPassword) ==> VerifyPassword(request.oldPassword.value, users[id].passwordHash))
        && (Filled(request.password) ==>
              forall attempt :: VerifyPassword(attempt, r.users[id].passwordHash) <==> attempt == request.password.value)
        && (!Filled(request.password) ==> r.users[id].passwordHash == users[id].passwordHash)
    ensures MayAccess(caller, id) && id in users
      && Filled(request.password) && Filled(request.oldPassword)
      && !VerifyPassword(request.oldPassword.value, users[id].passwordHash)
      && !(Filled(request.username) && request.username.value != users[id].username
           && UsernameTaken(users, request.username.value, id))
      && !(Filled(request.email) && request.email.value != users[id].email
           && EmailTaken(users, request.email.value, id))
      ==> Update(users, roles, caller, id, request, now) == Committed(BadRequest(IncorrectCurrentPassword), users)
  {
  }

  /**
   * Without an old password, any caller past the gate may set the password
   * of an ordinary account: a password-only request always succeeds.
   */
  lemma PasswordOnlyAlwaysAccepted(users: UserTable, roles: RoleTable, caller: Caller, id: int, password: string, now: int)
    requires MayAccess(caller, id) && id in users && !IsSystemAccount(id) && password != ""
    ensures var r := Update(users, roles, caller, id, PasswordOnly(Some(password)), now);
      && r.outcome == NoContent
      && VerifyPassword(password, r.users[id].passwordHash)
      && SameIdentity(r.users[id], users[id])
  {
  }

  /**
   * Role rules on the general path: the role changes only when an
   * administrator asks for an existing non-zero role; an administrator
   * asking for a missing role (and passing the earlier checks) is refused;
   * a non-administrator's RoleId is ignored.
   */
  lemma RoleRules(users: UserTable, roles: RoleTable, caller: Caller, id: int, request: UpdateUserRequest, now: int)
    requires id in users && !IsSystemAccount(id) && MayAccess(caller, id)
    ensures var r := Update(users, roles, caller, id, request, now);
      && (r.outcome == NoContent && r.users[id].roleId != users[id].roleId ==>
            IsAdmin(caller) && request.roleId != 0 && request.roleId in roles && r.users[id].roleId == request.roleId)
      && (r.outcome == NoContent && !IsAdmin(caller) ==> r.users[id].roleId == users[id].roleId)
      && (IsAdmin(caller) && request.roleId != 0 && request.roleId !in roles ==> r.outcome.BadRequest?)
      && ((IsAdmin(caller) && request.roleId != 0 && request.roleId !in roles
           && Rejection(users, roles, caller, id, request.(roleId := 0)).None?) ==> r.outcome == BadRequest(InvalidRoleSpecified))
      && (r.outcome == NoContent && IsAdmin(caller) && request.roleId != 0 ==> r.users[id].roleId == request.roleId)
  {
  }

  /**
   * Username and e-mail rules: a new value is taken only when no other
   * user holds it; the username is checked before the e-mail.
   */
  lemma IdentityRules(users: UserTable, roles: RoleTable, caller: Caller, id: int, request: UpdateUserRequest, now: int)
    requires id in users && !IsSystemAccount(id) && MayAccess(caller, id)
    ensures var r := Update(users, roles, caller, id, request, now);
      && (r.outcome == NoContent ==>
            && r.users[id].username == (if Filled(request.username) then request.username.value else users[id].username)
            && r.users[id].email == (if Filled(request.email) then request.email.value else users[id].email))
      && ((Filled(request.username) && request.username.value != users[id].username
           && UsernameTaken(users, request.username.value, id)) ==> r.outcome == BadRequest(UsernameAlreadyExists))
      && ((!(Filled(request.username) && request.username.value != users[id].username
             && UsernameTaken(users, request.username.value, id))
           && Filled(request.email) && request.email.value != users[id].email
           && EmailTaken(users, request.email.value, id)) ==> r.outcome == BadRequest(EmailAlreadyExists))
  {
  }

  /** Updates keep usernames and e-mails unique and roles resolvable. */
  lemma {:induction false} UpdateKeepsConsistent(users: UserTable, roles: RoleTable, caller: Caller, id: int, request: UpdateUserRequest, now: int)
    requires Consistent(users, roles)
    ensures Consistent(Update(users, roles, caller, id, request, now).users, roles)
  {
    var r := Update(users, roles, caller, id, request, now);
    if r.outcome == NoContent {
      var n := r.users;
      forall a, b | a in n && b in n && a != b
        ensures n[a].username != n[b].username && n[a].email != n[b].email
      {
        if a != id && b != id {
        } else {
          var other := if a == id then b else a;
          assert n[other] == users[other];
          if !IsSystemAccount(id) {
            assert Rejection(users, roles, caller, id, request).None?;
            if Filled(request.username) && request.username.value != users[id].username {
              assert !UsernameTaken(users, request.username.value, id);
            }
            if Filled(request.email) && request.email.value != users[id].email {
              assert !EmailTaken(users, request.email.value, id);
            }
          }
        }
      }
      assert RolesResolve(n, roles) by {
        if !IsSystemAccount(id) {
          assert Rejection(users, roles, caller, id, request).None?;
        }
      }
    }
  }

  /** Updates never touch the identity of the system accounts. */
  lemma UpdateKeepsSystemAccounts(users: UserTable, roles: RoleTable, caller: Caller, id: int, request: UpdateUserRequest, now: int, seededAt: int)
    requires SystemAccountsIntact(users, seededAt)
    ensures SystemAccountsIntact(Update(users, roles, caller, id, request, now).users, seededAt)
  {
    var n := Update(users, roles, caller, id, request, now).users;
    if IsSystemAccount(id) && MayAccess(caller, id) {
      SystemAccountRules(users, roles, caller, id, request, now);
    }
    assert SameIdentity(n[1], users[1]) && SameIdentity(n[2], users[2]);
    IdentityKept(users, n, seededAt);
  }

  /** A table whose system records keep their identity keeps the system accounts intact. */
  lemma IdentityKept(users: UserTable, n: UserTable, seededAt: int)
    requires SystemAccountsIntact(users, seededAt)
    requires 1 in n && 2 in n && SameIdentity(n[1], users[1]) && SameIdentity(n[2], users[2])
    ensures SystemAccountsIntact(n, seededAt)
  {
  }

  /** A general update that succeeds leaves every record within the column bounds if every record was. */
  lemma UpdateKeepsColumnBounds(users: UserTable, roles: RoleTable, caller: Caller, id: int, request: UpdateUserRequest, now: int)
    requires forall k :: k in users ==> WithinColumnBounds(users[k])
    ensures var n := Update(users, roles, caller, id, request, now).users;
      forall k :: k in n ==> WithinColumnBounds(n[k])
  {
  }

  /**
   * The controller checks uniqueness but not length: a rename to a free
   * username passes every check of the handler, whatever its length, and
   * only the database's column bound refuses one past 50 code units,
   * answered as a 500 with the table unchanged.
   */
  lemma OverlongRenameReachesDatabase(users: UserTable, roles: RoleTable, caller: Caller, id: int, name: string, now: int)
    requires id in users && !IsSystemAccount(id) && MayAccess(caller, id)
    requires name != users[id].username && !UsernameTaken(users, name, id)
    ensures var request := UpdateUserRequest(Some(name), None, None, None, 0);
      var r := Update(users, roles, caller, id, request, now);
      && Rejection(users, roles, caller, id, request) == None
      && (r.outcome == InternalError <==> Utf16Length(name) > MaxUsernameLength)
      && (r.outcome == InternalError ==> r.users == users)
  {
  }

  /**
   * The save on the general path: once every check of the handler has
   * passed, the answer is the 500 of the catch exactly when a changed
   * username or a changed e-mail is longer than its column.
   */
  lemma OverlongColumnsRefusedAtSave(users: UserTable, roles: RoleTable, caller: Caller, id: int, request: UpdateUserRequest, now: int)
    requires id in users && !IsSystemAccount(id) && MayAccess(caller, id)
    requires Rejection(users, roles, caller, id, request).None?
    ensures var r := Update(users, roles, caller, id, request, now);
      && (r.outcome == InternalError <==>
            (Filled(request.username) && request.username.value != users[id].username
             && Utf16Length(request.username.value) > MaxUsernameLength)
            || (Filled(request.email) && request.email.value != users[id].email
                && Utf16Length(request.email.value) > MaxEmailLength))
      && (r.outcome != InternalError ==> r.outcome == NoContent)
  {
  }

  /** DELETE /users/{id}; the Admin-only route restriction is the precondition. */
  function Delete(users: UserTable, caller: Caller, id: int): (r: Committed)
    requires IsAdmin(caller)
    ensures r.outcome == NoContent <==> caller.id != id && id in users && !IsSystemAccount(id)
    ensures r.outcome == NoContent ==> r.users == users - {id}
    ensures r.outcome != NoContent ==> r.users == users
  {
    if caller.id == id then Committed(BadRequest(CannotDeleteOwnAccount), users)
    else if id !in users then Committed(NotFound, users)
    else if IsSystemAccount(id) then Committed(BadRequest(CannotDeleteSystemUsers), users)
    else Committed(NoContent, users - {id})
  }

  /**
   * The guards come in order: self-delete before the lookup, the lookup
   * before the system-account check; a success removes that one user only.
   */
  lemma DeleteGuardOrder(users: UserTable, caller: Caller, id: int)
    requires IsAdmin(caller)
    ensures var r := Delete(users, caller, id);
      && (caller.id == id ==> r.outcome == BadRequest(CannotDeleteOwnAccount))
      && (caller.id != id && id !in users ==> r.outcome == NotFound)
      && (caller.id != id && id in users && IsSystemAccount(id) ==> r.outcome == BadRequest(CannotDeleteSystemUsers))
      && (forall k :: k in users && k != id ==> k in r.users && r.users[k] == users[k])
  {
  }

  /** Deletes keep the directory consistent and never remove or alter a system account. */
  lemma DeleteKeepsInvariants(users: UserTable, roles: RoleTable, caller: Caller, id: int, seededAt: int)
    requires IsAdmin(caller)
    ensures Consistent(users, roles) ==> Consistent(Delete(users, caller, id).users, roles)
    ensures SystemAccountsIntact(users, seededAt) ==> SystemAccountsIntact(Delete(users, caller, id).users, seededAt)
    ensures Delete(users, caller, id).outcome == NoContent ==> caller.id in users ==> caller.id in Delete(users, caller, id).users
  {
  }

  /** A request to the directory: an update or a delete. */
  datatype Command =
    | UpdateCommand(caller: Caller, id: int, request: UpdateUserRequest, now: int)
    | DeleteCommand(caller: Caller, id: int)

  /** The table after a run of requests; a delete by a non-administrator is refused by the route. */
  function Run(users: UserTable, roles: RoleTable, commands: seq<Command>): UserTable
    decreases |commands|
  {
    if commands == [] then users
    else
      var c := commands[0];
      var next := match c
        case UpdateCommand(caller, id, request, now) => Update(users, roles, caller, id, request, now).users
        case DeleteCommand(caller, id) => if IsAdmin(caller) then Delete(users, caller, id).users else users;
      Run(next, roles, commands[1..])
  }

  /** Any run of updates and deletes from a consistent directory keeps it consistent and keeps both system accounts as seeded. */
  lemma {:induction false} RunKeepsInvariants(users: UserTable, roles: RoleTable, commands: seq<Command>, seededAt: int)
    requires Consistent(users, roles) && SystemAccountsIntact(users, seededAt)
    ensures Consistent(Run(users, roles, commands), roles)
    ensures SystemAccountsIntact(Run(users, roles, commands), seededAt)
    decreases |commands|
  {
    if commands != [] {
      var c := commands[0];
      match c
      case UpdateCommand(caller, id, request, now) =>
        UpdateKeepsConsistent(users, roles, caller, id, request, now);
        UpdateKeepsSystemAccounts(users, roles, caller, id, request, now, seededAt);
        RunKeepsInvariants(Update(users, roles, caller, id, request, now).users, roles, commands[1..], seededAt);
      case DeleteCommand(caller, id) =>
        if IsAdmin(caller) {
          DeleteKeepsInvariants(users, roles, caller, id, seededAt);
          RunKeepsInvariants(Delete(users, caller, id).users, roles, commands[1..], seededAt);
        } else {
          RunKeepsInvariants(users, roles, commands[1..], seededAt);
        }
    }
  }

  /** Any run of updates and deletes from a valid directory leaves it valid: the database never holds an over-long value. */
  lemma {:induction false} RunKeepsValid(users: UserTable, roles: RoleTable, commands: seq<Command>)
    requires Valid(users, roles)
    ensures Valid(Run(users, roles, commands), roles)
    decreases |commands|
  {
    if commands != [] {
      var c := commands[0];
      match c
      case UpdateCommand(caller, id, request, now) =>
        UpdateKeepsConsistent(users, roles, caller, id, request, now);
        UpdateKeepsColumnBounds(users, roles, caller, id, request, now);
        RunKeepsValid(Update(users, roles, caller, id, request, now).users, roles, commands[1..]);
      case DeleteCommand(caller, id) =>
        if IsAdmin(caller) {
          DeleteKeepsInvariants(users, roles, caller, id, 0);
          RunKeepsValid(Delete(users, caller, id).users, roles, commands[1..]);
        } else {
          RunKeepsValid(users, roles, commands[1..]);
        }
    }
  }
}
