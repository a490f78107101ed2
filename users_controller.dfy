/**
 * The users controller's mutating endpoints as the source writes them:
 * the tracked record is changed field by field and the table is written
 * once, at the end. Each method is proved equal to its rule in UserPolicy.
 */
module UsersController {
  import opened Wrappers
  import opened Directory
  import opened UserPolicy

  class UsersController {
    const context: DbContext

    constructor (context: DbContext)
      ensures this.context == context
    {
      this.context := context;
    }

    /** PUT /users/{id}. `now` is the clock reading taken for UpdatedAt. */
    method UpdateUser(caller: Caller, id: int, request: UpdateUserRequest, now: int) returns (r: Outcome)
      modifies context
      ensures context.roles == old(context.roles)
      ensures Committed(r, context.users) == Update(old(context.users), context.roles, caller, id, request, now)
    {
      if !IsAdmin(caller) && caller.id != id {
        return Forbid;
      }
      if id !in context.users {
        return NotFound;
      }
      var user := context.users[id];

      if id == 1 || id == 2 {
        if caller.id == id && Filled(request.password) {
          user := user.(passwordHash := HashPassword(request.password.value));
          user := user.(updatedAt := now);
          context.users := context.users[id := user];
          return NoContent;
        } else {
          return BadRequest(CannotModifySystemUsers);
        }
      }

      if Filled(request.username) && request.username.value != user.username {
        if UsernameTaken(context.users, request.username.value, id) {
          return BadRequest(UsernameAlreadyExists);
        }
        user := user.(username := request.username.value);
      }

      if Filled(request.email) && request.email.value != user.email {
        if EmailTaken(context.users, request.email.value, id) {
          return BadRequest(EmailAlreadyExists);
        }
        user := user.(email := request.email.value);
      }

      if Filled(request.password) {
        if Filled(request.oldPassword) {
          if !VerifyPassword(request.oldPassword.value, user.passwordHash) {
            return BadRequest(IncorrectCurrentPassword);
          }
        } else if caller.id != id && !IsAdmin(caller) {
          // "Old password is required": the gate above has already refused such a caller.
          assert false;
        }
        user := user.(passwordHash := HashPassword(request.password.value));
      }

      if request.roleId != 0 && IsAdmin(caller) {
        if request.roleId !in context.roles {
          return BadRequest(InvalidRoleSpecified);
        }
        user := user.(roleId := request.roleId);
      }

      user := user.(updatedAt := now);
      if !ColumnsAcceptChange(context.users[id], user) {
        // SaveChangesAsync: the database refuses a value longer than its column, and the catch answers 500.
        return InternalError;
      }
      context.users := context.users[id := user];
      return NoContent;
    }

    /** DELETE /users/{id}, reachable by administrators only. */
    method DeleteUser(caller: Caller, id: int) returns (r: Outcome)
      requires IsAdmin(caller)
      modifies context
      ensures context.roles == old(context.roles)
      ensures Committed(r, context.users) == Delete(old(context.users), caller, id)
    {
      if caller.id == id {
        return BadRequest(CannotDeleteOwnAccount);
      }
      if id !in context.users {
        return NotFound;
      }
      if id == 1 || id == 2 {
        return BadRequest(CannotDeleteSystemUsers);
      }
      context.users := context.users - {id};
      return NoContent;
    }
  }
}
