/**
 * The authentication endpoints: login, registration and token
 * verification. The authentication service (credential check, account
 * creation, JWT issuing) is not part of this model: its answers are
 * passed in as functions, and the endpoints are stated over whatever
 * those functions answer.
 */
module AuthController {
  import opened Wrappers
  import opened Directory
  import opened UserPolicy
  import opened UserQueries

  /** A token is valid for 24 hours; times are seconds. */
  const TokenLifetime: int := 24 * 60 * 60

  const InvalidCredentials: string := "Invalid username or password"
  const RegistrationFailed: string := "Registration failed"
  const TokenIsValid: string := "Token is valid"

  /** A user as the authentication service hands it back, its role loaded. */
  datatype ServiceUser = ServiceUser(id: int, username: string, email: string, role: RoleDto)

  /** The body of a successful login or registration. */
  datatype AuthResponse = AuthResponse(
    id: int,
    username: string,
    email: string,
    role: RoleDto,
    token: string,
    expiresAt: int)

  /** The response body: the user's identity and role, a fresh token and its expiry. */
  function ResponseFor(user: ServiceUser, token: string, now: int): (r: AuthResponse)
    ensures r.id == user.id && r.username == user.username && r.email == user.email
    ensures r.role == user.role && r.token == token
    ensures r.expiresAt - now == TokenLifetime
  {
    AuthResponse(user.id, user.username, user.email, user.role, token, now + TokenLifetime)
  }

  // ------------------------------------------------------------------ login

  datatype LoginResult = LoggedIn(response: AuthResponse) | Unauthorized(message: string)

  /**
   * POST /auth/login. `authenticate` is the service's credential check and
   * `issueToken` its JWT generator.
   */
  function Login(
    username: string, password: string,
    authenticate: (string, string) -> Option<ServiceUser>,
    issueToken: ServiceUser -> string,
    now: int): (r: LoginResult)
    ensures r.Unauthorized? <==> authenticate(username, password).None?
    ensures r.Unauthorized? ==> r.message == InvalidCredentials
    ensures r.LoggedIn? ==> var user := authenticate(username, password).value;
      && r.response.id == user.id && r.response.username == user.username
      && r.response.email == user.email && r.response.role == user.role
      && r.response.token == issueToken(user)
      && r.response.expiresAt == now + TokenLifetime
  {
    match authenticate(username, password)
    case None => Unauthorized(InvalidCredentials)
    case Some(user) => LoggedIn(ResponseFor(user, issueToken(user), now))
  }

  /**
   * Every rejected login looks the same: an unknown username and a wrong
   * password cannot be told apart from the answer.
   */
  lemma LoginFailureIsUniform(
    username1: string, password1: string, username2: string, password2: string,
    authenticate: (string, string) -> Option<ServiceUser>,
    issueToken: ServiceUser -> string,
    now1: int, now2: int)
    requires authenticate(username1, password1).None? && authenticate(username2, password2).None?
    ensures Login(username1, password1, authenticate, issueToken, now1)
         == Login(username2, password2, authenticate, issueToken, now2)
  {
  }

  // ----------------------------------------------------------- registration

  /** The request as the service receives it. */
  datatype Registration = Registration(username: string, email: string, password: string, roleId: int)

  /** What the service's RegisterAsync answers: a user, null, or an InvalidOperationException. */
  datatype ServiceReply = Created(user: ServiceUser) | NoUser | InvalidOperation(message: string)

  datatype RegisterResult = Registered(response: AuthResponse) | RegisterRejected(message: string)

  /** A RoleId of 0 (none given) becomes the User role; any other id is passed on, Admin included. */
  function WithDefaultRole(roleId: int): (r: int)
    ensures r != 0
    ensures roleId == 0 ==> r == UserRoleId
    ensures roleId != 0 ==> r == roleId
  {
    if roleId == 0 then UserRoleId else roleId
  }

  /** How the controller maps the service's answer to its own. */
  function RegisterResponse(reply: ServiceReply, issueToken: ServiceUser -> string, now: int): (r: RegisterResult)
    ensures r.Registered? <==> reply.Created?
    ensures reply.NoUser? ==> r == RegisterRejected(RegistrationFailed)
    ensures reply.InvalidOperation? ==> r == RegisterRejected(reply.message)
    ensures reply.Created? ==>
      && r.response.id == reply.user.id && r.response.username == reply.user.username
      && r.response.email == reply.user.email && r.response.role == reply.user.role
      && r.response.token == issueToken(reply.user)
      && r.response.expiresAt == now + TokenLifetime
  {
    match reply
    case NoUser => RegisterRejected(RegistrationFailed)
    case InvalidOperation(message) => RegisterRejected(message)
    case Created(user) => Registered(ResponseFor(user, issueToken(user), now))
  }

  /** The register request body; the controller overwrites its RoleId in place. */
  class RegisterRequest {
    var username: string
    var email: string
    var password: string
    var roleId: int

    constructor (username: string, email: string, password: string, roleId: int)
      ensures this.username == username && this.email == email
      ensures this.password == password && this.roleId == roleId
    {
      this.username := username;
      this.email := email;
      this.password := password;
      this.roleId := roleId;
    }

    function Snapshot(): (r: Registration)
      reads this
      ensures r.username == username && r.email == email && r.password == password && r.roleId == roleId
    {
      Registration(username, email, password, roleId)
    }
  }

  class AuthController {
    constructor ()
    {
    }

    /**
     * POST /auth/register: default the role on the request itself, hand
     * the request to the service, and map its answer.
     */
    method Register(request: RegisterRequest, register: Registration -> ServiceReply, issueToken: ServiceUser -> string, now: int)
      returns (r: RegisterResult)
      modifies request
      ensures request.username == old(request.username) && request.email == old(request.email)
      ensures request.password == old(request.password)
      ensures request.roleId == WithDefaultRole(old(request.roleId))
      ensures r == RegisterResponse(register(request.Snapshot()), issueToken, now)
    {
      if request.roleId == 0 {
        request.roleId := UserRoleId;
      }
      var reply := register(request.Snapshot());
      match reply {
        case NoUser =>
          r := RegisterRejected(RegistrationFailed);
        case InvalidOperation(message) =>
          r := RegisterRejected(message);
        case Created(user) =>
          var token := issueToken(user);
          r := Registered(AuthResponse(user.id, user.username, user.email, user.role, token, now + TokenLifetime));
      }
    }
  }

  // ---------------------------------------------------------- verification

  /** The claims the JWT middleware found on the request, each possibly absent. */
  datatype Claims = Claims(nameIdentifier: Option<string>, name: Option<string>, role: Option<string>)

  datatype VerifyResult =
    | TokenValid(message: string, userId: string, username: Option<string>, role: Option<string>)
    | Unauthenticated

  /** GET /auth/verify: valid iff the user-id claim is present and non-empty; the claims are echoed. */
  function VerifyToken(claims: Claims): (r: VerifyResult)
    ensures r.Unauthenticated? <==> !Filled(claims.nameIdentifier)
    ensures r.TokenValid? ==>
      && r.message == TokenIsValid
      && Some(r.userId) == claims.nameIdentifier
      && r.username == claims.name && r.role == claims.role
  {
    if !Filled(claims.nameIdentifier) then Unauthenticated
    else TokenValid(TokenIsValid, claims.nameIdentifier.value, claims.name, claims.role)
  }
}
