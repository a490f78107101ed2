/**
 * The client's authentication state and the reducer that moves it from
 * one state to the next. Each action replaces some fields and keeps the
 * rest; dispatching a sequence of actions is a left fold.
 */
module AuthReducer {
  import opened Wrappers

  /** The signed-in user as the client keeps it. */
  datatype SessionUser = SessionUser(id: int, username: string, email: string, role: string)

  datatype AuthState = AuthState(
    user: Option<SessionUser>,
    token: Option<string>,
    isAuthenticated: bool,
    isLoading: bool,
    error: Option<string>)

  datatype Action =
    | AuthStart
    | AuthSuccess(user: SessionUser, token: string)
    | AuthError(message: string)
    | Logout
    | ClearError
    | AuthStop
    | SetUser(newUser: Option<SessionUser>)
    | Unknown(kind: string)

  /** JavaScript's `!!value` on a stored string: null and "" are both false. */
  predicate Truthy(value: Option<string>) {
    value.Some? && value.value != ""
  }

  /** The state at start-up, from the token found in local storage (if any). */
  function InitialState(storedToken: Option<string>): (s: AuthState)
    ensures s.token == storedToken && s.user == None
    ensures s.isAuthenticated <==> storedToken.Some? && storedToken.value != ""
    ensures !s.isLoading && s.error == None
  {
    AuthState(None, storedToken, Truthy(storedToken), false, None)
  }

  /** The session fields (user, token, signed-in flag) are the same in both states. */
  predicate SameSession(s: AuthState, r: AuthState) {
    r.user == s.user && r.token == s.token && r.isAuthenticated == s.isAuthenticated
  }

  /** One transition: which fields the action sets and which it keeps. */
  function Reduce(s: AuthState, action: Action): (r: AuthState)
    ensures action.AuthStart? ==>
      SameSession(s, r) && r.isLoading && r.error == None
    ensures action.AuthSuccess? ==>
      && r.isAuthenticated && r.user == Some(action.user) && r.token == Some(action.token)
      && !r.isLoading && r.error == None
    ensures action.AuthError? ==>
      SameSession(s, r) && !r.isLoading && r.error == Some(action.message)
    ensures action.Logout? ==>
      && r.user == None && r.token == None && !r.isAuthenticated
      && r.isLoading == s.isLoading && r.error == None
    ensures action.ClearError? ==>
      SameSession(s, r) && r.isLoading == s.isLoading && r.error == None
    ensures action.AuthStop? ==>
      SameSession(s, r) && !r.isLoading && r.error == None
    ensures action.SetUser? ==>
      && r.user == action.newUser && r.token == s.token && r.isAuthenticated == s.isAuthenticated
      && r.isLoading == s.isLoading && r.error == s.error
    ensures action.Unknown? ==> r == s
  {
    match action
    case AuthStart => s.(isLoading := true, error := None)
    case AuthSuccess(user, token) =>
      s.(isLoading := false, isAuthenticated := true, user := Some(user), token := Some(token), error := None)
    case AuthError(message) => s.(isLoading := false, error := Some(message))
    case Logout => s.(user := None, token := None, isAuthenticated := false, error := None)
    case ClearError => s.(error := None)
    case AuthStop => s.(isLoading := false, error := None)
    case SetUser(newUser) => s.(user := newUser)
    case Unknown(_) => s
  }

  /** Dispatching each action in turn, first to last. */
  function ReduceAll(s: AuthState, actions: seq<Action>): (r: AuthState)
    decreases |actions|
  {
    if actions == [] then s else ReduceAll(Reduce(s, actions[0]), actions[1..])
  }

  /** Dispatching the same action twice in a row is the same as dispatching it once. */
  lemma ReduceIdempotent(s: AuthState, action: Action)
    ensures Reduce(Reduce(s, action), action) == Reduce(s, action)
  {
  }

  /** Whenever the client believes it is signed in, it holds a token. */
  predicate Coherent(s: AuthState) {
    s.isAuthenticated ==> s.token.Some?
  }

  lemma InitialStateCoherent(storedToken: Option<string>)
    ensures Coherent(InitialState(storedToken))
  {
  }

  lemma ReduceKeepsCoherent(s: AuthState, action: Action)
    requires Coherent(s)
    ensures Coherent(Reduce(s, action))
  {
  }

  /** Every state reachable from start-up holds a token while it is signed in. */
  lemma {:induction false} ReachableStatesCoherent(s: AuthState, actions: seq<Action>)
    requires Coherent(s)
    ensures Coherent(ReduceAll(s, actions))
    decreases |actions|
  {
    if actions != [] {
      ReduceKeepsCoherent(s, actions[0]);
      ReachableStatesCoherent(Reduce(s, actions[0]), actions[1..]);
    }
  }

  /** Only AUTH_SUCCESS signs the client in. */
  lemma {:induction false} OnlySuccessSignsIn(s: AuthState, actions: seq<Action>)
    requires !s.isAuthenticated
    requires forall i :: 0 <= i < |actions| ==> !actions[i].AuthSuccess?
    ensures !ReduceAll(s, actions).isAuthenticated
    decreases |actions|
  {
    if actions != [] {
      OnlySuccessSignsIn(Reduce(s, actions[0]), actions[1..]);
    }
  }

  /** Without AUTH_SUCCESS, a client without a token never regains one. */
  lemma {:induction false} NoTokenWithoutSuccess(s: AuthState, actions: seq<Action>)
    requires s.token == None
    requires forall i :: 0 <= i < |actions| ==> !actions[i].AuthSuccess?
    ensures ReduceAll(s, actions).token == None
    decreases |actions|
  {
    if actions != [] {
      NoTokenWithoutSuccess(Reduce(s, actions[0]), actions[1..]);
    }
  }

  /** After LOGOUT, the client stays signed out and without a token until the next AUTH_SUCCESS. */
  lemma SignedOutAfterLogout(s: AuthState, actions: seq<Action>)
    requires forall i :: 0 <= i < |actions| ==> !actions[i].AuthSuccess?
    ensures var r := ReduceAll(s, [Logout] + actions);
      !r.isAuthenticated && r.token == None
  {
    var t := Reduce(s, Logout);
    assert ([Logout] + actions)[1..] == actions;
    OnlySuccessSignsIn(t, actions);
    NoTokenWithoutSuccess(t, actions);
  }
}
