/**
 * The administrator's user list page: the add-user and edit-user form
 * validators, and the search box that filters the listed users.
 */
module UserList {
  import opened Wrappers
  import opened Text
  import opened Directory
  import opened UserQueries
  import opened Forms

  // ------------------------------------------------------------ validators

  /** The add-user form, or the user being edited (whose password is not edited). */
  datatype UserDraft = UserDraft(username: string, email: string, password: string, role: string)

  /** The role is required (`!role`). */
  function RoleIssue(role: string): (r: Option<Issue>)
    ensures r.Some? <==> role == ""
    ensures r.Some? ==> r.value == Required
  {
    if role == "" then Some(Required) else None
  }

  /** The role check as the validators write it: set the error when no role is chosen. */
  lemma RoleCheckStep(before: Errors, after: Errors, role: string)
    requires role == "" ==> after == before[Field.Role := Required]
    requires role != "" ==> after == before
    ensures after == With(before, Field.Role, RoleIssue(role))
  {
  }

  /** validateAddUser: each field with the first rule it breaks. */
  function AddUserErrors(draft: UserDraft): Errors {
    var errors := With(map[], Username, TextIssue(draft.username, true, 3, Some(50)));
    var errors := With(errors, Email, EmailIssue(draft.email, true, Some(100)));
    var errors := With(errors, Password, TextIssue(draft.password, true, 6, None));
    With(errors, Field.Role, RoleIssue(draft.role))
  }

  /** validateEditUser: the same rules for username, e-mail and role; no password rule. */
  function EditUserErrors(draft: UserDraft): Errors {
    var errors := With(map[], Username, TextIssue(draft.username, true, 3, Some(50)));
    var errors := With(errors, Email, EmailIssue(draft.email, true, Some(100)));
    With(errors, Field.Role, RoleIssue(draft.role))
  }

  /**
   * The add-user form is accepted exactly when the username is not blank
   * and has 3 to 50 characters, the e-mail has the e-mail shape and at
   * most 100 characters, the password is not blank and has at least 6
   * characters, and a role is chosen.
   */
  lemma AddUserAcceptedIff(draft: UserDraft)
    ensures AddUserErrors(draft) == map[] <==>
      && !AllSpace(JavaScript, draft.username) && 3 <= Utf16Length(draft.username) <= 50
      && MatchesEmailPattern(draft.email) && Utf16Length(draft.email) <= 100
      && !AllSpace(JavaScript, draft.password) && Utf16Length(draft.password) >= 6
      && draft.role != ""
  {
    MissingAfterTrimIffBlank(draft.username);
    MissingAfterTrimIffBlank(draft.password);
    if MatchesEmailPattern(draft.email) {
      EmailShapeIsNeverMissing(draft.email, true);
    }
    var e1 := With(map[], Username, TextIssue(draft.username, true, 3, Some(50)));
    var e2 := With(e1, Email, EmailIssue(draft.email, true, Some(100)));
    var e3 := With(e2, Password, TextIssue(draft.password, true, 6, None));
    WithEmpty(map[], Username, TextIssue(draft.username, true, 3, Some(50)));
    WithEmpty(e1, Email, EmailIssue(draft.email, true, Some(100)));
    WithEmpty(e2, Password, TextIssue(draft.password, true, 6, None));
    WithEmpty(e3, Field.Role, RoleIssue(draft.role));
  }

  /** The same chain of rules with the password rule left out is the full chain without the password's entry. */
  lemma {:induction false} ChainWithoutPassword(username: Option<Issue>, email: Option<Issue>, password: Option<Issue>, role: Option<Issue>)
    ensures With(With(With(map[], Username, username), Email, email), Field.Role, role)
         == With(With(With(With(map[], Username, username), Email, email), Password, password), Field.Role, role) - {Password}
  {
    var e1 := With(map[], Username, username);
    var e2 := With(e1, Email, email);
    var e3 := With(e2, Password, password);
    WithThenDrop(e3, Field.Role, role, Password);
    WithThenDrop(e2, Password, password, Password);
    WithThenDrop(e1, Email, email, Password);
    WithThenDrop(map[], Username, username, Password);
    assert e2 - {Password} == e2;
  }

  /** The edit form applies exactly the add form's rules other than the password rule. */
  lemma EditIsAddWithoutPassword(draft: UserDraft)
    ensures EditUserErrors(draft) == AddUserErrors(draft) - {Password}
  {
    ChainWithoutPassword(
      TextIssue(draft.username, true, 3, Some(50)), EmailIssue(draft.email, true, Some(100)),
      TextIssue(draft.password, true, 6, None), RoleIssue(draft.role));
  }

  /** An accepted draft fits the directory's column bounds for username and e-mail. */
  lemma AcceptedDraftFitsColumns(draft: UserDraft)
    requires AddUserErrors(draft) == map[]
    ensures draft.username != "" && Utf16Length(draft.username) <= MaxUsernameLength
    ensures draft.email != "" && Utf16Length(draft.email) <= MaxEmailLength
  {
    AddUserAcceptedIff(draft);
  }

  /**
   * Lengths are counted before trimming: a one-letter name padded with
   * two spaces passes the username rules.
   */
  lemma PaddedUsernameAccepted(email: string, password: string, role: string)
    ensures Username !in AddUserErrors(UserDraft("a  ", email, password, role))
  {
    var name := "a  ";
    assert !IsJsSpace(name[0]);
    MissingAfterTrimIffBlank(name);
    Utf16LengthOfBasicText(name);
    UsernameEntry(UserDraft(name, email, password, role));
  }

  /** Only the username rule puts an entry under Username. */
  lemma UsernameEntry(draft: UserDraft)
    ensures Username in AddUserErrors(draft) <==> TextIssue(draft.username, true, 3, Some(50)).Some?
  {
    UsernameKeyOfChain(
      TextIssue(draft.username, true, 3, Some(50)), EmailIssue(draft.email, true, Some(100)),
      TextIssue(draft.password, true, 6, None), RoleIssue(draft.role));
  }

  lemma UsernameKeyOfChain(username: Option<Issue>, email: Option<Issue>, password: Option<Issue>, role: Option<Issue>)
    ensures Username in With(With(With(With(map[], Username, username), Email, email), Password, password), Field.Role, role)
        <==> username.Some?
  {
  }

  // ------------------------------------------------------------------ filter

  /**
   * The role field of a listed user. The users endpoint sends the role as
   * an object (id, name, description); a role name as plain text is what
   * the filter's code expects.
   */
  datatype RoleField = NoRole | RoleText(name: string) | RoleRecord(role: RoleDto)

  datatype ListedUser = ListedUser(id: int, username: Option<string>, email: Option<string>, role: RoleField)

  /** `field?.toLowerCase().includes(term.toLowerCase())`: false when the field is missing. */
  predicate Includes(field: Option<string>, term: string) {
    field.Some? && Contains(ToLower(field.value), ToLower(term))
  }

  /**
   * The filter's test as written for one user: Some(keep), or None when
   * it throws. It reaches the role only when neither username nor e-mail
   * matches, and an object role has no `toLowerCase`.
   */
  function KeepAsWritten(u: ListedUser, term: string): (r: Option<bool>)
    ensures r.None? <==> !Includes(u.username, term) && !Includes(u.email, term) && u.role.RoleRecord?
  {
    if Includes(u.username, term) || Includes(u.email, term) then Some(true)
    else match u.role
      case NoRole => Some(false)
      case RoleText(name) => Some(Contains(ToLower(name), ToLower(term)))
      case RoleRecord(_) => None
  }

  /** `users.filter(...)` as written: None when the test throws for some user. */
  function FilteredUsersAsWritten(users: seq<ListedUser>, term: string): (r: Option<seq<ListedUser>>)
    ensures r.None? <==> exists i :: 0 <= i < |users| && KeepAsWritten(users[i], term).None?
  {
    if users == [] then Some([])
    else
      var rest := FilteredUsersAsWritten(users[1..], term);
      assert rest.None? <==> exists i :: 1 <= i < |users| && KeepAsWritten(users[i], term).None? by {
        if rest.None? {
          var j :| 0 <= j < |users[1..]| && KeepAsWritten(users[1..][j], term).None?;
          assert users[1..][j] == users[j + 1];
        }
        forall i | 1 <= i < |users| ensures users[i] == users[1..][i - 1] {}
      }
      match KeepAsWritten(users[0], term)
      case None => None
      case Some(keep) =>
        if rest.None? then None
        else Some(if keep then [users[0]] + rest.value else rest.value)
  }

  /** The name the filter should compare: the text role, or the role object's name. */
  function RoleNameOf(role: RoleField): Option<string> {
    match role
    case NoRole => None
    case RoleText(name) => Some(name)
    case RoleRecord(dto) => Some(dto.name)
  }

  /** The intended test: lower-cased username, e-mail or role name contains the lower-cased term. */
  predicate Matches(u: ListedUser, term: string) {
    Includes(u.username, term) || Includes(u.email, term) || Includes(RoleNameOf(u.role), term)
  }

  /** filteredUsers, with the role compared by name whatever its form. */
  function FilteredUsers(users: seq<ListedUser>, term: string): (r: seq<ListedUser>)
    ensures |r| <= |users|
    ensures forall u :: u in r <==> u in users && Matches(u, term)
  {
    if users == [] then []
    else
      var rest := FilteredUsers(users[1..], term);
      assert forall u :: u in users <==> u == users[0] || u in users[1..];
      if Matches(users[0], term) then [users[0]] + rest else rest
  }

  /** Filtering a concatenation filters each part: the kept users stay in their order. */
  lemma {:induction false} FilterDistributes(xs: seq<ListedUser>, ys: seq<ListedUser>, term: string)
    ensures FilteredUsers(xs + ys, term) == FilteredUsers(xs, term) + FilteredUsers(ys, term)
    decreases |xs|
  {
    if xs == [] {
      assert xs + ys == ys;
    } else {
      assert (xs + ys)[1..] == xs[1..] + ys;
      assert (xs + ys)[0] == xs[0];
      FilterDistributes(xs[1..], ys, term);
    }
  }

  /** A single user is kept exactly when it matches. */
  lemma FilterOne(u: ListedUser, term: string)
    ensures FilteredUsers([u], term) == if Matches(u, term) then [u] else []
  {
    assert [u][1..] == [];
  }

  /** Filtering never duplicates a user: the result is a sub-multiset of the list. */
  lemma {:induction false} FilterIsSubMultiset(users: seq<ListedUser>, term: string)
    ensures multiset(FilteredUsers(users, term)) <= multiset(users)
    decreases |users|
  {
    if users != [] {
      FilterIsSubMultiset(users[1..], term);
      assert users == [users[0]] + users[1..];
    }
  }

  /** An empty search keeps every user that has a username. */
  lemma {:induction false} EmptyTermKeepsAll(users: seq<ListedUser>)
    requires forall i :: 0 <= i < |users| ==> users[i].username.Some?
    ensures FilteredUsers(users, "") == users
    decreases |users|
  {
    if users != [] {
      ContainsEmpty(ToLower(users[0].username.value));
      assert ToLower("") == "";
      EmptyTermKeepsAll(users[1..]);
    }
  }

  /** Where no role is an object, the code as written computes the intended filter. */
  lemma {:induction false} AsWrittenAgreesOnTextRoles(users: seq<ListedUser>, term: string)
    requires forall i :: 0 <= i < |users| ==> !users[i].role.RoleRecord?
    ensures FilteredUsersAsWritten(users, term) == Some(FilteredUsers(users, term))
    decreases |users|
  {
    if users != [] {
      AsWrittenAgreesOnTextRoles(users[1..], term);
    }
  }

  /** Neither "alice" nor "alice@example.com" contains "user", in any case. */
  lemma AliceIsNotUser()
    ensures !Includes(Some("alice"), "user") && !Includes(Some("alice@example.com"), "user")
  {
    LowerFirstCharAbsent("alice", "user");
    LowerFirstCharAbsent("alice@example.com", "user");
  }

  /** The role name "User" contains "user" once lower-cased. */
  lemma UserRoleNameMatches()
    ensures Includes(Some("User"), "user")
  {
    LowerSameContains("User", "user");
  }

  /**
   * The list the users endpoint sends has role objects: searching for a
   * term that is not in a user's username or e-mail throws, and so does
   * searching by role name, which the intended filter answers.
   */
  lemma RoleObjectBreaksSearch()
    ensures var alice := ListedUser(5, Some("alice"), Some("alice@example.com"), RoleRecord(RoleDto(UserRoleId, "User", None)));
      && FilteredUsersAsWritten([alice], "user").None?
      && FilteredUsers([alice], "user") == [alice]
  {
    var alice := ListedUser(5, Some("alice"), Some("alice@example.com"), RoleRecord(RoleDto(UserRoleId, "User", None)));
    AliceIsNotUser();
    UserRoleNameMatches();
    assert KeepAsWritten(alice, "user").None?;
    assert Matches(alice, "user");
    FilterOne(alice, "user");
  }

  // ------------------------------------------------------------------- page

  /** The page's state that the validators and the filter work on. */
  class UserListPage {
    var users: seq<ListedUser>
    var searchTerm: string
    var newUser: UserDraft
    var selectedUser: Option<UserDraft>
    var formErrors: Errors

    constructor ()
      ensures users == [] && searchTerm == "" && selectedUser == None && formErrors == map[]
      ensures newUser == UserDraft("", "", "", "User")
    {
      users := [];
      searchTerm := "";
      newUser := UserDraft("", "", "", "User");
      selectedUser := None;
      formErrors := map[];
    }

    /** The list shown under the search box. */
    function Shown(): (r: seq<ListedUser>)
      reads this
      ensures forall u :: u in r <==> u in users && Matches(u, searchTerm)
    {
      FilteredUsers(users, searchTerm)
    }

    method ValidateAddUser() returns (valid: bool)
      modifies this`formErrors
      ensures formErrors == AddUserErrors(newUser)
      ensures valid <==> formErrors == map[]
    {
      var draft := newUser;
      var errors := CheckText(map[], Username, draft.username, true, 3, Some(50));
      errors := CheckEmail(errors, Email, draft.email, true, Some(100));
      errors := CheckText(errors, Password, draft.password, true, 6, None);
      ghost var before := errors;
      if draft.role == "" {
        errors := errors[Field.Role := Required];
      }
      RoleCheckStep(before, errors, draft.role);
      assert errors == AddUserErrors(draft);
      formErrors := errors;
      valid := |errors| == 0;
    }

    method ValidateEditUser() returns (valid: bool)
      requires selectedUser.Some?
      modifies this`formErrors
      ensures formErrors == EditUserErrors(selectedUser.value)
      ensures valid <==> formErrors == map[]
    {
      var draft := selectedUser.value;
      var errors := CheckText(map[], Username, draft.username, true, 3, Some(50));
      errors := CheckEmail(errors, Email, draft.email, true, Some(100));
      ghost var before := errors;
      if draft.role == "" {
        errors := errors[Field.Role := Required];
      }
      RoleCheckStep(before, errors, draft.role);
      assert errors == EditUserErrors(draft);
      formErrors := errors;
      valid := |errors| == 0;
    }
  }
}
