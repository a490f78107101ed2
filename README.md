# User management and translation: a Dafny model

This project models the logic of a small user-management system with a
translation page. The system has four parts:

- **User directory (ASP.NET).** The `Users` and `Roles` tables, each with
  its schema constraints and its two seeded system accounts (id 1 `admin`,
  id 2 `user`).
- **Users endpoints.** A paged, searchable list for administrators; a
  lookup by id for an administrator or the account itself; the caller's
  own profile; an update with its system-account, uniqueness, password and
  role rules; and an administrator-only delete.
- **Authentication endpoints.** Login, registration (which defaults the
  role) and token verification.
- **React client:**
  - the authentication reducer;
  - the API error-message helper and the change-password request;
  - the form validators and change handlers of the user-list, registration,
    profile and sign-in pages, and the user-list search filter.
- **Flask translation endpoint.** It checks the request, answers a
  same-language request itself, and checks the shape of the translation
  service's reply.

Modules, one concept each:

| file | module | models |
|---|---|---|
| `wrappers.dfy` | `Wrappers` | optional values (`null`, a missing key, `undefined`) |
| `text.dfy` | `Text` | JavaScript `trim`/`\s` and Python `strip`, case folding, substring search, the e-mail pattern |
| `directory.dfy` | `Directory` | records, schema invariants, seed, ideal password digest, `DbContext` class |
| `users_policy.dfy` | `UserPolicy` | the update and delete rules as functions of the tables, and their invariants |
| `users_controller.dfy` | `UsersController` | `UpdateUser`/`DeleteUser` as methods that update the context in place, proved equal to the rules |
| `users_queries.dfy` | `UserQueries` | `GetUsers` (filter, order, page), `GetUser`, `GetProfile` |
| `auth_controller.dfy` | `AuthController` | login, registration, token verification |
| `auth_reducer.dfy` | `AuthReducer` | the client's authentication state machine |
| `api_client.dfy` | `ApiClient` | `handleAPIError`, `changePassword` |
| `forms.dfy` | `Forms` | the shared error-map and rule-chain vocabulary of the client forms |
| `user_list.dfy` | `UserList` | add/edit validators and the search filter |
| `register_form.dfy` | `RegisterForm` | registration validator and change handler |
| `user_profile.dfy` | `UserProfile` | profile and password validators and change handlers |
| `login_form.dfy` | `LoginForm` | sign-in validator, change handler and quick-fill |
| `translator.dfy` | `Translator` | `translate_text` |

Conventions of the model:

- **Stored state.** Code that changes stored state is a class with
  methods: `Directory.DbContext`, the two controllers, and the four page
  classes. Each method's `ensures` ties the new state to a pure function,
  and the properties are lemmas about that function.
- **Passwords.** A password digest is an ideal one-way digest: a digest
  verifies against exactly the plaintext it was made from.
- **Time.** Clock readings (`DateTime.UtcNow`, token expiry) are `int`
  parameters, in seconds.
- **Opaque services.** These are function parameters, and each endpoint
  is stated over whatever the function answers:
  - the authentication service's credential check, account creation and
    token generator;
  - the translation service;
  - the JSON parser.
- **Form errors.** A form's error message for a field is an `Issue` value
  that stands for the fixed (Thai) message. Clearing an error, which the
  source does by setting it to `''`, is modelled as removing the field
  from the map. The forms only ever test an error for truthiness, and
  `''` is falsy.

Points where the model follows the code rather than a simpler reading:

- **Role table.** `UserManagementSystem/Data/ApplicationDbContext.cs`
  configures a string `Role` column and seeds role names on the users.
  The controllers, however, use a `RoleId` with a joined `Roles` table.
  The model follows the controllers: a role table with 1 = Admin and
  2 = User (the default role). Role names are bounded at 50 characters
  (`Models/Role.cs:11-12`),
  and the seeded accounts carry roles 1 and 2.
- **Sign-in sends the e-mail as the username.** The sign-in form
  validates an e-mail, and `AuthContext.js:129-131` sends it as
  `Username`. How `AuthenticateAsync` matches it is not part of this model.
- **Type of the session user's role.** The reducer stores whatever the
  caller gives it: an object after login, a string after token
  verification. The model's session user carries the role name.

## Model

| member | source | states |
|---|---|---|
| Directory.HashVerifiesOnlyItsPassword | UserManagementSystem/Controllers/UsersController.cs:219-237 | a new digest verifies against the password it was made from and against no other |
| Directory.SeedUsers | UserManagementSystem/Data/ApplicationDbContext.cs:60-80 | the seed holds exactly ids 1 and 2, both system accounts |
| Directory.SeedIsValid | UserManagementSystem/Data/ApplicationDbContext.cs:22-39 | the seeded users have unique usernames and e-mails, their roles exist, they fit the 50/100 column bounds counted in UTF-16 code units, role names fit 50 characters, and roles 1 and 2 are Admin and User |
| Directory.SeedPasswordsVerify | UserManagementSystem/Data/ApplicationDbContext.cs:57-58 | the seeded digests verify against "admin123" and "user123", and the admin digest against nothing else |
| Directory.DbContext.constructor | UserManagementSystem/Data/ApplicationDbContext.cs:60-80 | a new database holds the seed, is valid, and has both system accounts as seeded |
| UserPolicy.Update | UserManagementSystem/Controllers/UsersController.cs:151-262 | Forbid exactly when the caller is neither Admin nor the target; NotFound exactly when a permitted target is missing; every refusal leaves the table unchanged; a success changes only the target record, stamps updatedAt and keeps createdAt, and keeps that record within its column bounds |
| UserPolicy.SystemAccountRules | UserManagementSystem/Controllers/UsersController.cs:176-192 | a system account is updated exactly when the caller is that account and sends a non-empty password; then only the digest and updatedAt change; every other field of the request is ignored; everything else is "Cannot modify default system users" with the table unchanged |
| UserPolicy.OldPasswordRequiredUnreachable | UserManagementSystem/Controllers/UsersController.cs:230-234 | no request ever gets "Old password is required", because the gate at line 164 already refused every caller it would catch |
| UserPolicy.PasswordRules | UserManagementSystem/Controllers/UsersController.cs:219-237 | a supplied old password that does not verify is answered BadRequest "Current password is incorrect" with the table unchanged, once the username and e-mail checks pass; on success, a supplied old password verified against the stored digest; the new digest verifies against the new password only; without a new password the digest is kept |
| UserPolicy.PasswordOnlyAlwaysAccepted | UserManagementSystem/Controllers/UsersController.cs:219-237 | any caller past the gate can set an ordinary account's password without the old one, and the account's identity is unchanged |
| UserPolicy.RoleRules | UserManagementSystem/Controllers/UsersController.cs:239-249 | the role changes only for an Admin asking for an existing non-zero role; an Admin's existing non-zero role is applied on success; a non-admin's RoleId is ignored; an Admin asking for a missing role is refused, with "Invalid role specified" once the earlier checks pass |
| UserPolicy.IdentityRules | UserManagementSystem/Controllers/UsersController.cs:194-216 | on success the username and e-mail are the requested ones when given and the old ones otherwise; a username held by another user is refused with "Username already exists"; when the username passes, a changed e-mail held by another user is refused with "Email already exists" (lines 207-216) |
| UserPolicy.UpdateKeepsConsistent | UserManagementSystem/Controllers/UsersController.cs:194-249 | an update keeps usernames unique, e-mails unique and every role id resolvable |
| UserPolicy.UpdateKeepsSystemAccounts | UserManagementSystem/Controllers/UsersController.cs:176-192 | no update changes the username, e-mail, role or createdAt of either system account |
| UserPolicy.OverlongRenameReachesDatabase | UserManagementSystem/Controllers/UsersController.cs:194-260 | the controller checks no length: a rename of an ordinary account to a free name passes every rule, and the save fails with 500 exactly when the name is longer than 50 UTF-16 code units, leaving the table unchanged |
| UserPolicy.OverlongColumnsRefusedAtSave | UserManagementSystem/Controllers/UsersController.cs:194-260 | once every check of the handler passes, the save answers 500 "Internal server error" exactly when a changed username is longer than 50 or a changed e-mail longer than 100 UTF-16 code units, and NoContent otherwise |
| UserPolicy.UpdateKeepsColumnBounds | UserManagementSystem/Controllers/UsersController.cs:194-260 | an update that answers NoContent keeps every record within the column bounds it was within |
| UserPolicy.Delete | UserManagementSystem/Controllers/UsersController.cs:267-297 | succeeds exactly when the target is another user who exists and is not a system account; a success removes exactly that id; a refusal changes nothing |
| UserPolicy.DeleteGuardOrder | UserManagementSystem/Controllers/UsersController.cs:273-293 | self-delete is refused before the lookup, a missing id gives NotFound before the system check, and ids 1 and 2 are refused; every other user keeps its record |
| UserPolicy.DeleteKeepsInvariants | UserManagementSystem/Controllers/UsersController.cs:286-292 | a delete keeps the directory consistent, keeps both system accounts, and never removes the caller |
| UserPolicy.RunKeepsInvariants | UserManagementSystem/Controllers/UsersController.cs:151-297 | any sequence of updates and deletes from a consistent directory with intact system accounts keeps both properties |
| UserPolicy.RunKeepsValid | UserManagementSystem/Controllers/UsersController.cs:151-297 | any sequence of updates and deletes keeps the whole schema invariant: unique names and e-mails, resolvable roles, and every record within its column bounds |
| UsersController.UsersController.UpdateUser | UserManagementSystem/Controllers/UsersController.cs:151-262 | changing the tracked record field by field and saving once gives exactly the answer and table of UserPolicy.Update, including the 500 of a save the database refuses; the role table is untouched |
| UsersController.UsersController.DeleteUser | UserManagementSystem/Controllers/UsersController.cs:267-303 | the guards in order and the removal give exactly the answer and table of UserPolicy.Delete |
| UserQueries.ToDto | UserManagementSystem/Controllers/UsersController.cs:125-138 | the DTO carries the user's id, username, e-mail and its role's id and name |
| UserQueries.GetUser | UserManagementSystem/Controllers/UsersController.cs:103-147 | Forbidden exactly when the caller is neither Admin nor the target; NotFound exactly when a permitted target is missing; otherwise the target's DTO |
| UserQueries.GetProfile | UserManagementSystem/Controllers/UsersController.cs:307-344 | never forbidden; found exactly when the caller's id exists, and then it is the caller's DTO |
| UserQueries.ProfileIsOwnLookup | UserManagementSystem/Controllers/UsersController.cs:307-344 | the profile answer equals GetUser on the caller's own id |
| UserQueries.ClampPage | UserManagementSystem/Controllers/UsersController.cs:36 | the page is at least 1 and a valid page is kept |
| UserQueries.ClampPageSize | UserManagementSystem/Controllers/UsersController.cs:37 | the size is in [1,100]; a size in range is kept, any other becomes exactly 10 |
| UserQueries.CeilDivBounds | UserManagementSystem/Controllers/UsersController.cs:54 | totalPages is the least page count whose pages hold every item, and it is 0 exactly when there are no items |
| UserQueries.FilterSemantics | UserManagementSystem/Controllers/UsersController.cs:42-50 | a non-empty search keeps exactly the users whose lower-cased username, e-mail or role name contains the lower-cased term; a missing or empty one keeps all |
| UserQueries.SearchIgnoresCase | UserManagementSystem/Controllers/UsersController.cs:44-49 | searching for a term and for its lower-cased form select the same users |
| UserQueries.Listing | UserManagementSystem/Controllers/UsersController.cs:57-59 | the listing holds each selected user once, in ascending id order, and nothing else |
| UserQueries.Skip | UserManagementSystem/Controllers/UsersController.cs:60 | a non-negative count (SQL Server's OFFSET refuses a negative one) drops that many entries, or all of them |
| UserQueries.Take | UserManagementSystem/Controllers/UsersController.cs:61 | the result is the prefix of length min(n, length) |
| UserQueries.Dtos | UserManagementSystem/Controllers/UsersController.cs:62-76 | one DTO per id, in the same order |
| UserQueries.PaginationFor | UserManagementSystem/Controllers/UsersController.cs:78-90 | totalPages is the ceiling of totalCount / pageSize, hasNextPage is page < totalPages and hasPreviousPage is page > 1 |
| UserQueries.PastLastPage | UserManagementSystem/Controllers/UsersController.cs:57-61 | a page past the last one starts at or past the end of the list |
| UserQueries.GetUsers | UserManagementSystem/Controllers/UsersController.cs:31-99 | the pagination block holds the clamped page and size and the filtered count; the page has at most pageSize users and is empty past the last page |
| UserQueries.GetUsersIsPageOf | UserManagementSystem/Controllers/UsersController.cs:57-61 | the page is cut from the id-ascending listing at offset (page-1)*pageSize |
| UserQueries.PageContents | UserManagementSystem/Controllers/UsersController.cs:57-61 | entry i of the page is entry (page-1)*pageSize+i of the listing; each entry is a selected user, and the entries ascend by id |
| UserQueries.PositionIsListed | UserManagementSystem/Controllers/UsersController.cs:57-61 | listing position i appears as slot i mod pageSize of page i div pageSize + 1 |
| UserQueries.EverySelectedUserIsListed | UserManagementSystem/Controllers/UsersController.cs:42-61 | every user the search selects appears on some page |
| UserQueries.Wrap32 | UserManagementSystem/Controllers/UsersController.cs:60 | C#'s unchecked int arithmetic: the result lies in the 32-bit range and equals the exact value when that fits |
| UserQueries.GetUsersAsWritten | UserManagementSystem/Controllers/UsersController.cs:57-97 | the answer is the 500 of the catch exactly when the 32-bit offset is negative; otherwise the page has at most pageSize users and the pagination block is the intended one |
| UserQueries.AsWrittenAgreesWhileOffsetFits | UserManagementSystem/Controllers/UsersController.cs:60 | while (page-1)*pageSize fits in 32 bits, the 32-bit computation lists the intended page |
| UserQueries.OffsetWrapShowsFirstPage | UserManagementSystem/Controllers/UsersController.cs:57-61 | with one user, page 1073741825 of size 100 should be empty; the offset wraps to 0, so that page lists the user |
| UserQueries.OffsetOverflowIsRefused | UserManagementSystem/Controllers/UsersController.cs:57-97 | page 21474838 of size 100 wraps to the offset -2147483596, which the database refuses, so the request answers 500 where the intended answer is an empty page |
| AuthController.ResponseFor | UserManagementSystem/Controllers/AuthController.cs:38-51 | the response echoes the user's id, username, e-mail and role with the token, and expires 24 hours after now |
| AuthController.Login | UserManagementSystem/Controllers/AuthController.cs:30-51 | Unauthorized "Invalid username or password" exactly when authentication finds no user; otherwise the user's identity, role, its issued token and now + 24h |
| AuthController.LoginFailureIsUniform | UserManagementSystem/Controllers/AuthController.cs:30-35 | any two rejected logins give the same answer, whatever the username, password or time |
| AuthController.WithDefaultRole | UserManagementSystem/Controllers/AuthController.cs:75-78 | RoleId 0 becomes 2 (User); any other RoleId, Admin included, passes unchanged |
| AuthController.RegisterResponse | UserManagementSystem/Controllers/AuthController.cs:80-108 | registered exactly when the service created a user, echoing its identity with a token and now + 24h; a null user gives "Registration failed"; an InvalidOperationException gives its own message |
| AuthController.AuthController.Register | UserManagementSystem/Controllers/AuthController.cs:63-114 | the request's RoleId is defaulted in place and nothing else on it changes; the answer is the service's reply to the updated request, mapped by RegisterResponse |
| AuthController.VerifyToken | UserManagementSystem/Controllers/AuthController.cs:117-138 | Unauthorized exactly when the user-id claim is missing or empty; otherwise "Token is valid" with the id, name and role claims unchanged |
| AuthReducer.InitialState | frontend/src/context/AuthContext.js:6-12 | no user, the stored token, signed in exactly when a non-empty token is stored, not loading, no error |
| AuthReducer.Reduce | frontend/src/context/AuthContext.js:14-64 | per action, the fields it sets and the fields it keeps: AUTH_START, AUTH_ERROR, CLEAR_ERROR and AUTH_STOP keep the session; LOGOUT clears it but keeps isLoading; SET_USER changes only user; an unknown action changes nothing |
| AuthReducer.ReduceIdempotent | frontend/src/context/AuthContext.js:14-64 | dispatching any action twice in a row equals dispatching it once |
| AuthReducer.InitialStateCoherent | frontend/src/context/AuthContext.js:6-12 | the start-up state holds a token whenever it is signed in |
| AuthReducer.ReduceKeepsCoherent | frontend/src/context/AuthContext.js:14-64 | every action keeps "signed in implies a token" |
| AuthReducer.ReachableStatesCoherent | frontend/src/context/AuthContext.js:14-64 | every state reached by a sequence of actions is signed in only with a token |
| AuthReducer.OnlySuccessSignsIn | frontend/src/context/AuthContext.js:22-30 | without AUTH_SUCCESS a signed-out client stays signed out |
| AuthReducer.NoTokenWithoutSuccess | frontend/src/context/AuthContext.js:14-64 | without AUTH_SUCCESS a client without a token never gets one |
| AuthReducer.SignedOutAfterLogout | frontend/src/context/AuthContext.js:37-44 | after LOGOUT the client is signed out and without a token until the next AUTH_SUCCESS |
| ApiClient.OrElse | frontend/src/services/api.js:103 | JavaScript's or-default: a non-empty message wins, otherwise the fallback |
| ApiClient.Decimal | frontend/src/services/api.js:117 | the status prints as digits without a leading zero |
| ApiClient.DecimalRoundTrip | frontend/src/services/api.js:117 | the printed status reads back as the same number |
| ApiClient.HandleApiError | frontend/src/services/api.js:96-126 | the message is never empty; 400/409/422 show the server's message or their default; 401/403/404/500 show fixed texts; any other status shows the server's message or "Error {status}: {statusText}"; no answer gives the network message; an unsent request gives its message or the generic default |
| ApiClient.FixedStatusesIgnoreBody | frontend/src/services/api.js:104-115 | for 401, 403, 404 and 500 the body and status text never change the message |
| ApiClient.ServerMessageWins | frontend/src/services/api.js:102-117 | for every status except 401, 403, 404 and 500, a non-empty server message is shown unchanged |
| ApiClient.FallbackNamesStatus | frontend/src/services/api.js:116-117 | an unlisted status without a message reads "Error " + digits + ": " + statusText, where the digits are the status |
| ApiClient.ChangePasswordBody | frontend/src/services/api.js:76-77 | the body carries only the new password; the old password, username, e-mail and role are absent |
| ApiClient.OldPasswordNeverChecked | frontend/src/services/api.js:76-77 | whatever current password is typed, the server gives the same answer and stores the same table |
| ApiClient.WrongCurrentPasswordAccepted | frontend/src/services/api.js:76-77 | a user changing their own password with a wrong current password still succeeds, and afterwards only the new password verifies |
| Text.Trim | frontend/src/components/UserList.js:60 | the result is a slice of the value with only white space cut before and after it, and no white space at either end |
| Text.Utf16Length | frontend/src/components/UserList.js:62-64 | JavaScript's `length` counts UTF-16 code units: at least one and at most two per character |
| Text.Utf16LengthOfBasicText | frontend/src/components/UserList.js:62-64 | on text within the Basic Multilingual Plane the UTF-16 length is the number of characters |
| Text.TrimEmptyIffAllSpace | frontend/src/components/UserList.js:60 | the trimmed value is empty exactly when the value is all white space |
| Text.ToLower | frontend/src/components/UserList.js:199-203 | same length, each character lower-cased |
| Text.ToLowerIdempotent | frontend/src/components/UserList.js:199-203 | lower-casing twice equals lower-casing once |
| Text.EmailPatternNeedsFiveChars | frontend/src/components/UserList.js:70 | a value that matches the e-mail pattern has at least five characters and is not blank |
| Text.EmailPatternUnanchored | frontend/src/components/UserList.js:70 | text around a matching value never spoils the match |
| Forms.MissingAfterTrimIffBlank | frontend/src/components/UserList.js:60 | `!value.trim()` holds exactly when the value is all white space |
| Forms.TextIssue | frontend/src/components/UserList.js:60-66 | Required exactly when missing; TooShort exactly when present and shorter than the minimum in UTF-16 code units (JavaScript's `length`); TooLong exactly when present, long enough and over the maximum; no issue exactly otherwise |
| Forms.EmailIssue | frontend/src/components/UserList.js:68-74 | Required exactly when missing; InvalidEmail exactly when present and not matching the pattern; TooLong exactly when matching and over the maximum; no issue exactly otherwise |
| Forms.EmailShapeIsNeverMissing | frontend/src/components/UserList.js:68-71 | a value with the e-mail shape is never missing, trimmed or not |
| Forms.ConfirmIssue | frontend/src/components/Register.js:49-53 | Required exactly when the confirmation is empty; Mismatch exactly when it is non-empty and differs; no issue exactly when it equals the password |
| Forms.WithEmpty | frontend/src/components/UserList.js:86-87 | the error map is empty exactly when it started empty and no issue was added |
| Forms.CheckText | frontend/src/components/UserList.js:60-66 | testing the rules in order records exactly TextIssue's message for the field, if any |
| Forms.CheckEmail | frontend/src/components/UserList.js:68-74 | testing the rules in order records exactly EmailIssue's message for the field, if any |
| Forms.CheckConfirm | frontend/src/components/Register.js:49-53 | testing the rules in order records exactly ConfirmIssue's message for the field, if any |
| Forms.Cleared | frontend/src/components/Login.js:53-59 | the typed field has no error afterwards; every other field keeps its error exactly |
| UserList.RoleIssue | frontend/src/components/UserList.js:82-84 | an issue exactly when no role is chosen, and that issue is Required |
| UserList.AddUserAcceptedIff | frontend/src/components/UserList.js:57-88 | the add form is accepted exactly when the username is not blank with 3..50 UTF-16 code units, the e-mail matches with at most 100 code units, the password is not blank with at least 6 characters, and a role is chosen |
| UserList.EditIsAddWithoutPassword | frontend/src/components/UserList.js:90-115 | the edit form's errors are the add form's errors without the password's |
| UserList.AcceptedDraftFitsColumns | frontend/src/components/UserList.js:57-88 | an accepted draft has a non-empty username of at most 50 UTF-16 code units and a non-empty e-mail of at most 100, so it fits the database columns |
| UserList.PaddedUsernameAccepted | frontend/src/components/UserList.js:60-66 | lengths count the untrimmed value: "a" padded with two spaces passes the username rules |
| UserList.UsernameEntry | frontend/src/components/UserList.js:60-66 | only the username rule puts an entry under username |
| UserList.KeepAsWritten | frontend/src/components/UserList.js:199-203 | the test throws exactly when neither username nor e-mail matches and the role is an object |
| UserList.FilteredUsersAsWritten | frontend/src/components/UserList.js:199-203 | the filter as written throws exactly when its test throws for some user |
| UserList.FilteredUsers | frontend/src/components/UserList.js:199-203 | never longer than the list; a user is kept exactly when its lower-cased username, e-mail or role name contains the lower-cased term |
| UserList.FilterDistributes | frontend/src/components/UserList.js:199-203 | filtering a concatenation filters each part: the kept users keep their order |
| UserList.FilterOne | frontend/src/components/UserList.js:199-203 | a single user is kept exactly when it matches |
| UserList.FilterIsSubMultiset | frontend/src/components/UserList.js:199-203 | the result is a sub-multiset of the list: no user is duplicated or invented |
| UserList.EmptyTermKeepsAll | frontend/src/components/UserList.js:199-203 | an empty term keeps every user that has a username, in order |
| UserList.AsWrittenAgreesOnTextRoles | frontend/src/components/UserList.js:199-203 | when no role is an object, the filter as written gives the intended list |
| UserList.RoleObjectBreaksSearch | frontend/src/components/UserList.js:199-203 | for a user "alice" whose role is the object of role User, searching "user" throws as written, while the intended filter keeps her |
| UserList.UserListPage.constructor | frontend/src/components/UserList.js:22-38 | no users, empty search, no selection, no errors, and a blank new-user draft with role "User" |
| UserList.UserListPage.Shown | frontend/src/components/UserList.js:199-203 | the shown list holds exactly the listed users that match the search term, with the corrected filter of the UserList.js:199-203 finding; as written, rendering throws once a non-empty term misses a user's username and e-mail |
| UserList.UserListPage.ValidateAddUser | frontend/src/components/UserList.js:57-88 | the form errors become the add-form errors of the draft, and the answer is true exactly when there are none |
| UserList.UserListPage.ValidateEditUser | frontend/src/components/UserList.js:90-115 | the form errors become the edit-form errors of the selected user, and the answer is true exactly when there are none |
| RegisterForm.RegisterAcceptedIff | frontend/src/components/Register.js:28-57 | accepted exactly when the username has at least 3 characters, the e-mail matches, the password has at least 6 characters, and the confirmation equals it; there is no upper bound and no trimming |
| RegisterForm.Typed | frontend/src/components/Register.js:59-64 | typing into one input sets that input and no other |
| RegisterForm.ErrorsAfterTyping | frontend/src/components/Register.js:66-86 | the typed field's error is gone; the confirmation error survives exactly when it was there, was not typed into, and the passwords were not made to agree; no error is added or changed |
| RegisterForm.MatchingPasswordsClearConfirmation | frontend/src/components/Register.js:74-86 | editing either password field so that the two agree on a non-empty value removes the confirmation error |
| RegisterForm.TypingKeepsOtherErrors | frontend/src/components/Register.js:66-86 | errors of fields other than the typed one and the confirmation are kept; the confirmation's error only goes when the passwords agree |
| RegisterForm.RegisterPage.constructor | frontend/src/components/Register.js:6-15 | blank fields with role "User" and no errors |
| RegisterForm.RegisterPage.ValidateForm | frontend/src/components/Register.js:28-57 | the form errors become the registration errors of the fields, and the answer is true exactly when there are none |
| RegisterForm.RegisterPage.HandleChange | frontend/src/components/Register.js:59-87 | the fields become the typed form, and the errors become ErrorsAfterTyping, with both password tests reading the form from before the keystroke |
| UserProfile.ProfileAcceptedIff | frontend/src/components/UserProfile.js:60-77 | accepted exactly when the username is not blank and has at least 3 characters, and the e-mail matches |
| UserProfile.PasswordAcceptedIff | frontend/src/components/UserProfile.js:79-100 | accepted exactly when a current password is typed, the new one has at least 6 characters, and the confirmation equals it |
| UserProfile.ProfilePage.constructor | frontend/src/components/UserProfile.js:29-40 | the profile starts from the user's username and e-mail, or '' when missing; blank password fields; no errors |
| UserProfile.ProfilePage.ValidateProfileForm | frontend/src/components/UserProfile.js:60-77 | the errors become the profile errors, and the answer is true exactly when there are none |
| UserProfile.ProfilePage.ValidatePasswordForm | frontend/src/components/UserProfile.js:79-100 | the errors become the password-form errors, and the answer is true exactly when there are none |
| UserProfile.ProfilePage.HandleProfileChange | frontend/src/components/UserProfile.js:157-170 | the typed profile field is set, and only its error is cleared |
| UserProfile.ProfilePage.HandlePasswordChange | frontend/src/components/UserProfile.js:172-185 | the typed password field is set, and only its error is cleared |
| LoginForm.LoginAcceptedIff | frontend/src/components/Login.js:27-44 | accepted exactly when the e-mail matches the pattern and the password has at least 6 characters |
| LoginForm.ExampleComAddress | frontend/src/components/Login.js:81-85 | any local part ending in a visible character, followed by "@example.com", matches the e-mail pattern |
| LoginForm.QuickFillAccepted | frontend/src/components/Login.js:77-86 | the quick-filled credentials always pass the sign-in form's own validation |
| LoginForm.QuickFillIsSeedAccount | frontend/src/components/Login.js:81-85 | "Admin" fills the seeded admin account and any other role the seeded user account: the e-mail is that account's, the password verifies against its digest, and its role matches |
| LoginForm.LoginPage.constructor | frontend/src/components/Login.js:6-13 | blank fields, no errors, quick-login panel closed, no role selected |
| LoginForm.LoginPage.ValidateForm | frontend/src/components/Login.js:27-44 | the errors become the sign-in errors of the fields, and the answer is true exactly when there are none |
| LoginForm.LoginPage.HandleChange | frontend/src/components/Login.js:46-60 | the typed field is set, and only its error is cleared |
| LoginForm.LoginPage.HandleRoleSelect | frontend/src/components/Login.js:77-86 | the role is selected, the panel closes, the form holds QuickFill(role), and the errors are untouched |
| Translator.LanguageOf | backend/app.py:29-30 | a missing language takes its default, a string is kept, any other JSON value is no language |
| Translator.Prelude | backend/app.py:26-43 | a body that is not an object, or a text that is not a string, gives 500 "Translation failed"; an empty stripped text gives 400 "Source text is required" before any language check; then an unsupported language gives 400; then the same language answers the stripped text with confidence "high"; only a valid request with different languages is forwarded, with the stripped text |
| Translator.ForwardedRequestsAreValid | backend/app.py:33-43 | a forwarded request has a non-blank text and two different supported languages |
| Translator.DefaultsAreEnglishToSpanish | backend/app.py:29-30 | without languages, a non-blank text is forwarded from English to Spanish |
| Translator.ServiceReply | backend/app.py:93-113 | a service exception gives "Translation service error"; a blank reply gives the empty-response error; an unparsable one the invalid-JSON error; a parsed reply is relayed exactly when it is an object with a translatedText key, and otherwise gives the invalid-format error |
| Translator.HasKeyAsWritten | backend/app.py:100 | Python's `in`: a key test on an object, an item test on an array, a substring test on a string, and a TypeError exactly on a scalar |
| Translator.ServiceReplyAsWritten | backend/app.py:93-113 | as written: a scalar reply gives "Translation service error"; any reply for which `in` finds the key is relayed; any other gives the invalid-format error |
| Translator.AsWrittenAgreesOnObjects | backend/app.py:98-107 | for replies that parse to an object or do not parse, the check as written is the intended one |
| Translator.StringReplySlipsThrough | backend/app.py:100-103 | the reply `"translatedText"` (a JSON string) is relayed as written, while the intended check rejects it as malformed |
| Translator.ScalarReplyMisreported | backend/app.py:100 | the reply `0` is reported as a service failure as written, while the intended check calls it malformed |
| Translator.Translate | backend/app.py:25-117 | a successful translation is the non-empty stripped string text with confidence "high" for a same-language supported pair; a relayed reply comes from a forwarded request whose service reply parses to an object with a translatedText key, and a forwarded request succeeds exactly then; every failure is 400 or 500; a 400 is a blank text or an unsupported language; the 500 "Translation failed" comes exactly from a body that is not an object or a text that is not a string (the reply check is the corrected one, not the one at line 100) |
| Translator.PreludeAnswers | backend/app.py:26-43 | an answer of the prelude is the same-language translation, a 400 for a blank text or an unsupported language, or the 500 for a malformed body |
| Translator.ServiceReplyShape | backend/app.py:93-113 | the reply check succeeds exactly when the non-blank stripped reply parses to an object with a translatedText key, and then relays that object |
| Translator.AnsweredWithoutService | backend/app.py:39-43 | a request the prelude answers, the same-language one included, gets the same reply whatever the service and parser do |

## Left out

- HTTP and framework plumbing:
  - `ModelState` checks, `[Authorize]`, logging, and `async`/`await`.
  - The Admin-only route restriction of `DeleteUser` and `GetUsers` is a precondition.
  - A missing NameIdentifier claim is the id 0 passed in `Caller`.
  - Of the exceptions that the try/catch wrappers turn into 500 "Internal server error", only two are modelled: the refused negative offset of `GetUsers` and the over-long column value at the save of `UpdateUser`. Connection failures and other database errors are not.
- Entity Framework is modelled as in-memory maps. `SaveChangesAsync` is the single assignment at the end of `UpdateUser`. Database collation is not modelled: uniqueness and search use exact and ASCII-lower-cased comparison.
- UserQueries.CeilDivBounds: `Math.Ceiling` over `double` is modelled as integer ceiling division. Floating point is not modelled.
- Directory.HashPassword: BCrypt salting and cost are not modelled. The digest is ideal and deterministic.
- JWT generation and validation are not modelled. The token is whatever the `issueToken` parameter gives, and the claims are passed to `VerifyToken`.
- The authentication service (`AuthenticateAsync`, `RegisterAsync`) is not modelled. Its answers are function parameters, so how it matches the e-mail sent as `Username` is not captured.
- RolesController, Program.cs, update_roles.cs and the model and DTO classes are not part of this model beyond their shapes.
- `AuthProvider`'s side effects are not modelled: the `login`, `register`, `logout` and `verifyToken` functions, axios, interceptors and localStorage. Only the reducer and the initial state are. The stored token is a parameter of `InitialState`.
- Translation service and reply parsing:
  - `get_translation`, the streamed-message loop and `asyncio.run` are not modelled; the service is a function parameter.
  - `json.loads` is a function parameter. The parsed document keeps only what the endpoint looks at: an object's keys, an array's items and a string's text.
  - The relayed object is returned unchanged, so its other members are not modelled.
- Translator.Prelude: a request body that is not JSON at all is folded into "not an object", and both give 500 "Translation failed".
- The forms' Thai messages are modelled by the `Issue` values, one per field and rule.
- React rendering, routing, timers, the modal toggles and the submit handlers are not modelled. The submit handlers call the validators and then the API, so only the validators and the API helpers are modelled.
- UserList.UserListPage.ValidateEditUser: the edited user's role is modelled as text. The list sends role objects, for which `!role` is never true.
- The user list's `handleInputChange` is not modelled. It sets one field of the draft and clears that field's error, which is the same step as `Forms.Cleared`.
- Text.ToLower: only ASCII letters are case-folded. The other Unicode case mappings of C#'s `ToLower`, JavaScript's `toLowerCase` and SQL `LOWER` are not modelled.
- The database is SQL Server, as `Program.cs:15` configures it: a negative `Skip` count (an OFFSET) is refused, and a string longer than its `nvarchar` column, counted in UTF-16 code units, is refused at `SaveChangesAsync`. Only changed columns are written, as Entity Framework's change tracking does.
- AuthReducer.Reduce: the session user's role is held as a name. After login the source stores the role object.

## Findings

| source | as written | input that shows it | evidently intended | confidence | as-written member | corrected member |
|---|---|---|---|---|---|---|
| UserManagementSystem/Controllers/UsersController.cs:60 | `Skip((page - 1) * pageSize)` is computed in 32-bit `int` and wraps around for large pages | `page=1073741825`, `pageSize=100`: the offset wraps to 0, so the first page is listed instead of an empty one; `page=21474838`, `pageSize=100`: the offset wraps to -2147483596, which SQL Server's OFFSET refuses, and the catch answers 500 | a page past the last one is empty | not executed | UserQueries.GetUsersAsWritten (with UserQueries.OffsetWrapShowsFirstPage and UserQueries.OffsetOverflowIsRefused) | UserQueries.GetUsers |
| frontend/src/components/UserList.js:199-203 | `user.role?.toLowerCase()` is called on the role object that the users endpoint sends, which throws a TypeError whenever username and e-mail do not match | a user "alice" / "alice@example.com" with role object {id 2, name "User"}, and search term "user" | match the role's name, so that "alice" is kept | not executed | UserList.FilteredUsersAsWritten (with UserList.RoleObjectBreaksSearch) | UserList.FilteredUsers (shown by UserList.UserListPage.Shown) |
| backend/app.py:100 | `'translatedText' not in result` is applied to any parsed JSON. A string reply containing the key, or an array holding it, passes and is relayed. A number, boolean or null raises a TypeError, which is reported as "Translation service error" | the reply `"translatedText"` is relayed as a successful translation; the reply `0` gives "Translation service error" | relay only an object with a `translatedText` key; report anything else as an invalid response format | not executed | Translator.ServiceReplyAsWritten (with Translator.StringReplySlipsThrough and Translator.ScalarReplyMisreported) | Translator.ServiceReply |
