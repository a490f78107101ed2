/**
 * The user directory: the records the API stores, the constraints the
 * database schema puts on them, the two seeded system accounts, and the
 * password primitive (as an ideal one-way digest).
 */
module Directory {
  import opened Wrappers
  import opened Text

  /**
   * A password digest. The salted bcrypt primitive is replaced by an ideal
   * digest that remembers its plaintext; only `VerifyPassword` looks inside.
   */
  datatype PasswordHash = Digest(secret: string)

  function HashPassword(password: string): (h: PasswordHash)
    ensures VerifyPassword(password, h)
  {
    Digest(password)
  }

  predicate VerifyPassword(password: string, hash: PasswordHash) {
    hash.secret == password
  }

  /** A digest verifies against exactly the plaintext it was made from. */
  lemma HashVerifiesOnlyItsPassword(password: string, attempt: string)
    ensures VerifyPassword(attempt, HashPassword(password)) <==> attempt == password
  {
  }

  /** A role record; its id is its key in the role table. */
  datatype Role = Role(name: string, description: Option<string>)

  /** A user record; its id is its key in the user table. Timestamps are clock readings. */
  datatype User = User(
    username: string,
    email: string,
    passwordHash: PasswordHash,
    roleId: int,
    createdAt: int,
    updatedAt: int)

  type UserTable = map<int, User>
  type RoleTable = map<int, Role>

  const AdminRoleId: int := 1
  const UserRoleId: int := 2

  const MaxUsernameLength: nat := 50
  const MaxEmailLength: nat := 100
  const MaxRoleNameLength: nat := 50
  const DefaultRoleName: string := "User"

  /** Ids 1 (admin) and 2 (user) are the seeded system accounts. */
  predicate IsSystemAccount(id: int) {
    id == 1 || id == 2
  }

  /** The unique index on Username. */
  predicate UniqueUsernames(users: UserTable) {
    forall a, b :: a in users && b in users && a != b ==> users[a].username != users[b].username
  }

  /** The unique index on Email. */
  predicate UniqueEmails(users: UserTable) {
    forall a, b :: a in users && b in users && a != b ==> users[a].email != users[b].email
  }

  /** Every user refers to a role that exists. */
  predicate RolesResolve(users: UserTable, roles: RoleTable) {
    forall k :: k in users ==> users[k].roleId in roles
  }

  /** The invariant that the update and delete operations keep. */
  predicate Consistent(users: UserTable, roles: RoleTable) {
    UniqueUsernames(users) && UniqueEmails(users) && RolesResolve(users, roles)
  }

  /**
   * Column bounds: Username at most 50 characters, Email at most 100. The
   * columns are `nvarchar`, whose length is counted in UTF-16 code units.
   */
  predicate WithinColumnBounds(u: User) {
    Utf16Length(u.username) <= MaxUsernameLength && Utf16Length(u.email) <= MaxEmailLength
  }

  /**
   * What the database accepts when a changed record is saved: each username
   * or e-mail that changed fits its column (unchanged columns are not sent).
   */
  predicate ColumnsAcceptChange(before: User, after: User) {
    && (after.username == before.username || Utf16Length(after.username) <= MaxUsernameLength)
    && (after.email == before.email || Utf16Length(after.email) <= MaxEmailLength)
  }

  /** Role names: at most 50 characters. */
  predicate RoleNameWithinBounds(name: string) {
    Utf16Length(name) <= MaxRoleNameLength
  }

  /** Everything the schema asks of a directory. */
  predicate Valid(users: UserTable, roles: RoleTable) {
    && Consistent(users, roles)
    && (forall k :: k in users ==> WithinColumnBounds(users[k]))
    && (forall r :: r in roles ==> RoleNameWithinBounds(roles[r].name))
  }

  const AdminSeedPassword: string := "admin123"
  const UserSeedPassword: string := "user123"

  /** The seeded role table: 1 is Admin, 2 is the default role User. */
  const SeedRoles: RoleTable := map[AdminRoleId := Role("Admin", None), UserRoleId := Role(DefaultRoleName, None)]

  /** The two seeded accounts, created at clock reading `now`. */
  function SeedUsers(now: int): (users: UserTable)
    ensures users.Keys == {1, 2}
    ensures forall k :: k in users ==> IsSystemAccount(k)
  {
    map[
      1 := User("admin", "admin@example.com", HashPassword(AdminSeedPassword), AdminRoleId, now, now),
      2 := User("user", "user@example.com", HashPassword(UserSeedPassword), UserRoleId, now, now)]
  }

  /** The seeded role names fit their column. */
  lemma SeedRoleNamesFit()
    ensures forall r :: r in SeedRoles ==> RoleNameWithinBounds(SeedRoles[r].name)
  {
  }

  /** The seeded records fit their columns. */
  lemma SeedRecordsFit(now: int)
    ensures forall k :: k in SeedUsers(now) ==> WithinColumnBounds(SeedUsers(now)[k])
  {
  }

  /** The seeded database satisfies every schema constraint. */
  lemma SeedIsValid(now: int)
    ensures Valid(SeedUsers(now), SeedRoles)
    ensures SeedRoles[AdminRoleId].name == "Admin" && SeedRoles[UserRoleId].name == DefaultRoleName
  {
    assert Consistent(SeedUsers(now), SeedRoles);
    SeedRoleNamesFit();
    SeedRecordsFit(now);
  }

  /** Each seeded digest verifies against its plaintext, and against no other. */
  lemma SeedPasswordsVerify(now: int, attempt: string)
    ensures VerifyPassword(AdminSeedPassword, SeedUsers(now)[1].passwordHash)
    ensures VerifyPassword(UserSeedPassword, SeedUsers(now)[2].passwordHash)
    ensures VerifyPassword(attempt, SeedUsers(now)[1].passwordHash) ==> attempt == AdminSeedPassword
  {
  }

  /** What the system-account rules keep fixed: everything except the digest and updatedAt. */
  predicate SameIdentity(a: User, b: User) {
    a.username == b.username && a.email == b.email && a.roleId == b.roleId && a.createdAt == b.createdAt
  }

  /** Both system accounts exist and still carry their seeded identity. */
  predicate SystemAccountsIntact(users: UserTable, seededAt: int) {
    var seed := SeedUsers(seededAt);
    && 1 in users && SameIdentity(users[1], seed[1])
    && 2 in users && SameIdentity(users[2], seed[2])
  }

  /** The seed holds both system accounts as seeded. */
  lemma SeedIntact(now: int)
    ensures SystemAccountsIntact(SeedUsers(now), now)
  {
  }

  /** The database context: the Users and Roles tables, which the controllers update in place. */
  class DbContext {
    var users: UserTable
    var roles: RoleTable

    /** A freshly created database holds the seed. */
    constructor (now: int)
      ensures users == SeedUsers(now) && roles == SeedRoles
      ensures Valid(users, roles) && SystemAccountsIntact(users, now)
    {
      users := SeedUsers(now);
      roles := SeedRoles;
      new;
      assert users == SeedUsers(now) && roles == SeedRoles;
      SeedIntact(now);
      SeedIsValid(now);
    }
  }
}
