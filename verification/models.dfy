/**
 * The tables of the tracker as an in-memory store. Rows that the core only reads or
 * inserts are values; rows whose columns the core changes in place (a user's role
 * list, a task's editable columns) are objects.
 */
module Models {
  import opened Wrappers
  import opened Uuids

  /** A row of `roles`: its name is unique across the table. */
  datatype Role = Role(id: Uuid, name: string, description: Option<string>)

  /** A row of `refresh_tokens`: only the hash of the secret is kept. */
  datatype RefreshToken = RefreshToken(userId: Uuid, tokenHash: string, expiresAt: int)

  /** A row of `users` with its `roles` relationship loaded. */
  class User {
    const id: Uuid
    const email: string
    const username: string
    const fullName: string
    const password: string   // the stored hash, never the plain password
    const isActive: bool
    var roles: seq<Role>

    constructor (id: Uuid, email: string, username: string, fullName: string, password: string)
      ensures this.id == id && this.email == email && this.username == username
      ensures this.fullName == fullName && this.password == password
      ensures isActive && roles == []
    {
      this.id := id;
      this.email := email;
      this.username := username;
      this.fullName := fullName;
      this.password := password;
      this.isActive := true;
      this.roles := [];
    }
  }

  /** A row of `tasks`. None in description or isCompleted stands for SQL NULL. */
  class Task {
    const id: Uuid
    const userId: Uuid
    const createdAt: int
    var title: string
    var description: Option<string>
    var isCompleted: Option<bool>

    constructor (id: Uuid, userId: Uuid, title: string, description: Option<string>, createdAt: int)
      ensures this.id == id && this.userId == userId && this.createdAt == createdAt
      ensures this.title == title && this.description == description
      ensures isCompleted == Some(false)
    {
      this.id := id;
      this.userId := userId;
      this.createdAt := createdAt;
      this.title := title;
      this.description := description;
      this.isCompleted := Some(false);
    }
  }

  predicate UniqueRoleIds(roles: seq<Role>) {
    forall i, j :: 0 <= i < j < |roles| ==> roles[i].id != roles[j].id
  }

  predicate UniqueRoleNames(roles: seq<Role>) {
    forall i, j :: 0 <= i < j < |roles| ==> roles[i].name != roles[j].name
  }

  predicate UniqueUserIds(users: seq<User>) {
    forall i, j :: 0 <= i < j < |users| ==> users[i].id != users[j].id
  }

  predicate UniqueEmails(users: seq<User>) {
    forall i, j :: 0 <= i < j < |users| ==> users[i].email != users[j].email
  }

  predicate UniqueUsernames(users: seq<User>) {
    forall i, j :: 0 <= i < j < |users| ==> users[i].username != users[j].username
  }

  predicate UniqueTaskIds(tasks: seq<Task>) {
    forall i, j :: 0 <= i < j < |tasks| ==> tasks[i].id != tasks[j].id
  }

  /** The unique columns of `users` a lookup can filter on, with the value sought. */
  datatype UserKey = ById(id: Uuid) | ByEmail(email: string) | ByUsername(username: string)

  predicate HasKey(u: User, key: UserKey) {
    match key
    case ById(id) => u.id == id
    case ByEmail(email) => u.email == email
    case ByUsername(username) => u.username == username
  }

  /** No element occurs twice. */
  predicate NoRepeats<T(==)>(s: seq<T>) {
    forall i, j :: 0 <= i < j < |s| ==> s[i] != s[j]
  }

  /** select(User).where(<column> == <value>): the first user matching key, if any. */
  function UserWhere(users: seq<User>, key: UserKey): (r: Option<User>)
    ensures r.Some? ==> r.value in users && HasKey(r.value, key)
    ensures r.None? <==> forall u :: u in users ==> !HasKey(u, key)
  {
    if users == [] then None
    else if HasKey(users[0], key) then Some(users[0])
    else UserWhere(users[1..], key)
  }

  function UserWithId(users: seq<User>, id: Uuid): Option<User> {
    UserWhere(users, ById(id))
  }

  function UserWithEmail(users: seq<User>, email: string): Option<User> {
    UserWhere(users, ByEmail(email))
  }

  function UserWithUsername(users: seq<User>, username: string): Option<User> {
    UserWhere(users, ByUsername(username))
  }

  /** Under a unique column, the row a lookup finds is the only one that matches. */
  lemma UserWithIdUnique(users: seq<User>, u: User)
    requires UniqueUserIds(users) && u in users
    ensures UserWithId(users, u.id) == Some(u)
  {
  }

  lemma UserWithEmailUnique(users: seq<User>, u: User)
    requires UniqueEmails(users) && u in users
    ensures UserWithEmail(users, u.email) == Some(u)
  {
  }

  /**
   * The database session. The uniqueness constraints of the schema (the primary keys
   * users.id, roles.id and tasks.id, and users.email, users.username, roles.name) are
   * its invariant.
   */
  class Db {
    var users: seq<User>
    var roles: seq<Role>
    var refreshTokens: seq<RefreshToken>
    var tasks: seq<Task>

    ghost predicate Valid()
      reads this
    {
      && UniqueUserIds(users) && UniqueEmails(users) && UniqueUsernames(users)
      && UniqueRoleIds(roles) && UniqueRoleNames(roles)
      && UniqueTaskIds(tasks)
    }

    /** A fresh database holding the seeded roles. */
    constructor (roles: seq<Role>)
      requires UniqueRoleIds(roles) && UniqueRoleNames(roles)
      ensures Valid()
      ensures this.roles == roles && users == [] && refreshTokens == [] && tasks == []
    {
      this.roles := roles;
      users := [];
      refreshTokens := [];
      tasks := [];
    }
  }
}
