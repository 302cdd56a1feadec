/**
 * Registration and the user listing.
 */
module UserService {
  import opened Wrappers
  import opened Uuids
  import opened Errors
  import opened Models
  import opened Security

  /** The UserCreate body; role_names defaults to ["user"] but is not used here. */
  datatype UserCreate = UserCreate(
    email: string, username: string, fullName: string, password: string, roleNames: seq<string>)

  /**
   * The checks create_user makes before it commits, in order: the email, then the
   * username (both pre-checks, 400), then the primary key, whose collision makes
   * the commit fail (500). `newId` is the uuid4 the insert draws.
   */
  function RegistrationError(users: seq<User>, user: UserCreate, newId: Uuid): (e: Option<HttpError>)
    ensures e.None? <==>
      forall u :: u in users ==> u.email != user.email && u.username != user.username && u.id != newId
    ensures (exists u :: u in users && u.email == user.email) ==> e == Some(EmailTaken)
    ensures ((forall u :: u in users ==> u.email != user.email)
      && (exists u :: u in users && u.username == user.username)) ==> e == Some(UsernameTaken)
    ensures ((forall u :: u in users ==> u.email != user.email && u.username != user.username)
      && (exists u :: u in users && u.id == newId)) ==> e == Some(UserCreationFailed)
  {
    if UserWithEmail(users, user.email).Some? then Some(EmailTaken)
    else if UserWithUsername(users, user.username).Some? then Some(UsernameTaken)
    else if UserWithId(users, newId).Some? then Some(UserCreationFailed)
    else None
  }

  /**
   * create_user: a failed check leaves the table as it was; otherwise exactly one
   * user is added, with the password hashed. The requested role names are not
   * assigned: the new user has no roles.
   */
  method CreateUser(db: Db, c: Crypto, user: UserCreate, newId: Uuid) returns (r: Result<User, HttpError>)
    requires db.Valid()
    modifies db`users
    ensures db.Valid()
    ensures r.Failure? <==> RegistrationError(old(db.users), user, newId).Some?
    ensures r.Failure? ==>
      r.error == RegistrationError(old(db.users), user, newId).value && db.users == old(db.users)
    ensures r.Success? ==>
      && fresh(r.value)
      && db.users == old(db.users) + [r.value]
      && r.value.id == newId && r.value.email == user.email && r.value.username == user.username
      && r.value.fullName == user.fullName && r.value.password == HashPassword(c, user.password)
      && r.value.isActive && r.value.roles == []
  {
    if UserWithEmail(db.users, user.email).Some? {
      return Failure(EmailTaken);
    }
    if UserWithUsername(db.users, user.username).Some? {
      return Failure(UsernameTaken);
    }
    if UserWithId(db.users, newId).Some? {
      return Failure(UserCreationFailed);
    }
    forall i | 0 <= i < |db.users|
      ensures db.users[i].id != newId && db.users[i].email != user.email
      ensures db.users[i].username != user.username
    {
      assert db.users[i] in db.users;
    }
    var created := new User(newId, user.email, user.username, user.fullName, HashPassword(c, user.password));
    db.users := db.users + [created];
    r := Success(created);
  }

  /** Registering an email twice: the second attempt is refused with the email error. */
  lemma DuplicateEmailRefused(users: seq<User>, u: User, user: UserCreate, newId: Uuid)
    requires u in users && user.email == u.email
    ensures RegistrationError(users, user, newId) == Some(EmailTaken)
    ensures Status(EmailTaken) == 400 && Detail(EmailTaken) == "Email already exists choose another email"
  {
  }

  /** get_all_users: every stored user, in table order. */
  function GetAllUsers(users: seq<User>): (all: seq<User>)
    ensures all == users
  {
    users
  }
}
