/**
 * The HTTPException values the core raises: each error has the status code and the
 * `detail` text that the services put into it.
 */
module Errors {

  datatype HttpError =
    | NoRolesAssigned                  // role_checker: the user has no role at all
    | AccessDenied(required: seq<string>) // role_checker: no allowed role among the user's
    | EmailNotRegistered(email: string) // login: no user with that email
    | IncorrectPassword                // login: the password does not verify
    | InvalidRefreshToken              // refresh: no live record, or its hash does not verify
    | RefreshOwnerMissing              // refresh: the record's owner cannot be loaded
    | EmailTaken                       // registration pre-check on the email
    | UsernameTaken                    // registration pre-check on the username
    | UserCreationFailed               // registration: the insert failed at commit
    | TaskNotFound                     // no task with that id owned by the caller
    | TaskCreationFailed               // create_task: the insert failed at commit
    | TaskUpdateFailed                 // update_task: the update failed at commit

  function Status(e: HttpError): (code: nat)
    ensures code in {400, 401, 403, 404, 500}
  {
    match e
    case NoRolesAssigned | AccessDenied(_) => 403
    case IncorrectPassword | InvalidRefreshToken | RefreshOwnerMissing => 401
    case EmailNotRegistered(_) | TaskNotFound => 404
    case EmailTaken | UsernameTaken => 400
    case UserCreationFailed | TaskCreationFailed | TaskUpdateFailed => 500
  }

  /**
   * Python's repr of a list of strings, ['admin', 'user'], for names that hold no
   * quote and no backslash (Python would switch quotes or escape those).
   */
  function ListRepr(names: seq<string>): string {
    "[" + JoinQuoted(names) + "]"
  }

  function JoinQuoted(names: seq<string>): string {
    if names == [] then ""
    else if |names| == 1 then "'" + names[0] + "'"
    else "'" + names[0] + "', " + JoinQuoted(names[1..])
  }

  /**
   * The detail text of each error: never empty, and the login miss echoes the email
   * it was given.
   */
  function Detail(e: HttpError): (d: string)
    ensures |d| > 0
    ensures e.EmailNotRegistered? ==> |d| >= 16 + |e.email| && d[16..16 + |e.email|] == e.email
  {
    match e
    case NoRolesAssigned => "No roles assigned to user"
    case AccessDenied(required) => "Access denied. Required roles: " + ListRepr(required)
    case EmailNotRegistered(email) => "User with email " + email + " does not exists"
    case IncorrectPassword => "Incorrect password, please try again"
    case InvalidRefreshToken => "Invalid or expired refresh token"
    case RefreshOwnerMissing => "User not found"
    case EmailTaken => "Email already exists choose another email"
    case UsernameTaken => "Username already exists choose another username"
    case UserCreationFailed => "Something went wrong when creating the user"
    case TaskNotFound => "Task not found"
    case TaskCreationFailed => "Error creating task: "
    case TaskUpdateFailed => "Error updating task: "
  }

  /** The status codes and detail texts the integration tests expect. */
  lemma KnownAnswers()
    ensures Status(EmailTaken) == 400 && Detail(EmailTaken) == "Email already exists choose another email"
    ensures Status(EmailNotRegistered("wronguser")) == 404
    ensures Detail(EmailNotRegistered("wronguser")) == "User with email wronguser" + " does not exists"
    ensures Status(InvalidRefreshToken) == 401 && Detail(InvalidRefreshToken) == "Invalid or expired refresh token"
  {
  }

  /**
   * 403 is reserved for what a user may do and 401 for who the caller is: a
   * forbidden answer comes only from the role check, an unauthorized one only from
   * the session logic.
   */
  lemma StatusClasses(e: HttpError)
    ensures Status(e) == 403 <==> e.NoRolesAssigned? || e.AccessDenied?
    ensures Status(e) == 401 <==> e.IncorrectPassword? || e.InvalidRefreshToken? || e.RefreshOwnerMissing?
  {
  }
}
