/** Values shared by the server modules: optional values, record identifiers, and
    the failures the controllers and middleware answer with, each with its HTTP
    status code. */
module Common {

  datatype Option<T> = None | Some(value: T)

  /** A document's ObjectId, opaque apart from equality. */
  type Id = nat

  /** Every failure answer of the server core.  The comment gives the status code
      and the message the server sends, in English. */
  datatype Failure =
    | MissingFields         // 400 "all fields are required"
    | DuplicateEmail        // 400 "a user with this email already exists"
    | InvalidData           // 400 "invalid data" (a Mongoose ValidationError)
    | UserNotFound          // 404 "user not found"
    | UserServerError       // 500 (the unique email index refusing a duplicate key)
    | MissingToken          // 401 "access denied, token missing"
    | InvalidToken          // 401 "invalid token"
    | InactiveAccount       // 401 "invalid token or inactive administrator"
    | SuperAdminRequired    // 403 "SuperAdmin privileges required"
    | AdminRequired         // 403 "administrator privileges required"
    | PrivilegeCheckFailed  // 500 "server error while checking privileges"
    | MissingCredentials    // 400 "username and password required"
    | InvalidCredentials    // 401 "invalid credentials"
    | AdminNotFound         // 404 "administrator not found"
    | CreateAdminForbidden  // 403 "only the SuperAdmin may create administrators"
    | ListAdminsForbidden   // 403 "only the SuperAdmin may list administrators"
    | AdminExists           // 400 "an administrator with this username or email exists"
    | AdminServerError      // 500 "server error" (createAdmin and getAdmins catch-alls)

  function StatusCode(f: Failure): int {
    match f
    case MissingFields | DuplicateEmail | InvalidData | MissingCredentials | AdminExists => 400
    case MissingToken | InvalidToken | InactiveAccount | InvalidCredentials => 401
    case SuperAdminRequired | AdminRequired | CreateAdminForbidden | ListAdminsForbidden => 403
    case UserNotFound | AdminNotFound => 404
    case UserServerError | PrivilegeCheckFailed | AdminServerError => 500
  }

  /** The answer of one controller or middleware step. */
  datatype Result<T> = Ok(value: T) | Err(failure: Failure)
}
