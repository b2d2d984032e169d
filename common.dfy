/** Values shared by every controller: ids, the caller identity, and handler outcomes. */
module Common {

  /** Entity ids. The database generates them; the model draws them from a counter. */
  type Id = nat

  /** A JSON payload stored verbatim (the order's address snapshot). */
  type Json = string

  /** The empty JSON object `{}`. */
  const EmptyObject: Json := "{}"

  datatype Option<+T> = None | Some(value: T) {
    /** `this ?? default`. */
    function GetOr(default: T): T {
      match this
      case Some(v) => v
      case None => default
    }
  }

  /** The role names stored in the user table. */
  const Roles: set<string> := {"ADMIN", "CUSTOMER", "DRIVER", "RESTAURANT"}

  /** The authenticated caller (`req.user`), resolved by the authentication middleware; `role` is the stored string. */
  datatype User = User(id: Id, role: string)

  /**
   * The client and server errors a handler answers with: 401, 400, 403,
   * 404 and 500 in that order.
   */
  datatype Status = Unauthorized | BadRequest | Forbidden | NotFound | ServerError

  /** A handler's answer: a success body or an error status. */
  datatype Result<+T> = Ok(value: T) | Err(status: Status)
}
