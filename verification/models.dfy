/** The records the login handler works on: a stored user row, its
    password-free projection, and the service's error type. */
module Models {

  /** A row of the `users` table: its id, its email and the encoded argon2
      hash of its password. */
  datatype User = User(id: string, email: string, hash: string)

  /** The authenticated principal: the fields of a `User` that are safe to put
      in a session. `LoggedUser` is the same type. */
  datatype SlimUser = SlimUser(id: string, email: string)

  /** The failure reported by the database layer when loading rows. */
  datatype DbError = DbError(message: string)

  /** The error the handlers return. Every credential or session defect is
      `Unauthorized`; a database failure stays distinguishable from it. */
  datatype ServiceError = Unauthorized | DatabaseError(cause: DbError)

  /** The conversion `user.into()` the login query applies to the selected
      row: keeps the identity fields and drops the hash. The `From` impl
      itself is in `src/data/models.rs`, which is not part of this model. */
  function Slim(u: User): SlimUser {
    SlimUser(u.id, u.email)
  }
}
