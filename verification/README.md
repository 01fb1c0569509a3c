# Login handler authentication model

A Dafny model of the authentication handler of arguflow
(`src/handlers/auth_handler.rs`). It covers the decision `query` makes for a
posted email/password pair, the error mapping in `verify`, the session
identity `login` stores, and the way `LoggedUser::from_request` turns a later
request's session identity back into a user.

The foreign pieces are parameters:

- The argon2 check (`argon2::verify_encoded_ext`) and the server secret key
  (`register_handler::SECRET_KEY`) together form a `Verifier`. Its `check`
  field is an arbitrary total function
  `(hash, password, secret) -> Result<bool, HashError>`.
- The serde_json encoding and decoding of a `SlimUser` form a `Codec`. The
  round trip `decode(encode(u)) == Some(u)` is only an assumption
  (`RoundTrips`), and only the session lemmas require it.
- The database load is an input `Result<seq<User>, DbError>`. It holds
  either a sequence of rows or the load failure. The model applies the
  `email = auth_data.email` filter itself. The query has no `ORDER BY`, so
  the order of the rows it returns is unspecified. The input stands for one
  table order whose matching rows appear in the order the query returned
  them.
- The identity the session middleware extracts is an input
  `Option<Identity>`. Its id may be unreadable (`None`).

Files:

- `wrappers.dfy`: `Option` and `Result`.
- `models.dfy`: `User`, `SlimUser`, `DbError`, `ServiceError` and the
  `User -> SlimUser` projection.
- `auth_handler.dfy`: the handler's operations.
- `auth_properties.dfy`: lemmas that relate several calls.

`src/errors.rs` and `src/data/models.rs` are not part of this model. So
`ServiceError` is modelled only as far as this handler uses it:
`Unauthorized`, plus `DatabaseError(cause)` for whatever the diesel error
converts to through `?`. `User` is modelled as (id, email, hash), and
`SlimUser` as its hash-free part (id, email).

On duplicate emails the code takes the last row that `items.pop()` returns,
and the model does the same: it selects the last matching row in load order,
and it proves that no earlier row is ever checked or returned.

## Model

| member | source | states |
|---|---|---|
| `AuthHandler.Verify` | src/handlers/auth_handler.rs:44-51 | The result is `Ok` exactly when the hash check, given the secret key, gives a definite answer, and then it is that same boolean. Every check failure becomes `Unauthorized`. |
| `AuthHandler.Matching` | src/handlers/auth_handler.rs:80-82 | The filtered rows all carry the posted email. A row is kept exactly when it is in the table with that email. |
| `AuthHandler.MatchingCounts` | src/handlers/auth_handler.rs:80-82 | Every row with the posted email is kept as often as it occurs in the table, and no other row is kept. |
| `AuthHandler.MatchingSnoc` | src/handlers/auth_handler.rs:80-82 | A row appended to the table is appended to the filtered rows exactly when it carries the posted email. |
| `AuthHandler.MatchingDistributes` | src/handlers/auth_handler.rs:80-82 | Filtering a concatenation gives the filtered parts in the same order. Together with `MatchingSingle`, this makes the filter the in-order subsequence of matching rows. |
| `AuthHandler.MatchingSingle` | src/handlers/auth_handler.rs:80-82 | A single row is kept exactly when its email is the posted one. |
| `AuthHandler.LastMatchUnique` | src/handlers/auth_handler.rs:84 | At most one row is the last match, so the row `pop` selects, and the result `Query` states in terms of it, is unique. |
| `AuthHandler.LastOfMatching` | src/handlers/auth_handler.rs:80-84 | `pop` on the filtered rows yields something exactly when some row of the table has the email. It yields the last such row in load order. |
| `AuthHandler.Query` | src/handlers/auth_handler.rs:75-92 | A load failure is returned as the database error. Otherwise the result is `Ok` iff the last matching row exists and `verify` on its hash and the password is `Ok(true)`. The value is that row's projection, so it carries the posted email. Every other outcome is `Unauthorized`. |
| `AuthHandler.Login` | src/handlers/auth_handler.rs:58-69 | Login succeeds exactly when `query` does. The identity it stores is the encoding of the last matching row's projection, and that row's check said `Ok(true)`. On failure, `query`'s error is returned and no identity is stored. |
| `AuthHandler.FromRequest` | src/handlers/auth_handler.rs:31-41 | The result is `Ok` exactly when an identity is present, its id is readable and the id decodes. The user is then the decoded one. Every failing step gives `Unauthorized`. The function takes no stored rows as input. |
| `AuthProperties.QueryUnknownEmail` | src/handlers/auth_handler.rs:80-91 | If no row has the posted email, the result is `Unauthorized`. |
| `AuthProperties.QueryAtLastMatch` | src/handlers/auth_handler.rs:84-91 | With row `j` as the last match, the result is `Ok(Slim(row j))` if `verify` on that row says `Ok(true)`, and `Unauthorized` otherwise. |
| `AuthProperties.QueryChecksOnlyLastMatch` | src/handlers/auth_handler.rs:84-87 | Two verifiers whose `verify` answers agree on the last matching row give the same result, even when their underlying failures differ, and however they differ on every other hash, earlier duplicates included. So only that row reaches the check. |
| `AuthProperties.QueryIgnoresEarlierRows` | src/handlers/auth_handler.rs:80-87 | Rows loaded before a later row with the same email never change the result. |
| `AuthProperties.QueryFailuresCollapse` | src/handlers/auth_handler.rs:84-91 | A check error on the selected row, an `Ok(false)` on it, and an unknown email all give the identical `Err(Unauthorized)`. |
| `AuthProperties.QueryLoadFailureSkipsVerify` | src/handlers/auth_handler.rs:80-82 | On a load failure the result does not depend on the verifier, so no check influences it. That result is not `Unauthorized`. |
| `AuthProperties.VerifyHidesCause` | src/handlers/auth_handler.rs:44-50 | Two hash checks that fail, for any reasons, give the same `Unauthorized`. |
| `AuthProperties.LoginThenFromRequest` | src/handlers/auth_handler.rs:63-66 | If the codec round-trips, `from_request` on the identity that `login` stored yields exactly the user `query` returned. |
| `AuthProperties.DuplicateEmailScenario` | src/handlers/auth_handler.rs:84-88 | Take two rows with one email. The password that matches only the earlier row's hash is refused. The password that matches the later row's hash logs in as the later row. |
| `AuthProperties.LoginScenario` | src/handlers/auth_handler.rs:58-92 | Take one stored user. The right password logs in, and the next request sees that user. A wrong password and an unknown email are both `Unauthorized`. |

## Left out

- argon2 internals: hashing, parsing of salt and parameters, and constant-time comparison. These are foreign library code, so the check is an arbitrary function parameter. The associated-data argument (always empty) is not modelled.
- The value of `SECRET_KEY`: it is a constant defined in another file, so it is a field of `Verifier`.
- The password's conversion to bytes (`as_bytes`): the check takes the password as a string.
- The serde_json format: it is a foreign library, so encoding and decoding are parameters. Their round trip is only a `requires`.
- The panics of `serde_json::to_string(..).unwrap()` and `Identity::login(..).unwrap()`: these abort the handler, so the model treats encoding and session login as always succeeding.
- The `pool.get().unwrap()` failure: it panics inside the `web::block` closure, which returns it as a `BlockingError`, so `login` fails with an error response. The model drops this failure path of `login`, like the `web::block` line below.
- The `dbg!` logging of the hash-check error: it is a logging side effect.
- `web::block` and the outer `?` on its `BlockingError`: these are thread-pool offload and async plumbing.
- The SQL query and the connection pool: database I/O. The loaded table or the load failure is an input instead.
- How the database error converts into `ServiceError`: `src/errors.rs` is not part of this model, so the failure is a distinct `DatabaseError` variant carrying the cause.
- `logout` and `get_me`: framework calls with no decision logic. `get_me` answers with the `FromRequest` user. A request after logout has no identity, which `FromRequest` refuses with `Unauthorized`.
- HTTP responses (`204 No Content`, the JSON body, status codes): these are framework code.
- How actix-identity finds a session identity: the extracted `Option<Identity>` is an input instead.
- `AuthHandler.Query`: the email filter is modelled as exact string equality. The column type and collation are not in this repository's handler code, and a case-insensitive comparison in the database would let rows whose email differs from the posted one in case through.
- Response time: the model compares result values only. With no matching row, `query` skips the hash check, so the deliberately slow argon2 work never runs. That refusal can be measurably faster than the one for a wrong password. `AuthProperties.QueryFailuresCollapse` says nothing about timing.
