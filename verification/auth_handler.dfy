/** The login handler's decision procedure: which stored row is checked, how
    the password check's outcome is collapsed, how a logged-in session is
    written and how a later request's session is turned back into a user.

    The foreign pieces are parameters: the argon2 check and the server's
    secret key form a `Verifier`, the JSON encoding of a `SlimUser` forms a
    `Codec`, and the rows the database returned are an input. */
module AuthHandler {
  import opened Wrappers
  import opened Models

  /** The credentials posted to `/login`. */
  datatype AuthData = AuthData(email: string, password: string)

  /** Why the hash check could not decide (a malformed encoded hash, an
      unsupported variant, ...); its content is never surfaced. */
  datatype HashError = HashError(reason: string)

  /** The password check the handler delegates to: given the stored encoded
      hash, the plaintext password and the server's secret key, it answers
      whether they match or why it cannot tell. */
  type HashCheck = (string, string, string) -> Result<bool, HashError>

  /** The hash check together with the secret key it is always given. */
  datatype Verifier = Verifier(check: HashCheck, secret: string)

  /** The JSON encoding of a `SlimUser` into the session's identity string,
      and the decoding back. */
  datatype Codec = Codec(encode: SlimUser -> string, decode: string -> Option<SlimUser>)

  /** The assumption the session round trip rests on: decoding what was
      encoded gives back the same user. */
  ghost predicate RoundTrips(c: Codec) {
    forall u: SlimUser :: c.decode(c.encode(u)) == Some(u)
  }

  /** The identity the session middleware extracts from a request; its id may
      be unreadable (`None`). */
  datatype Identity = Identity(id: Option<string>)

  /** Row `j` has the given email and no later row does: it is the row the
      handler selects among duplicates. */
  predicate IsLastMatch(rows: seq<User>, email: string, j: int) {
    && 0 <= j < |rows|
    && rows[j].email == email
    && forall k :: j < k < |rows| ==> rows[k].email != email
  }

  /** At most one row is the last match. */
  lemma LastMatchUnique(rows: seq<User>, email: string, i: int, j: int)
    requires IsLastMatch(rows, email, i) && IsLastMatch(rows, email, j)
    ensures i == j
  {
  }

  /** `verify`: runs the hash check with the secret key; a definite answer is
      passed through unchanged and every failure of the check becomes
      `Unauthorized`. */
  function Verify(v: Verifier, hash: string, password: string): (r: Result<bool, ServiceError>)
    ensures v.check(hash, password, v.secret).Ok? <==> r.Ok?
    ensures r.Ok? ==> r.value == v.check(hash, password, v.secret).value
    ensures r.Err? ==> r.error == Unauthorized
  {
    match v.check(hash, password, v.secret)
    case Ok(b) => Ok(b)
    case Err(_) => Err(Unauthorized)
  }

  /** The rows the `email = auth_data.email` filter keeps, in load order:
      every matching row as often as it occurs (`MatchingCounts`), and no
      other row. The order is pinned by `MatchingDistributes`. */
  function Matching(rows: seq<User>, email: string): (r: seq<User>)
    ensures |r| <= |rows|
    ensures forall i :: 0 <= i < |r| ==> r[i].email == email
    ensures forall u :: u in r <==> u in rows && u.email == email
    decreases |rows|
  {
    if |rows| == 0 then []
    else
      var init := rows[..|rows| - 1];
      var last := rows[|rows| - 1];
      assert rows == init + [last];
      var kept := Matching(init, email);
      if last.email == email then kept + [last] else kept
  }

  /** A single row is kept exactly when it carries the email. */
  lemma MatchingSingle(u: User, email: string)
    ensures Matching([u], email) == if u.email == email then [u] else []
  {
  }

  /** Appending a row appends it to the filtered rows exactly when it
      carries the email. */
  lemma MatchingSnoc(rows: seq<User>, u: User, email: string)
    ensures Matching(rows + [u], email)
         == Matching(rows, email) + (if u.email == email then [u] else [])
  {
  }

  /** Filtering a concatenation filters each part and keeps them in order;
      with `MatchingSingle` this fixes `Matching` as the in-order
      subsequence of matching rows. */
  lemma {:induction false} MatchingDistributes(a: seq<User>, b: seq<User>, email: string)
    ensures Matching(a + b, email) == Matching(a, email) + Matching(b, email)
    decreases |b|
  {
    if |b| == 0 {
      assert a + b == a;
    } else {
      var init := b[..|b| - 1];
      var last := b[|b| - 1];
      assert b == init + [last];
      assert a + b == (a + init) + [last];
      MatchingSnoc(a + init, last, email);
      MatchingSnoc(init, last, email);
      MatchingDistributes(a, init, email);
    }
  }

  /** The filter keeps each matching row exactly as often as it occurs and
      drops every other row. */
  lemma {:induction false} MatchingCounts(rows: seq<User>, email: string)
    ensures forall u :: multiset(Matching(rows, email))[u]
                     == if u.email == email then multiset(rows)[u] else 0
    decreases |rows|
  {
    if |rows| > 0 {
      var init := rows[..|rows| - 1];
      var last := rows[|rows| - 1];
      assert rows == init + [last];
      MatchingSnoc(init, last, email);
      MatchingCounts(init, email);
    }
  }

  /** `Vec::pop` read as a query: the last element, if any. */
  function Pop(items: seq<User>): Option<User> {
    if |items| == 0 then None else Some(items[|items| - 1])
  }

  /** Dropping a trailing row whose email differs does not change which row
      is the last match. */
  lemma LastMatchSkipsMiss(rows: seq<User>, email: string, j: int)
    requires |rows| > 0 && rows[|rows| - 1].email != email
    ensures IsLastMatch(rows, email, j) <==> IsLastMatch(rows[..|rows| - 1], email, j)
  {
  }

  /** The last row `Matching` keeps is the last matching row of the input,
      and `Matching` keeps a row exactly when some row matches. */
  lemma {:induction false} LastOfMatching(rows: seq<User>, email: string)
    ensures |Matching(rows, email)| > 0 <==> exists j :: IsLastMatch(rows, email, j)
    ensures forall j :: IsLastMatch(rows, email, j) ==>
              Pop(Matching(rows, email)) == Some(rows[j])
    decreases |rows|
  {
    if |rows| == 0 {
    } else {
      var n := |rows|;
      var init := rows[..n - 1];
      if rows[n - 1].email == email {
        assert IsLastMatch(rows, email, n - 1);
        assert Pop(Matching(rows, email)) == Some(rows[n - 1]);
      } else {
        LastOfMatching(init, email);
        assert Matching(rows, email) == Matching(init, email);
        forall j
          ensures IsLastMatch(rows, email, j) <==> IsLastMatch(init, email, j)
        {
          LastMatchSkipsMiss(rows, email, j);
        }
      }
    }
  }

  /** `query`: loads the rows with the posted email, checks the password
      against the last of them only, and returns that row's projection when
      the check says it matches. A load failure is returned as is; a missing
      row, a failed check and a wrong password are all `Unauthorized`.
      `table` is the outcome of loading: either a sequence of rows whose
      matching rows appear in the order the query returned them, or the
      load failure. The row named by the `exists` clauses is unique
      (`LastMatchUnique`), so these clauses fix the result. */
  function Query(v: Verifier, auth: AuthData, table: Result<seq<User>, DbError>): (r: Result<SlimUser, ServiceError>)
    ensures table.Err? ==> r == Err(DatabaseError(table.error))
    ensures table.Ok? ==>
              (r.Ok? <==> exists j :: IsLastMatch(table.value, auth.email, j)
                                      && Verify(v, table.value[j].hash, auth.password) == Ok(true))
    ensures r.Ok? ==> table.Ok? && exists j :: IsLastMatch(table.value, auth.email, j)
                                                && r.value == Slim(table.value[j])
    ensures r.Ok? ==> r.value.email == auth.email
    ensures table.Ok? && r.Err? ==> r.error == Unauthorized
  {
    match table
    case Err(e) => Err(DatabaseError(e))
    case Ok(rows) =>
      LastOfMatching(rows, auth.email);
      match Pop(Matching(rows, auth.email))
      case None => Err(Unauthorized)
      case Some(user) =>
        match Verify(v, user.hash, auth.password)
        case Ok(matching) => if matching then Ok(Slim(user)) else Err(Unauthorized)
        case Err(_) => Err(Unauthorized)
  }

  /** `login`: runs `query` and, on success, stores the encoded user as the
      session's identity; on failure the error is returned and no identity
      is established. */
  function Login(v: Verifier, codec: Codec, auth: AuthData, table: Result<seq<User>, DbError>): (r: Result<Identity, ServiceError>)
    ensures r.Ok? <==> Query(v, auth, table).Ok?
    ensures r.Ok? ==> table.Ok? && exists j :: IsLastMatch(table.value, auth.email, j)
                                                && Verify(v, table.value[j].hash, auth.password) == Ok(true)
                                                && r.value.id == Some(codec.encode(Slim(table.value[j])))
    ensures r.Err? ==> r.error == Query(v, auth, table).error
  {
    match Query(v, auth, table)
    case Err(e) => Err(e)
    case Ok(user) => Ok(Identity(Some(codec.encode(user))))
  }

  /** `LoggedUser::from_request`: the request's user is known only when an
      identity is present, its id is readable and the id decodes to a user;
      anything else is `Unauthorized`. No stored row is consulted. */
  function FromRequest(identity: Option<Identity>, codec: Codec): (r: Result<SlimUser, ServiceError>)
    ensures r.Ok? <==> && identity.Some?
                       && identity.value.id.Some?
                       && codec.decode(identity.value.id.value).Some?
    ensures r.Ok? ==> Some(r.value) == codec.decode(identity.value.id.value)
    ensures r.Err? ==> r.error == Unauthorized
  {
    match identity
    case Some(ident) =>
      (match ident.id
       case Some(userJson) =>
        (match codec.decode(userJson)
         case Some(user) => Ok(user)
         case None => Err(Unauthorized))
       case None => Err(Unauthorized))
    case None => Err(Unauthorized)
  }
}
