/** Properties of the login handler that relate several calls: which row is
    ever checked, which outcomes are indistinguishable, and the session
    round trip from `login` to `from_request`. */
module AuthProperties {
  import opened Wrappers
  import opened Models
  import opened AuthHandler

  /** An email no stored row has is refused with `Unauthorized`. */
  lemma QueryUnknownEmail(v: Verifier, auth: AuthData, rows: seq<User>)
    requires forall i :: 0 <= i < |rows| ==> rows[i].email != auth.email
    ensures Query(v, auth, Ok(rows)) == Err(Unauthorized)
  {
  }

  /** Only the last matching row reaches the hash check: two verifiers whose
      `verify` answers alike on that row give the same outcome, however they
      differ on every other hash, earlier duplicates included. */
  lemma QueryChecksOnlyLastMatch(v1: Verifier, v2: Verifier, auth: AuthData, rows: seq<User>, j: int)
    requires IsLastMatch(rows, auth.email, j)
    requires Verify(v1, rows[j].hash, auth.password) == Verify(v2, rows[j].hash, auth.password)
    ensures Query(v1, auth, Ok(rows)) == Query(v2, auth, Ok(rows))
  {
  }

  /** When row `j` is the last match, the outcome is decided by the check on
      that row alone: its projection when the check says the password
      matches, `Unauthorized` otherwise. */
  lemma QueryAtLastMatch(v: Verifier, auth: AuthData, rows: seq<User>, j: int)
    requires IsLastMatch(rows, auth.email, j)
    ensures Query(v, auth, Ok(rows))
         == if Verify(v, rows[j].hash, auth.password) == Ok(true) then Ok(Slim(rows[j])) else Err(Unauthorized)
  {
  }

  /** Rows loaded before a later row with the same email never matter: the
      outcome is that of the table without them. */
  lemma QueryIgnoresEarlierRows(v: Verifier, auth: AuthData, earlier: seq<User>, rows: seq<User>, j: int)
    requires IsLastMatch(rows, auth.email, j)
    ensures Query(v, auth, Ok(earlier + rows)) == Query(v, auth, Ok(rows))
  {
    var all := earlier + rows;
    var m := |earlier| + j;
    assert all[m] == rows[j];
    forall k | m < k < |all|
      ensures all[k].email != auth.email
    {
      assert all[k] == rows[k - |earlier|];
    }
    assert IsLastMatch(all, auth.email, m);
    QueryAtLastMatch(v, auth, all, m);
    QueryAtLastMatch(v, auth, rows, j);
  }

  /** A check that errors on the selected row, a check that says the
      password is wrong, and an email with no row at all give one and the
      same result value. */
  lemma QueryFailuresCollapse(
    broken: Verifier, rejecting: Verifier, auth: AuthData, rows: seq<User>, unknown: seq<User>, j: int)
    requires IsLastMatch(rows, auth.email, j)
    requires broken.check(rows[j].hash, auth.password, broken.secret).Err?
    requires rejecting.check(rows[j].hash, auth.password, rejecting.secret) == Ok(false)
    requires forall i :: 0 <= i < |unknown| ==> unknown[i].email != auth.email
    ensures Query(broken, auth, Ok(rows)) == Query(rejecting, auth, Ok(rows))
    ensures Query(rejecting, auth, Ok(rows)) == Query(broken, auth, Ok(unknown))
    ensures Query(broken, auth, Ok(rows)) == Err(Unauthorized)
  {
    QueryAtLastMatch(broken, auth, rows, j);
    QueryAtLastMatch(rejecting, auth, rows, j);
    QueryUnknownEmail(broken, auth, unknown);
  }

  /** A load failure is reported before any check: the outcome is the
      database error whatever the verifier, and it is not `Unauthorized`. */
  lemma QueryLoadFailureSkipsVerify(v1: Verifier, v2: Verifier, auth: AuthData, e: DbError)
    ensures Query(v1, auth, Err(e)) == Query(v2, auth, Err(e))
    ensures Query(v1, auth, Err(e)) != Err(Unauthorized)
  {
  }

  /** Two hash checks that fail, for whatever reasons, are reported alike. */
  lemma VerifyHidesCause(v1: Verifier, v2: Verifier, hash: string, password: string)
    requires v1.check(hash, password, v1.secret).Err?
    requires v2.check(hash, password, v2.secret).Err?
    ensures Verify(v1, hash, password) == Verify(v2, hash, password) == Err(Unauthorized)
  {
  }

  /** The session `login` establishes carries the user `query` returned:
      when the codec round-trips, `from_request` on it yields that user. */
  lemma LoginThenFromRequest(v: Verifier, codec: Codec, auth: AuthData, table: Result<seq<User>, DbError>)
    requires RoundTrips(codec)
    ensures Login(v, codec, auth, table).Ok? ==>
              FromRequest(Some(Login(v, codec, auth, table).value), codec) == Query(v, auth, table)
  {
  }

  /** Two users share an email; the password matches only the earlier row's
      hash. The handler checks the later row and refuses the login. */
  lemma DuplicateEmailScenario()
    ensures
      var early := User("1", "a@x.com", "H-secret");
      var late := User("2", "a@x.com", "H-other");
      var v := Verifier((h: string, p: string, s: string) => Ok(h == "H-" + p), "pepper");
      && Query(v, AuthData("a@x.com", "secret"), Ok([early, late])) == Err(Unauthorized)
      && Query(v, AuthData("a@x.com", "other"), Ok([early, late])) == Ok(SlimUser("2", "a@x.com"))
  {
  }

  /** One stored user whose hash matches the password "secret": the right
      password logs in and the next request sees a user with that email; a
      wrong password and an unknown email are refused alike. */
  lemma LoginScenario(codec: Codec)
    requires RoundTrips(codec)
    ensures
      var rows := [User("7", "a@x.com", "H-secret")];
      var v := Verifier((h: string, p: string, s: string) => Ok(h == "H-" + p), "pepper");
      var session := Login(v, codec, AuthData("a@x.com", "secret"), Ok(rows));
      && session.Ok?
      && FromRequest(Some(session.value), codec) == Ok(SlimUser("7", "a@x.com"))
      && Login(v, codec, AuthData("a@x.com", "wrong"), Ok(rows)) == Err(Unauthorized)
      && Login(v, codec, AuthData("b@x.com", "secret"), Ok(rows)) == Err(Unauthorized)
  {
  }
}
