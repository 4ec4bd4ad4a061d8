/**
 * Properties of sequences of requests that cross the two route files: the
 * session file written by `/login` decides whose lists the bookmark handlers
 * change.
 */
module Scenarios {
  import opened Wrappers
  import opened ObjectIds
  import opened Store
  import opened UserRoutes
  import opened BookmarkRoutes

  /** After a successful login the bookmark handlers act on exactly the record that login matched. */
  lemma LoginSelectsBookmarkTarget(db: Db, hash: string -> string, email: string, password: string)
    requires Valid(db)
    requires Login(db, hash, email, password).resp.Issued?
    ensures var db1 := Login(db, hash, email, password).db;
            && CurrentUser(db1) == Some(FindByEmail(db.users, db.order, email)[0])
            && CurrentUser(db1).value in db1.users
  {
    var id := FindByEmail(db.users, db.order, email)[0];
    StoredIdSurvivesTrim(db, id);
  }

  /**
   * Login as A, then login as B, then add a movie: the bookmark lands on B's
   * record (the first record with B's email), and no other record changes,
   * whoever sent the request.
   */
  lemma BookmarkFollowsLastLogin(db: Db, hash: string -> string, emailA: string, passwordA: string,
                                 emailB: string, passwordB: string, m: string)
    requires Valid(db) && m != ""
    requires Login(db, hash, emailA, passwordA).resp.Issued?
    requires Login(Login(db, hash, emailA, passwordA).db, hash, emailB, passwordB).resp.Issued?
    ensures var db2 := Login(Login(db, hash, emailA, passwordA).db, hash, emailB, passwordB).db;
            var b := FindByEmail(db.users, db.order, emailB)[0];
            var db3 := Update(db2, Movie, Push, Some(m)).db;
            && db3.users[b].movie == db.users[b].movie + [m]
            && forall id :: id in db.users && id != b ==> db3.users[id] == db.users[id]
  {
    var db1 := Login(db, hash, emailA, passwordA).db;
    var db2 := Login(db1, hash, emailB, passwordB).db;
    LastLoginWins(db, hash, emailA, passwordA, emailB, passwordB);
    LoginSelectsBookmarkTarget(db, hash, emailB, passwordB);
    AddAppends(db2, Movie, m);
  }

  /** Signup then login, on a store without a record for the email, points the handlers at the new, empty record. */
  lemma SignupThenLoginTargetsNewRecord(db: Db, hash: string -> string, email: string, password: string)
    requires Valid(db)
    requires FindByEmail(db.users, db.order, email) == []
    ensures var s1 := Signup(db, hash, email, password, password);
            var s2 := Login(s1.db, hash, email, password);
            var id := HexId(|db.order|);
            && s1.resp == Json(200, "User Registered success")
            && s2.resp == Issued(Jwt(email))
            && CurrentUser(s2.db) == Some(id)
            && id in s2.db.users && s2.db.users[id].movie == [] && s2.db.users[id].tvSeries == []
  {
    var s1 := Signup(db, hash, email, password, password);
    var s2 := Login(s1.db, hash, email, password);
    var id := HexId(|db.order|);
    assert Valid(s1.db) && id in s1.db.users && s1.db.users[id] == User(email, hash(password), [], []) by {
      SignupAddsOneRecord(db, hash, email, password);
    }
    assert s2.resp == Issued(Jwt(email)) && s2.db.session == Some(id) by {
      SignupThenLogin(db, hash, email, password);
    }
    assert CurrentUser(s2.db) == Some(id) by {
      StoredIdSurvivesTrim(s1.db, id);
    }
  }

  /** From an empty movie list: add `m`, add `m` again, remove `m` gives `[m]`, `[m, m]`, then `[]`. */
  lemma AddAddRemoveFromEmpty(db: Db, m: string)
    requires CurrentUser(db).Some? && CurrentUser(db).value in db.users && m != ""
    requires db.users[CurrentUser(db).value].movie == []
    ensures var id := CurrentUser(db).value;
            var db3 := Update(db, Movie, Push, Some(m)).db;
            var db4 := Update(db3, Movie, Push, Some(m)).db;
            var db5 := Update(db4, Movie, Pull, Some(m)).db;
            && db3.users[id].movie == [m]
            && db4.users[id].movie == [m, m]
            && db5.users[id].movie == []
  {
    AddAppends(db, Movie, m);
    AddTwiceKeepsDuplicates(db, Movie, m);
    RemoveAfterAdds(db, Movie, m);
    assert [] + [m] == [m] && [] + [m, m] == [m, m];
  }

  /**
   * On a store without a record for the email: signup, login, add `m` twice,
   * remove `m`. The list goes from empty to `[m]`, `[m, m]` and back to
   * empty, and every response is a success.
   */
  lemma SignupLoginAddAddRemove(db: Db, hash: string -> string, email: string, password: string, m: string)
    requires Valid(db) && m != ""
    requires FindByEmail(db.users, db.order, email) == []
    ensures var s2 := Login(Signup(db, hash, email, password, password).db, hash, email, password);
            var s3 := Update(s2.db, Movie, Push, Some(m));
            var s4 := Update(s3.db, Movie, Push, Some(m));
            var s5 := Update(s4.db, Movie, Pull, Some(m));
            var id := HexId(|db.order|);
            && s2.resp == Issued(Jwt(email))
            && s3.db.users[id].movie == [m]
            && s4.db.users[id].movie == [m, m]
            && s5.resp == Text(200, "Bookmark removed successfully") && s5.db.users[id].movie == []
  {
    var s2 := Login(Signup(db, hash, email, password, password).db, hash, email, password);
    SignupThenLoginTargetsNewRecord(db, hash, email, password);
    AddAddRemoveFromEmpty(s2.db, m);
  }

  /** One `/user/signup` request body. */
  datatype SignupRequest = SignupRequest(email: string, password: string, resetPassword: string)

  /** The store after the signup requests `reqs`, answered in order. */
  function SignupAll(db: Db, hash: string -> string, reqs: seq<SignupRequest>): Db
    decreases |reqs|
  {
    if reqs == [] then db
    else
      var req := reqs[0];
      SignupAll(Signup(db, hash, req.email, req.password, req.resetPassword).db, hash, reqs[1..])
  }

  /**
   * Until a login succeeds, any number of signups leave the session file
   * missing, and every bookmark handler answers 500 without a change.
   */
  lemma {:induction false} NoLoginNoBookmarks(db: Db, hash: string -> string, reqs: seq<SignupRequest>,
                                              kind: Kind, op: Op, movieId: Option<string>)
    requires db.session == None
    ensures var db' := SignupAll(db, hash, reqs);
            && db'.session == None
            && Update(db', kind, op, movieId) == Step(db', Text(500, "Error reading file"))
            && Query(db', kind) == Text(500, "Error reading file")
    decreases |reqs|
  {
    if reqs != [] {
      var req := reqs[0];
      NoLoginNoBookmarks(Signup(db, hash, req.email, req.password, req.resetPassword).db, hash, reqs[1..],
                         kind, op, movieId);
    }
  }
}
