/**
 * The `/user/signup` and `/user/login` handlers. The password hash is a
 * parameter `hash`: a stored hash verifies a password when it is that
 * password's hash.
 */
module UserRoutes {
  import opened Wrappers
  import opened ObjectIds
  import opened Store

  /** `bcrypt.compare(password, stored)`. */
  predicate Verify(hash: string -> string, password: string, stored: string) {
    hash(password) == stored
  }

  /** The hash signup stores for a password is accepted when that password is given again at login. */
  lemma VerifyOwnHash(hash: string -> string, password: string)
    ensures Verify(hash, password, hash(password))
  {
  }

  /**
   * `/signup`: a confirmation that differs from the password is answered with
   * a plain 200 message; otherwise a record with the hashed password and two
   * empty bookmark lists is inserted. The email is not checked for uniqueness.
   */
  function Signup(db: Db, hash: string -> string, email: string, password: string, resetPassword: string): (r: Step)
    ensures r.db.session == db.session
    ensures r.resp.Status() == 200
  {
    if password != resetPassword then
      Step(db, Text(200, "Password does not matched"))
    else
      var id := HexId(|db.order|);
      Step(db.(users := db.users[id := User(email, hash(password), [], [])], order := db.order + [id]),
           Json(200, "User Registered success"))
  }

  /**
   * `/login`: the password is checked against the first record with the
   * email only; on success the session file is overwritten with that record's
   * id and a token carrying the email is returned.
   */
  function Login(db: Db, hash: string -> string, email: string, password: string): (r: Step)
    ensures r.db.users == db.users && r.db.order == db.order
    ensures r.db.session != db.session ==> r.resp.Status() == 200
  {
    var found := FindByEmail(db.users, db.order, email);
    if |found| == 0 then
      Step(db, Json(404, "User not found"))
    else if Verify(hash, password, db.users[found[0]].passwordHash) then
      Step(db.(session := Some(found[0])), Issued(Jwt(db.users[found[0]].email)))
    else
      Step(db, Json(401, "Invalid password"))
  }

  /** A confirmation mismatch answers with the message and creates nothing. */
  lemma SignupMismatch(db: Db, hash: string -> string, email: string, password: string, resetPassword: string)
    requires password != resetPassword
    ensures Signup(db, hash, email, password, resetPassword) == Step(db, Text(200, "Password does not matched"))
  {
  }

  /**
   * A successful signup adds exactly one record, under an id not in use, with
   * the email, `hash(password)` and empty lists;
   * every other record and the session file stay as they were.
   */
  lemma SignupAddsOneRecord(db: Db, hash: string -> string, email: string, password: string)
    requires Valid(db)
    ensures var r := Signup(db, hash, email, password, password);
            var id := HexId(|db.order|);
            && id !in db.users
            && r.db.users.Keys == db.users.Keys + {id}
            && |r.db.users| == |db.users| + 1
            && r.db.users[id] == User(email, hash(password), [], [])
            && (forall other :: other in db.users ==> r.db.users[other] == db.users[other])
            && r.db.session == db.session
            && r.resp == Json(200, "User Registered success")
            && Valid(r.db)
  {
    FreshId(db);
    var r := Signup(db, hash, email, password, password);
    var id := HexId(|db.order|);
    assert r.db.users.Keys == db.users.Keys + {id};
    assert |r.db.users.Keys| == |db.users.Keys| + 1;
    forall other
      ensures other in r.db.users <==> other in r.db.order
    {
      assert other in r.db.order <==> other in db.order || other == id;
    }
  }

  /** Signup keeps the store well formed whatever its inputs. */
  lemma SignupPreservesValid(db: Db, hash: string -> string, email: string, password: string, resetPassword: string)
    requires Valid(db)
    ensures Valid(Signup(db, hash, email, password, resetPassword).db)
  {
  }

  /** After a signup, a query for its email finds what it found before followed by the new record. */
  lemma SignupExtendsFind(db: Db, hash: string -> string, email: string, password: string)
    requires Valid(db)
    ensures var db1 := Signup(db, hash, email, password, password).db;
            FindByEmail(db1.users, db1.order, email) == FindByEmail(db.users, db.order, email) + [HexId(|db.order|)]
  {
    FreshId(db);
    FindByEmailAfterInsert(db.users, db.order, HexId(|db.order|), User(email, hash(password), [], []), email);
  }

  /**
   * Two signups with one email leave two distinct records with that email:
   * a query for it finds both (so, by `FindByEmail`'s contract, both exist
   * and carry the email), the earlier first.
   */
  lemma SignupAllowsDuplicateEmail(db: Db, hash: string -> string, email: string, p1: string, p2: string)
    requires Valid(db)
    ensures var db1 := Signup(db, hash, email, p1, p1).db;
            var db2 := Signup(db1, hash, email, p2, p2).db;
            var a, b := HexId(|db.order|), HexId(|db.order| + 1);
            && a != b
            && FindByEmail(db2.users, db2.order, email) == FindByEmail(db.users, db.order, email) + [a, b]
  {
    var db1 := Signup(db, hash, email, p1, p1).db;
    var db2 := Signup(db1, hash, email, p2, p2).db;
    var a, b := HexId(|db.order|), HexId(|db.order| + 1);
    var found := FindByEmail(db.users, db.order, email);
    var found1 := FindByEmail(db1.users, db1.order, email);
    var found2 := FindByEmail(db2.users, db2.order, email);
    assert found1 == found + [a] by {
      SignupExtendsFind(db, hash, email, p1);
    }
    assert found2 == found1 + [b] by {
      assert |db1.order| == |db.order| + 1;
      SignupPreservesValid(db, hash, email, p1, p1);
      SignupExtendsFind(db1, hash, email, p2);
    }
    assert a != b by {
      if a == b {
        HexIdInjective(|db.order|, |db.order| + 1);
      }
    }
    assert found2 == found + [a, b];
  }

  /** An email with no record answers 404 and changes nothing. */
  lemma LoginUnknownEmail(db: Db, hash: string -> string, email: string, password: string)
    requires forall id :: id in db.users ==> db.users[id].email != email
    ensures Login(db, hash, email, password) == Step(db, Json(404, "User not found"))
  {
  }

  /**
   * The outcome of a login is decided by the first record with the email
   * alone: 404 when there is none, 200 exactly when the password verifies
   * against that record, 401 otherwise. The session file changes only on success,
   * to that record's id, and the token carries the requested email.
   */
  lemma LoginDecidedByFirstMatch(db: Db, hash: string -> string, email: string, password: string)
    ensures var r := Login(db, hash, email, password);
            var found := FindByEmail(db.users, db.order, email);
            && (found == [] ==> r == Step(db, Json(404, "User not found")))
            && ((found != [] && Verify(hash, password, db.users[found[0]].passwordHash))
                ==> r == Step(db.(session := Some(found[0])), Issued(Jwt(email))))
            && ((found != [] && !Verify(hash, password, db.users[found[0]].passwordHash))
                ==> r == Step(db, Json(401, "Invalid password")))
  {
  }

  /**
   * Passwords of later records with the same email are never consulted: if
   * the first record rejects the password, login answers 401 even when a
   * later record accepts it.
   */
  lemma LoginIgnoresLaterDuplicates(db: Db, hash: string -> string, email: string, password: string, later: string)
    requires later in FindByEmail(db.users, db.order, email)
    requires FindByEmail(db.users, db.order, email)[0] != later
    requires !Verify(hash, password, db.users[FindByEmail(db.users, db.order, email)[0]].passwordHash)
    requires Verify(hash, password, db.users[later].passwordHash)
    ensures Login(db, hash, email, password).resp == Json(401, "Invalid password")
    ensures Login(db, hash, email, password).db == db
  {
  }

  /** Signing up and then logging in with the same credentials succeeds when the email was not yet registered. */
  lemma SignupThenLogin(db: Db, hash: string -> string, email: string, password: string)
    requires Valid(db)
    requires FindByEmail(db.users, db.order, email) == []
    ensures var db1 := Signup(db, hash, email, password, password).db;
            var r := Login(db1, hash, email, password);
            && r.resp == Issued(Jwt(email))
            && r.db.session == Some(HexId(|db.order|))
  {
    var id := HexId(|db.order|);
    FreshId(db);
    FindByEmailAfterInsert(db.users, db.order, id, User(email, hash(password), [], []), email);
  }

  /**
   * Because the email is not unique, signing up again with an email that is
   * already registered under another password does not let the new password
   * in: login still checks the earlier record and answers 401.
   */
  lemma SignupShadowedByEarlierRecord(db: Db, hash: string -> string, email: string, password: string)
    requires Valid(db)
    requires FindByEmail(db.users, db.order, email) != []
    requires !Verify(hash, password, db.users[FindByEmail(db.users, db.order, email)[0]].passwordHash)
    ensures var db1 := Signup(db, hash, email, password, password).db;
            Login(db1, hash, email, password).resp == Json(401, "Invalid password")
  {
    var id := HexId(|db.order|);
    FreshId(db);
    var db1 := Signup(db, hash, email, password, password).db;
    FindByEmailAfterInsert(db.users, db.order, id, User(email, hash(password), [], []), email);
    var first := FindByEmail(db.users, db.order, email)[0];
    assert FindByEmail(db1.users, db1.order, email)[0] == first;
    assert first != id;
  }

  /** Whoever logged in before, a successful login leaves the session file naming the user who logged in last. */
  lemma LastLoginWins(db: Db, hash: string -> string, emailA: string, passwordA: string, emailB: string, passwordB: string)
    requires Login(Login(db, hash, emailA, passwordA).db, hash, emailB, passwordB).resp.Issued?
    ensures var db2 := Login(Login(db, hash, emailA, passwordA).db, hash, emailB, passwordB).db;
            && db2 == Login(db, hash, emailB, passwordB).db
            && db2.session == Some(FindByEmail(db.users, db.order, emailB)[0])
  {
  }
}
