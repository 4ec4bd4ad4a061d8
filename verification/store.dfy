/**
 * The state the handlers share: the user collection of the credential store
 * and the session file `userData.txt`.
 */
module Store {
  import opened Wrappers
  import opened Text
  import opened ObjectIds

  /**
   * A user document. The document's `bookmark` array always holds exactly one
   * entry (signup creates it, nothing adds or removes entries), so its two
   * lists are kept here as the fields `movie` and `tvSeries`.
   */
  datatype User = User(email: string, passwordHash: string, movie: seq<string>, tvSeries: seq<string>)

  /** Which of the two bookmark lists a handler works on. */
  datatype Kind = Movie | TvSeries

  /** The signed token; its payload is `{ data: email }`. */
  datatype Token = Jwt(data: string)

  /** What a handler sends back. */
  datatype Response =
    | Text(code: int, body: string)    // res.status(code).send('...'), or res.send('...') with 200
    | Json(code: int, msg: string)     // res.status(code).send({ msg: ... })
    | Issued(token: Token)             // res.status(200).send({ token })
    | List(items: seq<string>)         // res.send(array)
  {
    function Status(): int {
      match this
      case Text(c, _) => c
      case Json(c, _) => c
      case Issued(_) => 200
      case List(_) => 200
    }
  }

  /**
   * The whole state: the records by id, the ids in the order the records were
   * created (the order in which `find` returns them), and the session file,
   * `None` while it is missing or unreadable.
   */
  datatype Db = Db(users: map<string, User>, order: seq<string>, session: Option<string>)

  /** The result of one handler: the new state and the response. */
  datatype Step = Step(db: Db, resp: Response)

  /** The `n`-th record created carries id `HexId(n)`, and the records are exactly those listed in `order`. */
  ghost predicate Valid(db: Db) {
    (forall i :: 0 <= i < |db.order| ==> db.order[i] == HexId(i))
    && (forall id :: id in db.users <==> id in db.order)
  }

  /** A freshly started service: no records and no session file. */
  function Empty(): (db: Db)
    ensures Valid(db) && db.session == None && db.users == map[]
  {
    Db(map[], [], None)
  }

  function Bookmarks(u: User, kind: Kind): seq<string> {
    match kind
    case Movie => u.movie
    case TvSeries => u.tvSeries
  }

  /** `u` with the list named by `kind` replaced by `list`. */
  function WithBookmarks(u: User, kind: Kind, list: seq<string>): (v: User)
    ensures Bookmarks(v, kind) == list
    ensures v.email == u.email && v.passwordHash == u.passwordHash
    ensures kind == Movie ==> v.tvSeries == u.tvSeries
    ensures kind == TvSeries ==> v.movie == u.movie
  {
    match kind
    case Movie => u.(movie := list)
    case TvSeries => u.(tvSeries := list)
  }

  /** `find({ email })`: the ids of the records with that email, in creation order. */
  function FindByEmail(users: map<string, User>, order: seq<string>, email: string): (r: seq<string>)
    ensures forall i :: 0 <= i < |r| ==> r[i] in users && users[r[i]].email == email
    ensures |r| <= |order|
  {
    if order == [] then []
    else
      (if order[0] in users && users[order[0]].email == email then [order[0]] else [])
      + FindByEmail(users, order[1..], email)
  }

  /** Every record with the email is found. */
  lemma {:induction false} FindByEmailComplete(users: map<string, User>, order: seq<string>, email: string, id: string)
    requires id in order && id in users && users[id].email == email
    ensures id in FindByEmail(users, order, email)
  {
    if order[0] != id {
      FindByEmailComplete(users, order[1..], email, id);
    }
  }

  /** The first id found is the earliest-created record with that email. */
  lemma {:induction false} FindByEmailFirst(users: map<string, User>, order: seq<string>, email: string)
    requires FindByEmail(users, order, email) != []
    ensures exists i :: 0 <= i < |order| && order[i] == FindByEmail(users, order, email)[0]
              && forall j :: 0 <= j < i ==> !(order[j] in users && users[order[j]].email == email)
  {
    if !(order[0] in users && users[order[0]].email == email) {
      FindByEmailFirst(users, order[1..], email);
      var r := FindByEmail(users, order[1..], email);
      var i :| 0 <= i < |order[1..]| && order[1..][i] == r[0]
               && forall j :: 0 <= j < i ==> !(order[1..][j] in users && users[order[1..][j]].email == email);
      assert order[i + 1] == FindByEmail(users, order, email)[0];
      forall j | 0 <= j < i + 1
        ensures !(order[j] in users && users[order[j]].email == email)
      {
        if j > 0 { assert order[j] == order[1..][j - 1]; }
      }
    } else {
      assert order[0] == FindByEmail(users, order, email)[0];
    }
  }

  /** Adding a record whose id is not yet listed appends it to the results of every query matching its email. */
  lemma {:induction false} FindByEmailAfterInsert(users: map<string, User>, order: seq<string>, id: string, u: User, email: string)
    requires id !in order
    ensures FindByEmail(users[id := u], order + [id], email)
            == FindByEmail(users, order, email) + (if u.email == email then [id] else [])
  {
    var users' := users[id := u];
    if order == [] {
      assert order + [id] == [id];
      assert [id][1..] == [];
    } else {
      var head := if order[0] in users && users[order[0]].email == email then [order[0]] else [];
      assert (order + [id])[1..] == order[1..] + [id];
      assert order[0] != id && (order[0] in users' <==> order[0] in users);
      assert FindByEmail(users', order + [id], email) == head + FindByEmail(users', order[1..] + [id], email);
      FindByEmailAfterInsert(users, order[1..], id, u, email);
    }
  }

  /** The id the store hands to the next record is not in use. */
  lemma FreshId(db: Db)
    requires Valid(db)
    ensures HexId(|db.order|) !in db.users && HexId(|db.order|) !in db.order
  {
    if HexId(|db.order|) in db.order {
      var i :| 0 <= i < |db.order| && db.order[i] == HexId(|db.order|);
      HexIdInjective(i, |db.order|);
    }
  }

  /** Every stored id reads back unchanged through `trim`. */
  lemma StoredIdSurvivesTrim(db: Db, id: string)
    requires Valid(db) && id in db.users
    ensures Trim(id) == id
  {
    var i :| 0 <= i < |db.order| && db.order[i] == id;
    HexIdSurvivesTrim(i);
  }
}
