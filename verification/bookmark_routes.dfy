/**
 * The six bookmark handlers. None of them looks at the request for the user:
 * each reads the session file, trims it and takes the result as the user id.
 * The four mutating handlers check, in this order, that the file could be
 * read (500), that `movieId` is truthy (400) and that the user exists (404),
 * and then append (`$push`) or remove every occurrence (`$pull`) on one list.
 */
module BookmarkRoutes {
  import opened Wrappers
  import opened Text
  import opened Lists
  import opened Store

  /** `$push` or `$pull`. */
  datatype Op = Push | Pull

  /** `movieId` is truthy: present and not the empty string. */
  predicate Present(movieId: Option<string>) {
    movieId.Some? && movieId.value != ""
  }

  /** The list after the operator is applied with value `x`. */
  function Edit(s: seq<string>, op: Op, x: string): seq<string> {
    match op
    case Push => s + [x]
    case Pull => RemoveAll(s, x)
  }

  /**
   * `$push` keeps the list and adds `x` once at the end; `$pull` takes out
   * every copy of `x` and keeps every other value as often as before.
   */
  lemma EditMeaning(s: seq<string>, op: Op, x: string)
    ensures op == Push ==> |Edit(s, op, x)| == |s| + 1 && Edit(s, op, x)[..|s|] == s && Edit(s, op, x)[|s|] == x
    ensures op == Pull ==> x !in Edit(s, op, x)
    ensures op == Pull ==> forall y :: y != x ==> multiset(Edit(s, op, x))[y] == multiset(s)[y]
  {
    if op == Pull {
      forall y | y != x
        ensures multiset(Edit(s, op, x))[y] == multiset(s)[y]
      {
        RemoveAllCount(s, x, y);
      }
    }
  }

  /**
   * The user the handlers act on: the trimmed session file, when it can be
   * read. `Update`, `Query` and the server's methods spell this out inline,
   * in the handlers' own order: read the file, answer 500 if that fails,
   * then trim; the contracts about them name it through this function.
   */
  function CurrentUser(db: Db): Option<string> {
    match db.session
    case None => None
    case Some(data) => Some(Trim(data))
  }

  /**
   * The handlers have a user exactly when the session file can be read, and
   * that user id is the file's contents with no white space at either end.
   */
  lemma CurrentUserMeaning(db: Db)
    ensures CurrentUser(db).Some? <==> db.session.Some?
    ensures CurrentUser(db).Some? ==> Trimmed(CurrentUser(db).value) && |CurrentUser(db).value| <= |db.session.value|
    ensures db.session.Some? ==>
              exists a, e :: 0 <= a <= e <= |db.session.value| && CurrentUser(db) == Some(db.session.value[a..e])
                && (forall k :: 0 <= k < a ==> IsSpace(db.session.value[k]))
                && (forall k :: e <= k < |db.session.value| ==> IsSpace(db.session.value[k]))
  {
    if db.session.Some? {
      TrimSplitsOffSpace(db.session.value);
    }
  }

  /**
   * `/addMovieBookmark`, `/removeMovieBookmark`, `/addTvSeriesBookmark`,
   * `/removeTvSeriesBookmark`: the list `kind` of the current user is edited
   * with `op`. Whatever the outcome, only that list of that user can change.
   */
  function Update(db: Db, kind: Kind, op: Op, movieId: Option<string>): (r: Step)
    ensures r.db.session == db.session && r.db.order == db.order && r.db.users.Keys == db.users.Keys
    ensures forall id :: id in db.users && Some(id) != CurrentUser(db) ==> r.db.users[id] == db.users[id]
  {
    match db.session
    case None => Step(db, Text(500, "Error reading file"))
    case Some(data) =>
      var userId := Trim(data);
      if !Present(movieId) then
        Step(db, Text(400, "Movie ID is required"))
      else if userId !in db.users then
        Step(db, Text(404, "User not found"))
      else
        var u := db.users[userId];
        Step(db.(users := db.users[userId := WithBookmarks(u, kind, Edit(Bookmarks(u, kind), op, movieId.value))]),
             Text(200, if op == Push then "Bookmark updated successfully" else "Bookmark removed successfully"))
  }

  /** `/getMovieBookmark`, `/getTvSeriesBookmark`: the list `kind` of the current user, as stored. */
  function Query(db: Db, kind: Kind): (r: Response)
    ensures r.List? <==> CurrentUser(db).Some? && CurrentUser(db).value in db.users
    ensures r.List? ==> r.items == Bookmarks(db.users[CurrentUser(db).value], kind)
  {
    match db.session
    case None => Text(500, "Error reading file")
    case Some(data) =>
      var userId := Trim(data);
      if userId !in db.users then Text(404, "User not found")
      else List(Bookmarks(db.users[userId], kind))
  }

  /** Without a readable session file every handler answers 500 and nothing changes, whatever the request. */
  lemma UnreadableSession(db: Db, kind: Kind, op: Op, movieId: Option<string>)
    requires db.session == None
    ensures Update(db, kind, op, movieId) == Step(db, Text(500, "Error reading file"))
    ensures Query(db, kind) == Text(500, "Error reading file")
  {
  }

  /** A missing or empty `movieId` answers 400 and changes nothing, whether or not the user exists. */
  lemma MissingMovieId(db: Db, kind: Kind, op: Op, movieId: Option<string>)
    requires db.session != None
    requires movieId == None || movieId == Some("")
    ensures Update(db, kind, op, movieId) == Step(db, Text(400, "Movie ID is required"))
  {
  }

  /** A session file naming no record answers 404 from every handler and changes nothing. */
  lemma UnknownUser(db: Db, kind: Kind, op: Op, movieId: Option<string>)
    requires CurrentUser(db).Some? && CurrentUser(db).value !in db.users
    ensures Present(movieId) ==> Update(db, kind, op, movieId) == Step(db, Text(404, "User not found"))
    ensures Query(db, kind) == Text(404, "User not found")
  {
  }

  /** The response code of a mutating handler is decided by the first failing check, in the order 500, 400, 404. */
  lemma UpdateStatus(db: Db, kind: Kind, op: Op, movieId: Option<string>)
    ensures var r := Update(db, kind, op, movieId);
            && (r.resp.Status() == 500 <==> db.session == None)
            && (r.resp.Status() == 400 <==> db.session != None && !Present(movieId))
            && (r.resp.Status() == 404 <==> db.session != None && Present(movieId) && CurrentUser(db).value !in db.users)
            && (r.resp.Status() == 200 <==> db.session != None && Present(movieId) && CurrentUser(db).value in db.users)
            && (r.resp.Status() != 200 ==> r.db == db)
  {
  }

  /**
   * On success exactly one list of the current user changes, to `Edit` of its
   * old value; the other list, the email and the hash stay.
   */
  lemma UpdateTouchesOneList(db: Db, kind: Kind, op: Op, movieId: Option<string>)
    requires CurrentUser(db).Some? && CurrentUser(db).value in db.users && Present(movieId)
    ensures var id := CurrentUser(db).value;
            var r := Update(db, kind, op, movieId);
            var u, v := db.users[id], r.db.users[id];
            && Bookmarks(v, kind) == Edit(Bookmarks(u, kind), op, movieId.value)
            && v.email == u.email && v.passwordHash == u.passwordHash
            && (kind == Movie ==> v.tvSeries == u.tvSeries)
            && (kind == TvSeries ==> v.movie == u.movie)
            && r.resp == Text(200, if op == Push then "Bookmark updated successfully" else "Bookmark removed successfully")
  {
  }

  /** Adding appends the id at the end, duplicates included. */
  lemma AddAppends(db: Db, kind: Kind, m: string)
    requires CurrentUser(db).Some? && CurrentUser(db).value in db.users && m != ""
    ensures var id := CurrentUser(db).value;
            Bookmarks(Update(db, kind, Push, Some(m)).db.users[id], kind) == Bookmarks(db.users[id], kind) + [m]
  {
  }

  /** Adding the same id twice leaves two copies of it at the end. */
  lemma AddTwiceKeepsDuplicates(db: Db, kind: Kind, m: string)
    requires CurrentUser(db).Some? && CurrentUser(db).value in db.users && m != ""
    ensures var id := CurrentUser(db).value;
            var db2 := Update(Update(db, kind, Push, Some(m)).db, kind, Push, Some(m)).db;
            Bookmarks(db2.users[id], kind) == Bookmarks(db.users[id], kind) + [m, m]
  {
    var id := CurrentUser(db).value;
    var before := Bookmarks(db.users[id], kind);
    var db1 := Update(db, kind, Push, Some(m)).db;
    assert Bookmarks(db1.users[id], kind) == before + [m] && CurrentUser(db1) == CurrentUser(db) && id in db1.users by {
      AddAppends(db, kind, m);
    }
    AddAppends(db1, kind, m);
    assert before + [m] + [m] == before + [m, m];
  }

  /**
   * Removing deletes every occurrence of the id and keeps the other entries,
   * each as often as before, in their original order.
   */
  lemma RemoveDeletesAll(db: Db, kind: Kind, m: string)
    requires CurrentUser(db).Some? && CurrentUser(db).value in db.users && m != ""
    ensures var id := CurrentUser(db).value;
            var before := Bookmarks(db.users[id], kind);
            var after := Bookmarks(Update(db, kind, Pull, Some(m)).db.users[id], kind);
            && after == RemoveAll(before, m)
            && m !in after
            && forall y :: y != m ==> multiset(after)[y] == multiset(before)[y]
  {
    var id := CurrentUser(db).value;
    var before := Bookmarks(db.users[id], kind);
    var after := Bookmarks(Update(db, kind, Pull, Some(m)).db.users[id], kind);
    UpdateTouchesOneList(db, kind, Pull, Some(m));
    assert after == RemoveAll(before, m);
    forall y | y != m
      ensures multiset(after)[y] == multiset(before)[y]
    {
      RemoveAllCount(before, m, y);
    }
  }

  /** A removal after two additions of the same id undoes them and every earlier copy. */
  lemma RemoveAfterAdds(db: Db, kind: Kind, m: string)
    requires CurrentUser(db).Some? && CurrentUser(db).value in db.users && m != ""
    ensures var id := CurrentUser(db).value;
            var db2 := Update(Update(db, kind, Push, Some(m)).db, kind, Push, Some(m)).db;
            var db3 := Update(db2, kind, Pull, Some(m)).db;
            Bookmarks(db3.users[id], kind) == RemoveAll(Bookmarks(db.users[id], kind), m)
  {
    var id := CurrentUser(db).value;
    var before := Bookmarks(db.users[id], kind);
    var db2 := Update(Update(db, kind, Push, Some(m)).db, kind, Push, Some(m)).db;
    AddTwiceKeepsDuplicates(db, kind, m);
    assert CurrentUser(db2) == CurrentUser(db) && id in db2.users;
    assert before + [m, m] == before + seq(2, _ => m);
    RemoveAllAfterAppend(before, m, 2);
  }

  /** A movie operation leaves every series list as it was, and a series operation every movie list. */
  lemma UpdateLeavesOtherKind(db: Db, kind: Kind, other: Kind, op: Op, movieId: Option<string>)
    requires kind != other
    ensures forall id :: id in db.users ==>
              Bookmarks(Update(db, kind, op, movieId).db.users[id], other) == Bookmarks(db.users[id], other)
    ensures Query(Update(db, kind, op, movieId).db, other) == Query(db, other)
  {
  }

  /** A get reports the list exactly as stored. */
  lemma QueryReportsStoredList(db: Db, kind: Kind)
    requires CurrentUser(db).Some? && CurrentUser(db).value in db.users
    ensures Query(db, kind) == List(Bookmarks(db.users[CurrentUser(db).value], kind))
  {
  }

  /** The mutating handlers keep the store well formed. */
  lemma UpdatePreservesValid(db: Db, kind: Kind, op: Op, movieId: Option<string>)
    requires Valid(db)
    ensures Valid(Update(db, kind, op, movieId).db)
  {
  }
}
