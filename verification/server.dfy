/**
 * The running service: the user collection and the session file as fields of
 * one object, and one method per route. Every method does what the route
 * handler does, step by step with its early returns, and its contract ties
 * the new state and the response to the route's function over `Db`, where
 * the route's properties are proved.
 */
module Server {
  import opened Wrappers
  import opened Text
  import opened ObjectIds
  import opened Store
  import UserRoutes
  import BookmarkRoutes
  import Scenarios

  class BookmarkServer {
    /** The user collection, by id. */
    var users: map<string, User>
    /** Record ids in creation order. */
    var order: seq<string>
    /** The contents of `userData.txt`; `None` while it cannot be read. */
    var session: Option<string>
    /** The password hash used by signup and login. */
    const hash: string -> string

    function Snapshot(): Db
      reads this
    {
      Db(users, order, session)
    }

    ghost predicate Valid()
      reads this
    {
      Store.Valid(Snapshot())
    }

    /** A newly deployed service: an empty collection and no session file. */
    constructor (hash: string -> string)
      ensures Valid() && Snapshot() == Empty() && this.hash == hash
    {
      users, order, session := map[], [], None;
      this.hash := hash;
    }

    /** `POST /user/signup`. */
    method Signup(email: string, password: string, resetPassword: string) returns (resp: Response)
      requires Valid()
      modifies this`users, this`order
      ensures Valid()
      ensures Step(Snapshot(), resp) == UserRoutes.Signup(old(Snapshot()), hash, email, password, resetPassword)
    {
      UserRoutes.SignupPreservesValid(Snapshot(), hash, email, password, resetPassword);
      if password != resetPassword {
        resp := Text(200, "Password does not matched");
        return;
      }
      var id := HexId(|order|);
      users := users[id := User(email, hash(password), [], [])];
      order := order + [id];
      resp := Json(200, "User Registered success");
    }

    /** `POST /user/login`: only the session file can change. */
    method Login(email: string, password: string) returns (resp: Response)
      requires Valid()
      modifies this`session
      ensures Valid()
      ensures Step(Snapshot(), resp) == UserRoutes.Login(old(Snapshot()), hash, email, password)
    {
      var found := FindByEmail(users, order, email);
      if |found| == 0 {
        resp := Json(404, "User not found");
        return;
      }
      var user := users[found[0]];
      if UserRoutes.Verify(hash, password, user.passwordHash) {
        session := Some(found[0]);
        resp := Issued(Jwt(user.email));
      } else {
        resp := Json(401, "Invalid password");
      }
    }

    /** The shared body of the four mutating bookmark handlers: only the user collection can change. */
    method EditBookmarks(kind: Kind, op: BookmarkRoutes.Op, movieId: Option<string>) returns (resp: Response)
      requires Valid()
      modifies this`users
      ensures Valid()
      ensures Step(Snapshot(), resp) == BookmarkRoutes.Update(old(Snapshot()), kind, op, movieId)
    {
      BookmarkRoutes.UpdatePreservesValid(Snapshot(), kind, op, movieId);
      if session == None {
        resp := Text(500, "Error reading file");
        return;
      }
      var userId := Trim(session.value);
      if !BookmarkRoutes.Present(movieId) {
        resp := Text(400, "Movie ID is required");
        return;
      }
      if userId !in users {
        resp := Text(404, "User not found");
        return;
      }
      var u := users[userId];
      users := users[userId := WithBookmarks(u, kind, BookmarkRoutes.Edit(Bookmarks(u, kind), op, movieId.value))];
      resp := Text(200, if op == BookmarkRoutes.Push then "Bookmark updated successfully" else "Bookmark removed successfully");
    }

    /** `PUT /addTvSeriesBookmark`. */
    method AddTvSeriesBookmark(movieId: Option<string>) returns (resp: Response)
      requires Valid()
      modifies this`users
      ensures Valid()
      ensures Step(Snapshot(), resp) == BookmarkRoutes.Update(old(Snapshot()), TvSeries, BookmarkRoutes.Push, movieId)
    {
      resp := EditBookmarks(TvSeries, BookmarkRoutes.Push, movieId);
    }

    /** `PUT /removeTvSeriesBookmark`. */
    method RemoveTvSeriesBookmark(movieId: Option<string>) returns (resp: Response)
      requires Valid()
      modifies this`users
      ensures Valid()
      ensures Step(Snapshot(), resp) == BookmarkRoutes.Update(old(Snapshot()), TvSeries, BookmarkRoutes.Pull, movieId)
    {
      resp := EditBookmarks(TvSeries, BookmarkRoutes.Pull, movieId);
    }

    /** `PUT /addMovieBookmark`. */
    method AddMovieBookmark(movieId: Option<string>) returns (resp: Response)
      requires Valid()
      modifies this`users
      ensures Valid()
      ensures Step(Snapshot(), resp) == BookmarkRoutes.Update(old(Snapshot()), Movie, BookmarkRoutes.Push, movieId)
    {
      resp := EditBookmarks(Movie, BookmarkRoutes.Push, movieId);
    }

    /** `PUT /removeMovieBookmark`. */
    method RemoveMovieBookmark(movieId: Option<string>) returns (resp: Response)
      requires Valid()
      modifies this`users
      ensures Valid()
      ensures Step(Snapshot(), resp) == BookmarkRoutes.Update(old(Snapshot()), Movie, BookmarkRoutes.Pull, movieId)
    {
      resp := EditBookmarks(Movie, BookmarkRoutes.Pull, movieId);
    }

    /** `GET /getMovieBookmark`: changes nothing. */
    method GetMovieBookmark() returns (resp: Response)
      ensures resp == BookmarkRoutes.Query(Snapshot(), Movie)
    {
      resp := ListBookmarks(Movie);
    }

    /** `GET /getTvSeriesBookmark`: changes nothing. */
    method GetTvSeriesBookmark() returns (resp: Response)
      ensures resp == BookmarkRoutes.Query(Snapshot(), TvSeries)
    {
      resp := ListBookmarks(TvSeries);
    }

    /** The shared body of the two get handlers. */
    method ListBookmarks(kind: Kind) returns (resp: Response)
      ensures resp == BookmarkRoutes.Query(Snapshot(), kind)
    {
      if session == None {
        resp := Text(500, "Error reading file");
        return;
      }
      var userId := Trim(session.value);
      if userId !in users {
        resp := Text(404, "User not found");
        return;
      }
      resp := List(Bookmarks(users[userId], kind));
    }
  }

  /**
   * A client of the class: on a new service, sign up and log in as
   * `a@x.com`, add `m` twice and remove it, reading the movie list after each
   * bookmark request.
   */
  method ExampleSession(hash: string -> string, m: string) returns (first: Response, second: Response, third: Response)
    requires m != ""
    ensures first == List([m]) && second == List([m, m]) && third == List([])
  {
    var server := new BookmarkServer(hash);
    ghost var db0 := server.Snapshot();
    var r := server.Signup("a@x.com", "p", "p");
    r := server.Login("a@x.com", "p");
    Scenarios.SignupThenLoginTargetsNewRecord(db0, hash, "a@x.com", "p");
    Scenarios.AddAddRemoveFromEmpty(server.Snapshot(), m);
    r := server.AddMovieBookmark(Some(m));
    first := server.GetMovieBookmark();
    r := server.AddMovieBookmark(Some(m));
    second := server.GetMovieBookmark();
    r := server.RemoveMovieBookmark(Some(m));
    third := server.GetMovieBookmark();
  }
}
