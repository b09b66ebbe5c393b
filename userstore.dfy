/**
 * The in-memory user and favourites store: a table from email to user record
 * and a table from user id to that user's list of favourite movies, both
 * updated in place by the three endpoints.
 *
 * User ids come from the clock and a random number in the server; here the
 * caller supplies the id a new user gets.
 */
module UserStore {
  import opened Wrappers
  import opened Text

  /** A movie id as it arrives in a request body: absent, a JSON number or a JSON string. */
  datatype MovieId = Absent | Num(n: int) | Str(s: string)

  /** A favourite as the client sends it. */
  datatype Movie = Movie(id: MovieId, title: string, posterUrl: string, releaseYear: string, description: string)

  datatype User = User(userId: string, email: string)

  /** A reply: the payload, or 400 with its message. */
  datatype Reply<T> = Ok(value: T) | BadRequest(message: string)

  const EmailRequired: string := "Email is required"
  const MovieIdRequired: string := "Movie object with id required"

  /** JavaScript truthiness of an id: not absent, not 0, not the empty string. */
  predicate IdTruthy(id: MovieId)
  {
    match id
    case Absent => false
    case Num(n) => n != 0
    case Str(s) => s != ""
  }

  /** `String(id)`. */
  function IdString(id: MovieId): string
  {
    match id
    case Absent => "undefined"
    case Num(n) => IntToString(n)
    case Str(s) => s
  }

  /** `list.some(m => m.id === id)`: `===` tells a number from a string. */
  predicate HasId(list: seq<Movie>, id: MovieId)
  {
    exists i :: 0 <= i < |list| && list[i].id == id
  }

  /** No two entries share an id. */
  ghost predicate DistinctIds(list: seq<Movie>)
  {
    forall i, j :: 0 <= i < j < |list| ==> list[i].id != list[j].id
  }

  /** The list after adding `movie`: unchanged when an entry already has its id, otherwise with `movie` at the end. */
  function AddedTo(list: seq<Movie>, movie: Movie): seq<Movie>
  {
    if HasId(list, movie.id) then list else list + [movie]
  }

  /** `list.filter(m => String(m.id) !== movieId)`. */
  function Without(list: seq<Movie>, movieId: string): (r: seq<Movie>)
    ensures |r| <= |list|
    ensures forall m :: m in r ==> m in list && IdString(m.id) != movieId
    ensures forall m: Movie :: IdString(m.id) != movieId ==> multiset(r)[m] == multiset(list)[m]
  {
    if list == [] then []
    else
      var rest := Without(list[1..], movieId);
      assert list == [list[0]] + list[1..];
      if IdString(list[0].id) != movieId then [list[0]] + rest else rest
  }

  /** The favourites of a user id, `[]` when the table has no entry for it. */
  function ListOf(favorites: map<string, seq<Movie>>, userId: string): seq<Movie>
  {
    if userId in favorites then favorites[userId] else []
  }

  // ----- Properties of the favourite list operations -----

  /**
   * Adding keeps the list and, unless the id is present already, appends the
   * movie; afterwards the id is present. Adding twice is adding once.
   */
  lemma AddedToSpec(list: seq<Movie>, movie: Movie)
    ensures var r := AddedTo(list, movie);
      && HasId(r, movie.id)
      && (HasId(list, movie.id) ==> r == list)
      && (!HasId(list, movie.id) ==> |r| == |list| + 1 && r[..|list|] == list && r[|list|] == movie)
      && AddedTo(r, movie) == r
  {
    var r := AddedTo(list, movie);
    if !HasId(list, movie.id) {
      assert r[|list|].id == movie.id;
    }
  }

  /** Adding never creates two entries with the same id. */
  lemma AddedToKeepsDistinct(list: seq<Movie>, movie: Movie)
    requires DistinctIds(list)
    ensures DistinctIds(AddedTo(list, movie))
  {
    if !HasId(list, movie.id) {
      var r := list + [movie];
      forall i, j | 0 <= i < j < |r| ensures r[i].id != r[j].id {
        if j == |list| {
          assert r[i] == list[i];
        }
      }
    }
  }

  /** Recursive description of the subsequence relation. */
  predicate IsSubsequence(r: seq<Movie>, list: seq<Movie>)
    decreases |list|
  {
    if r == [] then true
    else if list == [] then false
    else if r[0] == list[0] then IsSubsequence(r[1..], list[1..])
    else IsSubsequence(r, list[1..])
  }

  /** Removing keeps the other entries in their original relative order. */
  lemma {:induction false} WithoutIsSubsequence(list: seq<Movie>, movieId: string)
    ensures IsSubsequence(Without(list, movieId), list)
  {
    if list != [] {
      WithoutIsSubsequence(list[1..], movieId);
      var rest := Without(list[1..], movieId);
      if IdString(list[0].id) != movieId {
        assert ([list[0]] + rest)[1..] == rest;
      } else {
        SubsequenceNotEmptyHead(rest, list);
      }
    }
  }

  lemma {:induction false} SubsequenceNotEmptyHead(r: seq<Movie>, list: seq<Movie>)
    requires list != [] && IsSubsequence(r, list[1..])
    ensures IsSubsequence(r, list)
    decreases |r| + |list|
  {
    if r != [] && r[0] == list[0] {
      SubsequenceDropOne(r, list[1..]);
    }
  }

  lemma {:induction false} SubsequenceDropOne(r: seq<Movie>, list: seq<Movie>)
    requires r != [] && IsSubsequence(r, list)
    ensures IsSubsequence(r[1..], list)
    decreases |r| + |list|
  {
    if list != [] {
      if r[0] == list[0] {
        SubsequenceNotEmptyHead(r[1..], list);
      } else {
        SubsequenceDropOne(r, list[1..]);
        SubsequenceNotEmptyHead(r[1..], list);
      }
    }
  }

  /** Removing twice is removing once. */
  lemma {:induction false} WithoutIdempotent(list: seq<Movie>, movieId: string)
    ensures Without(Without(list, movieId), movieId) == Without(list, movieId)
  {
    if list != [] {
      WithoutIdempotent(list[1..], movieId);
      var rest := Without(list[1..], movieId);
      if IdString(list[0].id) != movieId {
        assert ([list[0]] + rest)[1..] == rest;
      }
    }
  }

  /** Removing keeps the ids distinct. */
  lemma WithoutKeepsDistinct(list: seq<Movie>, movieId: string)
    requires DistinctIds(list)
    ensures DistinctIds(Without(list, movieId))
  {
    var r := Without(list, movieId);
    forall i, j | 0 <= i < j < |r| ensures r[i].id != r[j].id {
      if r[i].id == r[j].id {
        SameIdMeansSame(list, r[i], r[j]);
        TwoCopies(r, i, j);
        DistinctCount(list, r[i]);
        assert false;
      }
    }
  }

  lemma DistinctCount(list: seq<Movie>, m: Movie)
    requires DistinctIds(list)
    ensures multiset(list)[m] <= 1
    decreases |list|
  {
    if list != [] {
      assert list == [list[0]] + list[1..];
      assert DistinctIds(list[1..]) by {
        forall i, j | 0 <= i < j < |list[1..]| ensures list[1..][i].id != list[1..][j].id {
          assert list[1..][i] == list[i + 1] && list[1..][j] == list[j + 1];
        }
      }
      DistinctCount(list[1..], m);
      if list[0] == m {
        assert m !in list[1..];
      }
    }
  }

  lemma TwoCopies(r: seq<Movie>, i: nat, j: nat)
    requires i < j < |r| && r[i] == r[j]
    ensures multiset(r)[r[i]] >= 2
  {
    assert r == r[..j] + r[j..];
    assert r[i] in r[..j];
    assert r[j] in r[j..];
    assert multiset(r[..j])[r[i]] >= 1;
    assert multiset(r[j..])[r[i]] >= 1;
  }

  lemma SameIdMeansSame(list: seq<Movie>, a: Movie, b: Movie)
    requires DistinctIds(list) && a in list && b in list && a.id == b.id
    ensures a == b
  {
  }

  /**
   * `String` makes a number and a string with the same digits alike: a list
   * holding both the number 5 and the string "5", which adding allows, loses both
   * when "5" is removed.
   */
  lemma RemoveMatchesLoosely(title: string)
    ensures var five := Movie(Num(5), title, "", "", "");
      var fiveText := Movie(Str("5"), title, "", "", "");
      && AddedTo(AddedTo([], five), fiveText) == [five, fiveText]
      && Without([five, fiveText], "5") == []
  {
    var five := Movie(Num(5), title, "", "", "");
    var fiveText := Movie(Str("5"), title, "", "", "");
    assert !HasId([five], fiveText.id);
    assert IdString(Num(5)) == "5";
  }

  // ----- The store -----

  /** The two module-level tables of the server. */
  class Store {
    var users: map<string, User>
    var userFavorites: map<string, seq<Movie>>

    /** Every user is filed under its own email, has a favourites list, and no list repeats an id. */
    ghost predicate Valid()
      reads this
    {
      && (forall e :: e in users ==> users[e].email == e && users[e].userId in userFavorites)
      && (forall u :: u in userFavorites ==> DistinctIds(userFavorites[u]))
    }

    constructor ()
      ensures Valid()
      ensures users == map[] && userFavorites == map[]
    {
      users := map[];
      userFavorites := map[];
    }

    /** Returns the user filed under `email`, creating it with id `freshId` and an empty list first if there is none. */
    method GetOrCreateUserHelper(email: string, freshId: string) returns (user: User)
      requires Valid()
      modifies this
      ensures Valid()
      ensures user.email == email && users == old(users)[email := user]
      ensures email in old(users) ==> user == old(users)[email] && users == old(users) && userFavorites == old(userFavorites)
      ensures email !in old(users) ==> user == User(freshId, email) && userFavorites == old(userFavorites)[freshId := []]
    {
      if email !in users {
        users := users[email := User(freshId, email)];
        userFavorites := userFavorites[freshId := []];
      }
      user := users[email];
    }

    /** The get-or-create endpoint: 400 for a missing email, otherwise the user's id and email. */
    method GetOrCreateUser(email: Option<string>, freshId: string) returns (reply: Reply<User>)
      requires Valid()
      modifies this
      ensures Valid()
      ensures !Truthy(email) ==> reply == BadRequest(EmailRequired) && unchanged(this)
      ensures Truthy(email) ==> reply.Ok? && reply.value.email == email.value
      ensures Truthy(email) && email.value in old(users) ==>
                reply.value == old(users)[email.value] && users == old(users) && userFavorites == old(userFavorites)
      ensures Truthy(email) && email.value !in old(users) ==>
                && reply.value == User(freshId, email.value)
                && users == old(users)[email.value := reply.value]
                && userFavorites == old(userFavorites)[freshId := []]
    {
      if !Truthy(email) {
        return BadRequest(EmailRequired);
      }
      var user := GetOrCreateUserHelper(email.value, freshId);
      reply := Ok(User(user.userId, user.email));
    }

    /** The add endpoint: 400 for a movie without a truthy id, otherwise the user's list after adding. */
    method AddFavorite(userId: string, movie: Option<Movie>) returns (reply: Reply<seq<Movie>>)
      requires Valid()
      modifies this
      ensures Valid()
      ensures users == old(users)
      ensures movie.None? || !IdTruthy(movie.value.id) ==> reply == BadRequest(MovieIdRequired) && unchanged(this)
      ensures movie.Some? && IdTruthy(movie.value.id) ==>
                && userFavorites == old(userFavorites)[userId := AddedTo(ListOf(old(userFavorites), userId), movie.value)]
                && reply == Ok(userFavorites[userId])
      ensures forall u :: u != userId && u in old(userFavorites) ==> u in userFavorites && userFavorites[u] == old(userFavorites)[u]
    {
      if movie.None? || !IdTruthy(movie.value.id) {
        return BadRequest(MovieIdRequired);
      }
      if userId !in userFavorites {
        userFavorites := userFavorites[userId := []];
      }
      var list := userFavorites[userId];
      if !HasId(list, movie.value.id) {
        AddedToKeepsDistinct(list, movie.value);
        userFavorites := userFavorites[userId := list + [movie.value]];
      }
      reply := Ok(userFavorites[userId]);
    }

    /** The remove endpoint: `[]` for an unknown user, otherwise the user's list without the entries matching `movieId`. */
    method RemoveFavorite(userId: string, movieId: string) returns (favorites: seq<Movie>)
      requires Valid()
      modifies this
      ensures Valid()
      ensures users == old(users)
      ensures userId !in old(userFavorites) ==> favorites == [] && unchanged(this)
      ensures userId in old(userFavorites) ==>
                && userFavorites == old(userFavorites)[userId := Without(old(userFavorites)[userId], movieId)]
                && favorites == userFavorites[userId]
      ensures forall u :: u != userId && u in old(userFavorites) ==> u in userFavorites && userFavorites[u] == old(userFavorites)[u]
    {
      if userId !in userFavorites {
        return [];
      }
      WithoutKeepsDistinct(userFavorites[userId], movieId);
      userFavorites := userFavorites[userId := Without(userFavorites[userId], movieId)];
      favorites := userFavorites[userId];
    }
  }
}
