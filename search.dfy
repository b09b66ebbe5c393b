/**
 * The search endpoint: a free-text description goes to a language model, whose
 * completion is read as a list of candidate titles; each title is searched in the
 * movie catalog, and the results are flattened, normalised and cut to ten.
 *
 * The completion call, `JSON.parse` and the catalog searches are parameters.
 */
module MovieSearch {
  import opened Wrappers
  import opened Text
  import opened Tmdb

  /** A catalog search hit as the provider returns it. */
  datatype RawMovie = RawMovie(
    id: int,
    title: string,
    overview: string,
    posterPath: Option<string>,
    releaseDate: Option<string>)

  /** The search result record sent to the client. */
  datatype MovieSummary = MovieSummary(
    id: int,
    title: string,
    description: string,
    posterUrl: string,
    releaseYear: string)

  /** The outcome of `JSON.parse` on the trimmed completion; array elements other than strings read as `None`. */
  datatype ParseOutcome = Invalid | NonArray | Array(elements: seq<Option<string>>)

  /** The outcome of the language model call: a failure, or the completion's text. */
  datatype Completion = CompletionFailed | Completion(content: string)

  /** The outcome of one catalog search by title. */
  datatype SearchOutcome = SearchFailed | Results(movies: seq<RawMovie>)

  /** The HTTP response: 200 with the list, or an error status with its message. */
  datatype Response = Found(movies: seq<MovieSummary>) | Error(status: int, message: string)

  const MaxResults: nat := 10
  const DescriptionRequired: string := "Description is required"
  const NothingFound: string := "Could not find any matching movies."
  const RequestFailed: string := "Failed to process your request."

  /**
   * The candidate titles: the parsed array, or, when the text is not JSON or not
   * a JSON array, the whole text as the only title.
   */
  function Candidates(parsed: ParseOutcome, content: string): seq<Option<string>>
  {
    if parsed.Array? then parsed.elements else [Some(content)]
  }

  /** The titles that are actually searched, in candidate order: the truthy ones. */
  function Queries(candidates: seq<Option<string>>): (r: seq<string>)
    ensures |r| <= |candidates|
    ensures forall q :: q in r ==> q != "" && Some(q) in candidates
  {
    if candidates == [] then []
    else (if Truthy(candidates[0]) then [candidates[0].value] else []) + Queries(candidates[1..])
  }

  /**
   * What one title contributes before flattening: `null` for a falsy title or a
   * search without results, the provider's list otherwise; `None` when the search fails.
   */
  function SearchOne(title: Option<string>, search: string -> SearchOutcome): Option<Option<seq<RawMovie>>>
  {
    if !Truthy(title) then Some(None)
    else match search(title.value)
      case SearchFailed => None
      case Results(ms) => Some(if |ms| > 0 then Some(ms) else None)
  }

  /**
   * `Promise.all` over the per-title searches: every entry in candidate order, or
   * `None` as soon as any searched title fails.
   */
  function SearchAll(candidates: seq<Option<string>>, search: string -> SearchOutcome): (r: Option<seq<Option<seq<RawMovie>>>>)
    ensures r.None? <==> exists q :: q in Queries(candidates) && search(q).SearchFailed?
    ensures r.Some? ==> |r.value| == |candidates|
  {
    if candidates == [] then Some([])
    else
      var head := SearchOne(candidates[0], search);
      var tail := SearchAll(candidates[1..], search);
      assert Queries(candidates) == (if Truthy(candidates[0]) then [candidates[0].value] else []) + Queries(candidates[1..]);
      if head.None? || tail.None? then None else Some([head.value] + tail.value)
  }

  /** `flat()` followed by the filter that drops the `null` entries. */
  function Flatten(entries: seq<Option<seq<RawMovie>>>): seq<RawMovie>
  {
    if entries == [] then []
    else (if entries[0].Some? then entries[0].value else []) + Flatten(entries[1..])
  }

  /** A provider record as a search result. */
  function Normalise(m: RawMovie): MovieSummary
  {
    MovieSummary(m.id, m.title, m.overview, UrlOrEmpty(PosterBase, m.posterPath), ReleaseYear(m.releaseDate))
  }

  function NormaliseAll(ms: seq<RawMovie>): (r: seq<MovieSummary>)
    ensures |r| == |ms|
  {
    seq(|ms|, i requires 0 <= i < |ms| => Normalise(ms[i]))
  }

  /** `slice(0, n)`. */
  function Take<T>(s: seq<T>, n: nat): (r: seq<T>)
    ensures |r| == if |s| <= n then |s| else n
    ensures r <= s
  {
    if |s| <= n then s else s[..n]
  }

  /** The search endpoint. */
  function GetMovies(
    description: Option<string>,
    completion: Completion,
    parse: string -> ParseOutcome,
    search: string -> SearchOutcome): Response
  {
    if !Truthy(description) then Error(400, DescriptionRequired)
    else match completion
      case CompletionFailed => Error(500, RequestFailed)
      case Completion(raw) =>
        var content := Trim(raw);
        GetMoviesFrom(SearchAll(Candidates(parse(content), content), search))
  }

  /** The part of the endpoint after the fan-out: 500 on a failed search, else flatten, normalise, cut, and 404 when empty. */
  function GetMoviesFrom(gathered: Option<seq<Option<seq<RawMovie>>>>): Response
  {
    match gathered
    case None => Error(500, RequestFailed)
    case Some(entries) =>
      var results := Take(NormaliseAll(Flatten(entries)), MaxResults);
      if results == [] then Error(404, NothingFound) else Found(results)
  }

  // ----- Reference definition of the ranked hit list -----

  /** The hits one candidate stands for: the provider's list for a truthy title that was found, nothing otherwise. */
  function Hits(title: Option<string>, search: string -> SearchOutcome): seq<RawMovie>
  {
    if Truthy(title) && search(title.value).Results? then search(title.value).movies else []
  }

  /** All hits, candidate after candidate, each candidate's hits in provider order. */
  function AllHits(candidates: seq<Option<string>>, search: string -> SearchOutcome): seq<RawMovie>
  {
    if candidates == [] then [] else Hits(candidates[0], search) + AllHits(candidates[1..], search)
  }

  /** The hits of earlier candidates come before those of later ones. */
  lemma {:induction false} AllHitsSplit(a: seq<Option<string>>, b: seq<Option<string>>, search: string -> SearchOutcome)
    ensures AllHits(a + b, search) == AllHits(a, search) + AllHits(b, search)
  {
    if a == [] {
      assert a + b == b;
    } else {
      assert (a + b)[0] == a[0] && (a + b)[1..] == a[1..] + b;
      AllHitsSplit(a[1..], b, search);
    }
  }

  /** Nothing is deduplicated: the hit count is the sum of the per-candidate counts. */
  lemma {:induction false} AllHitsCount(candidates: seq<Option<string>>, search: string -> SearchOutcome, k: nat)
    requires k <= |candidates|
    ensures |AllHits(candidates, search)| == |AllHits(candidates[..k], search)| + |AllHits(candidates[k..], search)|
  {
    assert candidates == candidates[..k] + candidates[k..];
    AllHitsSplit(candidates[..k], candidates[k..], search);
  }

  /** When every search succeeds, flattening the gathered entries gives exactly the reference hit list. */
  lemma {:induction false} FlattenIsAllHits(candidates: seq<Option<string>>, search: string -> SearchOutcome)
    requires SearchAll(candidates, search).Some?
    ensures Flatten(SearchAll(candidates, search).value) == AllHits(candidates, search)
  {
    if candidates != [] {
      var entries := SearchAll(candidates, search).value;
      assert entries[1..] == SearchAll(candidates[1..], search).value;
      FlattenIsAllHits(candidates[1..], search);
    }
  }

  // ----- Properties of the endpoint -----

  /**
   * After the fan-out: 500 when some queried title fails; otherwise the first
   * min(10, n) of the n normalised reference hits, or 404 when n is 0.
   */
  lemma {:induction false} GatheredOutcome(candidates: seq<Option<string>>, search: string -> SearchOutcome)
    ensures var r := GetMoviesFrom(SearchAll(candidates, search));
      var hits := AllHits(candidates, search);
      if exists q :: q in Queries(candidates) && search(q).SearchFailed? then
        r == Error(500, RequestFailed)
      else if hits == [] then
        r == Error(404, NothingFound)
      else
        && r.Found?
        && |r.movies| == (if |hits| <= MaxResults then |hits| else MaxResults)
        && forall i :: 0 <= i < |r.movies| ==> r.movies[i] == Normalise(hits[i])
  {
    if SearchAll(candidates, search).Some? {
      FlattenIsAllHits(candidates, search);
    }
  }

  /**
   * The outcome of the search endpoint: 400 exactly for a falsy description, 500
   * when the completion fails or some queried title's search fails, 404 when the
   * candidates read from the trimmed completion have no hits, and otherwise the
   * first min(10, n) of the n normalised hits.
   */
  lemma GetMoviesOutcome(
    description: Option<string>,
    completion: Completion,
    parse: string -> ParseOutcome,
    search: string -> SearchOutcome)
    ensures var r := GetMovies(description, completion, parse, search);
      && (!Truthy(description) <==> r == Error(400, DescriptionRequired))
      && (Truthy(description) && completion.CompletionFailed? ==> r == Error(500, RequestFailed))
      && (Truthy(description) && completion.Completion? ==>
            var content := Trim(completion.content);
            var candidates := Candidates(parse(content), content);
            var hits := AllHits(candidates, search);
            if exists q :: q in Queries(candidates) && search(q).SearchFailed? then
              r == Error(500, RequestFailed)
            else if hits == [] then
              r == Error(404, NothingFound)
            else
              && r.Found?
              && |r.movies| == (if |hits| <= MaxResults then |hits| else MaxResults)
              && forall i :: 0 <= i < |r.movies| ==> r.movies[i] == Normalise(hits[i]))
  {
    if Truthy(description) && completion.Completion? {
      var content := Trim(completion.content);
      GatheredOutcome(Candidates(parse(content), content), search);
    }
  }

  /** Every response carries at most ten results, and a 200 response at least one. */
  lemma GetMoviesBounded(
    description: Option<string>,
    completion: Completion,
    parse: string -> ParseOutcome,
    search: string -> SearchOutcome)
    ensures var r := GetMovies(description, completion, parse, search);
      r.Found? ==> 1 <= |r.movies| <= MaxResults
  {
  }

  /** A falsy description is rejected before the model or the catalog are consulted. */
  lemma RejectedBeforeUpstream(
    description: Option<string>,
    completion1: Completion, parse1: string -> ParseOutcome, search1: string -> SearchOutcome,
    completion2: Completion, parse2: string -> ParseOutcome, search2: string -> SearchOutcome)
    requires !Truthy(description)
    ensures GetMovies(description, completion1, parse1, search1) == Error(400, DescriptionRequired)
    ensures GetMovies(description, completion1, parse1, search1) == GetMovies(description, completion2, parse2, search2)
  {
  }

  /** The search answers for titles that are not queried do not matter. */
  lemma {:induction false} SearchAllOnlyQueries(
    candidates: seq<Option<string>>, search1: string -> SearchOutcome, search2: string -> SearchOutcome)
    requires forall q :: q in Queries(candidates) ==> search1(q) == search2(q)
    ensures SearchAll(candidates, search1) == SearchAll(candidates, search2)
  {
    if candidates != [] {
      assert Queries(candidates) == (if Truthy(candidates[0]) then [candidates[0].value] else []) + Queries(candidates[1..]);
      SearchAllOnlyQueries(candidates[1..], search1, search2);
    }
  }

  /** Of the catalog, the endpoint consults only the queried titles. */
  lemma OnlyQueriedTitlesMatter(
    description: Option<string>, completion: Completion, parse: string -> ParseOutcome,
    search1: string -> SearchOutcome, search2: string -> SearchOutcome)
    requires completion.Completion?
    requires var content := Trim(completion.content);
      forall q :: q in Queries(Candidates(parse(content), content)) ==> search1(q) == search2(q)
    ensures GetMovies(description, completion, parse, search1) == GetMovies(description, completion, parse, search2)
  {
    var content := Trim(completion.content);
    var candidates := Candidates(parse(content), content);
    SearchAllOnlyQueries(candidates, search1, search2);
    if Truthy(description) {
      assert GetMovies(description, completion, parse, search1) == GetMoviesFrom(SearchAll(candidates, search1));
      assert GetMovies(description, completion, parse, search2) == GetMoviesFrom(SearchAll(candidates, search2));
    }
  }

  /**
   * A completion that is not a JSON array becomes exactly one query, the whole
   * trimmed text, or none when that text is empty.
   */
  lemma FallbackIsOneQuery(parsed: ParseOutcome, content: string)
    requires !parsed.Array?
    ensures Queries(Candidates(parsed, content)) == if content == "" then [] else [content]
  {
    assert [Some(content)][1..] == [];
  }

  /** A JSON array is searched title by title, skipping the falsy ones, in array order. */
  lemma {:induction false} ArrayQueries(elements: seq<Option<string>>, content: string, k: nat)
    requires k <= |elements|
    ensures Queries(Candidates(Array(elements), content)) == Queries(elements[..k]) + Queries(elements[k..])
  {
    assert elements == elements[..k] + elements[k..];
    QueriesSplit(elements[..k], elements[k..]);
  }

  lemma {:induction false} QueriesSplit(a: seq<Option<string>>, b: seq<Option<string>>)
    ensures Queries(a + b) == Queries(a) + Queries(b)
  {
    if a == [] {
      assert a + b == b;
    } else {
      assert (a + b)[0] == a[0] && (a + b)[1..] == a[1..] + b;
      QueriesSplit(a[1..], b);
    }
  }

  /** A candidate list whose every search finds nothing yields 404. */
  lemma NoHitsIsNotFound(
    description: Option<string>, completion: Completion, parse: string -> ParseOutcome, search: string -> SearchOutcome)
    requires Truthy(description) && completion.Completion?
    requires forall q :: search(q) == Results([])
    ensures GetMovies(description, completion, parse, search) == Error(404, NothingFound)
  {
    var content := Trim(completion.content);
    var candidates := Candidates(parse(content), content);
    GetMoviesOutcome(description, completion, parse, search);
    NoHits(candidates, search);
    GatheredOutcome(candidates, search);
  }

  lemma {:induction false} NoHits(candidates: seq<Option<string>>, search: string -> SearchOutcome)
    requires forall q :: search(q) == Results([])
    ensures AllHits(candidates, search) == []
  {
    if candidates != [] {
      NoHits(candidates[1..], search);
    }
  }

  /** A normalised record keeps the identity and the synopsis and applies the poster and year sentinels. */
  lemma NormaliseFields(m: RawMovie)
    ensures var s := Normalise(m);
      && s.id == m.id && s.title == m.title && s.description == m.overview
      && (s.posterUrl == "" <==> !Truthy(m.posterPath))
      && (Truthy(m.posterPath) ==> s.posterUrl == PosterBase + m.posterPath.value)
      && (!Truthy(m.releaseDate) ==> s.releaseYear == NoYear)
      && s.releaseYear == ReleaseYear(m.releaseDate)
      && (Truthy(m.releaseDate) ==>
            && s.releaseYear <= m.releaseDate.value && '-' !in s.releaseYear
            && (|s.releaseYear| < |m.releaseDate.value| ==> m.releaseDate.value[|s.releaseYear|] == '-'))
  {
    UrlOrEmptyInverse(PosterBase, m.posterPath);
  }

  /**
   * The worked example: the model answers ["Inception"], the catalog has one
   * record for it, and the endpoint returns that one summary.
   */
  lemma InceptionExample(parse: string -> ParseOutcome, search: string -> SearchOutcome)
    requires parse("[\"Inception\"]") == Array([Some("Inception")])
    requires search("Inception") == Results([RawMovie(27205, "Inception", "...", Some("/x.jpg"), Some("2010-07-15"))])
    ensures GetMovies(Some("a thief who plants ideas in people's dreams"), Completion("[\"Inception\"]"), parse, search)
         == Found([MovieSummary(27205, "Inception", "...", PosterBase + "/x.jpg", "2010")])
  {
    var raw := "[\"Inception\"]";
    var hit := RawMovie(27205, "Inception", "...", Some("/x.jpg"), Some("2010-07-15"));
    TrimOfTrimmed(raw);
    ArrayCompletion(Some("a thief who plants ideas in people's dreams"), raw, parse, search);
    SingleTitleFanOut("Inception", hit, search);
    InceptionSummary();
  }

  lemma InceptionSummary()
    ensures Normalise(RawMovie(27205, "Inception", "...", Some("/x.jpg"), Some("2010-07-15")))
         == MovieSummary(27205, "Inception", "...", PosterBase + "/x.jpg", "2010")
  {
    ReleaseYearOfDate("2010", "07-15");
    assert "2010" + "-" + "07-15" == "2010-07-15";
  }

  /** A completion that needs no trimming and parses as an array is searched element by element. */
  lemma ArrayCompletion(description: Option<string>, raw: string, parse: string -> ParseOutcome, search: string -> SearchOutcome)
    requires Truthy(description) && Trim(raw) == raw && parse(raw).Array?
    ensures GetMovies(description, Completion(raw), parse, search) == GetMoviesFrom(SearchAll(parse(raw).elements, search))
  {
  }

  /** One title whose search finds one record gives that record, normalised. */
  lemma SingleTitleFanOut(title: string, hit: RawMovie, search: string -> SearchOutcome)
    requires title != "" && search(title) == Results([hit])
    ensures GetMoviesFrom(SearchAll([Some(title)], search)) == Found([Normalise(hit)])
  {
    var candidates := [Some(title)];
    assert SearchAll(candidates, search) == Some([Some([hit])]) by {
      assert SearchAll(candidates[1..], search) == Some([]);
      assert SearchOne(candidates[0], search) == Some(Some([hit]));
      assert [Some([hit])] + [] == [Some([hit])];
    }
    assert Flatten([Some([hit])]) == [hit] by {
      assert Flatten([Some([hit])][1..]) == [];
    }
    assert NormaliseAll([hit]) == [Normalise(hit)];
  }
}
