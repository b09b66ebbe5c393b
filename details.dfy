/**
 * The detail endpoint: one movie's catalog record, its credits and one external
 * id lookup per shown person are assembled into the detail record.
 *
 * The three kinds of upstream requests are parameters; a person lookup is a
 * function of the person's id.
 */
module MovieDetails {
  import opened Wrappers
  import opened Text
  import opened Tmdb

  datatype Genre = Genre(name: string)
  datatype Image = Image(filePath: string)
  datatype Video = Video(site: string, kind: string, key: Option<string>)

  /** The catalog's detail record, with its images and videos appended. */
  datatype RawDetail = RawDetail(
    id: int,
    title: string,
    overview: string,
    posterPath: Option<string>,
    releaseDate: Option<string>,
    genres: seq<Genre>,
    voteAverage: real,
    voteCount: int,
    backdropPath: Option<string>,
    backdrops: seq<Image>,
    posters: seq<Image>,
    videos: seq<Video>,
    imdbId: Option<string>)

  datatype RawCast = RawCast(id: int, name: string, character: string, profilePath: Option<string>)
  datatype RawCrew = RawCrew(id: int, name: string, job: string)
  datatype Credits = Credits(cast: seq<RawCast>, crew: seq<RawCrew>)

  /** An HTTP error response from the catalog. */
  datatype HttpResponse = HttpResponse(status: int, statusText: string)

  /** The outcome of a catalog request: the payload, or a failure with or without a response. */
  datatype Fetch<T> = Fetched(value: T) | FetchFailed(response: Option<HttpResponse>)

  /** The outcome of one person's external ids request. */
  datatype PersonLookup = LookupFailed | ExternalIds(imdbId: Option<string>)

  datatype CastMember = CastMember(
    id: int, name: string, character: string,
    profileUrl: Option<string>, imdbUrl: Option<string>, tmdbUrl: string)

  datatype CrewMember = CrewMember(id: int, name: string, job: string, imdbUrl: Option<string>)

  /** The detail record sent to the client. */
  datatype MovieDetail = MovieDetail(
    id: int,
    title: string,
    description: string,
    posterUrl: string,
    releaseYear: string,
    genres: seq<string>,
    rating: real,
    voteCount: int,
    backdropUrl: string,
    backdrops: seq<string>,
    posters: seq<string>,
    trailerUrl: string,
    cast: seq<CastMember>,
    crew: seq<CrewMember>,
    imdbId: Option<string>,
    imdbUrl: Option<string>)

  datatype DetailResponse = Detail(movie: MovieDetail) | Failure(status: int, message: string)

  const MaxCast: nat := 8
  const Jobs: seq<string> := ["Director", "Producer", "Writer"]
  const KeyMissing: string := "TMDB API key is not configured."
  const FetchFailedPrefix: string := "Failed to fetch movie details: "
  const InternalError: string := "An internal server error occurred while fetching movie details."

  /** The profile link from a person's external ids; `null` when the lookup failed or found no IMDb id. */
  function PersonImdbUrl(lookup: PersonLookup): (r: Option<string>)
    ensures r.None? <==> lookup.LookupFailed? || !Truthy(lookup.imdbId)
    ensures r.Some? ==> r.value == ImdbNameBase + lookup.imdbId.value
  {
    match lookup
    case LookupFailed => None
    case ExternalIds(imdbId) => UrlOrNull(ImdbNameBase, imdbId)
  }

  function CastEntry(member: RawCast, lookup: int -> PersonLookup): CastMember
  {
    CastMember(
      member.id, member.name, member.character,
      UrlOrNull(ProfileBase, member.profilePath),
      PersonImdbUrl(lookup(member.id)),
      TmdbPersonBase + IntToString(member.id))
  }

  /** The first eight cast members, each with its own lookup. */
  function CastOf(cast: seq<RawCast>, lookup: int -> PersonLookup): (r: seq<CastMember>)
    ensures |r| == if |cast| <= MaxCast then |cast| else MaxCast
  {
    var shown := if |cast| <= MaxCast then cast else cast[..MaxCast];
    seq(|shown|, i requires 0 <= i < |shown| => CastEntry(shown[i], lookup))
  }

  /** `crew.find(member => member.job === job)`. */
  function FindByJob(crew: seq<RawCrew>, job: string): (r: Option<RawCrew>)
    ensures r.None? <==> forall i :: 0 <= i < |crew| ==> crew[i].job != job
    ensures r.Some? ==> exists i :: 0 <= i < |crew| && crew[i] == r.value && crew[i].job == job
                                    && forall j :: 0 <= j < i ==> crew[j].job != job
  {
    if crew == [] then None
    else if crew[0].job == job then Some(crew[0])
    else
      var r := FindByJob(crew[1..], job);
      assert r.Some? ==> exists i :: 1 <= i < |crew| && crew[i] == r.value && crew[i].job == job
                                     && forall j :: 0 <= j < i ==> crew[j].job != job by {
        if r.Some? {
          var i :| 0 <= i < |crew| - 1 && crew[1..][i] == r.value && crew[1..][i].job == job
                   && forall j :: 0 <= j < i ==> crew[1..][j].job != job;
          assert forall j :: 1 <= j < i + 1 ==> crew[j].job != job by {
            forall j | 1 <= j < i + 1 ensures crew[j].job != job {
              assert crew[j] == crew[1..][j - 1];
            }
          }
        }
      }
      r
  }

  function CrewEntry(person: RawCrew, lookup: int -> PersonLookup): CrewMember
  {
    CrewMember(person.id, person.name, person.job, PersonImdbUrl(lookup(person.id)))
  }

  /** The entry for one job, or `null` when nobody has that job. */
  function CrewForJob(crew: seq<RawCrew>, job: string, lookup: int -> PersonLookup): Option<CrewMember>
  {
    match FindByJob(crew, job)
    case None => None
    case Some(person) => Some(CrewEntry(person, lookup))
  }

  /** Director, producer and writer, in that order, skipping the jobs nobody has. */
  function CrewOf(crew: seq<RawCrew>, lookup: int -> PersonLookup): seq<CrewMember>
  {
    ToSeq(CrewForJob(crew, Jobs[0], lookup))
      + ToSeq(CrewForJob(crew, Jobs[1], lookup))
      + ToSeq(CrewForJob(crew, Jobs[2], lookup))
  }

  predicate IsTrailer(v: Video)
  {
    v.site == "YouTube" && v.kind == "Trailer"
  }

  /** `videos.find(v => v.site === "YouTube" && v.type === "Trailer")`. */
  function FindTrailer(videos: seq<Video>): (r: Option<nat>)
    ensures r.None? <==> forall i :: 0 <= i < |videos| ==> !IsTrailer(videos[i])
    ensures r.Some? ==> r.value < |videos| && IsTrailer(videos[r.value])
                        && forall j :: 0 <= j < r.value ==> !IsTrailer(videos[j])
  {
    if videos == [] then None
    else if IsTrailer(videos[0]) then Some(0)
    else
      match FindTrailer(videos[1..])
      case None => None
      case Some(k) =>
        assert forall j :: 1 <= j < k + 1 ==> !IsTrailer(videos[j]) by {
          forall j | 1 <= j < k + 1 ensures !IsTrailer(videos[j]) {
            assert videos[j] == videos[1..][j - 1];
          }
        }
        Some(k + 1)
  }

  /** The embed link of the first YouTube trailer when that entry has a key, the empty string otherwise. */
  function TrailerUrl(videos: seq<Video>): string
  {
    match FindTrailer(videos)
    case None => ""
    case Some(k) => UrlOrEmpty(YoutubeEmbedBase, videos[k].key)
  }

  function Urls(base: string, images: seq<Image>): (r: seq<string>)
    ensures |r| == |images|
  {
    seq(|images|, i requires 0 <= i < |images| => base + images[i].filePath)
  }

  function GenreNames(genres: seq<Genre>): (r: seq<string>)
    ensures |r| == |genres|
  {
    seq(|genres|, i requires 0 <= i < |genres| => genres[i].name)
  }

  /** The record assembled from the detail record and the credits. */
  function Assemble(d: RawDetail, credits: Credits, lookup: int -> PersonLookup): MovieDetail
  {
    MovieDetail(
      d.id, d.title, d.overview,
      UrlOrEmpty(PosterBase, d.posterPath),
      ReleaseYear(d.releaseDate),
      GenreNames(d.genres),
      d.voteAverage, d.voteCount,
      UrlOrEmpty(BackdropBase, d.backdropPath),
      Urls(GalleryBackdropBase, d.backdrops),
      Urls(PosterBase, d.posters),
      TrailerUrl(d.videos),
      CastOf(credits.cast, lookup),
      CrewOf(credits.crew, lookup),
      d.imdbId,
      UrlOrNull(ImdbTitleBase, d.imdbId))
  }

  /** A failed request: its own status and status text when there was a response, 500 otherwise. */
  function FailureOf(response: Option<HttpResponse>): DetailResponse
  {
    match response
    case Some(resp) => Failure(resp.status, FetchFailedPrefix + resp.statusText)
    case None => Failure(500, InternalError)
  }

  /** The detail endpoint. The credits are requested only after the detail record arrived. */
  function GetMovieData(
    apiKey: Option<string>,
    detail: Fetch<RawDetail>,
    credits: Fetch<Credits>,
    lookup: int -> PersonLookup): DetailResponse
  {
    if !Truthy(apiKey) then Failure(500, KeyMissing)
    else match detail
      case FetchFailed(resp) => FailureOf(resp)
      case Fetched(d) =>
        match credits
        case FetchFailed(resp) => FailureOf(resp)
        case Fetched(c) => Detail(Assemble(d, c, lookup))
  }

  // ----- Properties -----

  /** The cast is the first eight credited members in provider order, each keeping its own fields. */
  lemma CastIsPrefix(cast: seq<RawCast>, lookup: int -> PersonLookup)
    ensures var r := CastOf(cast, lookup);
      && |r| <= MaxCast && (|cast| >= MaxCast ==> |r| == MaxCast)
      && forall i :: 0 <= i < |r| ==>
           && r[i].id == cast[i].id && r[i].name == cast[i].name && r[i].character == cast[i].character
           && r[i].tmdbUrl == TmdbPersonBase + IntToString(cast[i].id)
           && (r[i].profileUrl.None? <==> !Truthy(cast[i].profilePath))
           && (Truthy(cast[i].profilePath) ==> r[i].profileUrl == Some(ProfileBase + cast[i].profilePath.value))
           && r[i].imdbUrl == PersonImdbUrl(lookup(cast[i].id))
           && (r[i].imdbUrl.None? <==> lookup(cast[i].id).LookupFailed? || !Truthy(lookup(cast[i].id).imdbId))
           && (r[i].imdbUrl.Some? ==> r[i].imdbUrl.value == ImdbNameBase + lookup(cast[i].id).imdbId.value)
  {
    var r := CastOf(cast, lookup);
    forall i | 0 <= i < |r|
      ensures r[i] == CastEntry(cast[i], lookup)
      ensures r[i].profileUrl.None? <==> !Truthy(cast[i].profilePath)
    {
      CastOfAt(cast, lookup, i);
      UrlOrNullInverse(ProfileBase, cast[i].profilePath);
    }
  }

  lemma CastOfAt(cast: seq<RawCast>, lookup: int -> PersonLookup, i: nat)
    requires i < |CastOf(cast, lookup)|
    ensures i < |cast| && CastOf(cast, lookup)[i] == CastEntry(cast[i], lookup)
  {
  }

  /**
   * A failed lookup affects only the member it was for: changing the lookup for
   * one person id leaves every member with another id exactly as it was.
   */
  lemma CastLookupIsolated(cast: seq<RawCast>, lookup1: int -> PersonLookup, lookup2: int -> PersonLookup, person: int)
    requires forall id :: id != person ==> lookup1(id) == lookup2(id)
    ensures |CastOf(cast, lookup1)| == |CastOf(cast, lookup2)|
    ensures forall i :: 0 <= i < |CastOf(cast, lookup1)| && cast[i].id != person ==>
              CastOf(cast, lookup1)[i] == CastOf(cast, lookup2)[i]
    ensures forall i :: 0 <= i < |CastOf(cast, lookup1)| ==>
              CastOf(cast, lookup1)[i].(imdbUrl := None) == CastOf(cast, lookup2)[i].(imdbUrl := None)
  {
    forall i | 0 <= i < |CastOf(cast, lookup1)|
      ensures CastOf(cast, lookup1)[i] == CastEntry(cast[i], lookup1)
      ensures CastOf(cast, lookup2)[i] == CastEntry(cast[i], lookup2)
    {
      CastOfAt(cast, lookup1, i);
      CastOfAt(cast, lookup2, i);
    }
  }

  /**
   * The crew holds at most one entry per job, in the order Director, Producer,
   * Writer: the jobs of the entries strictly increase along the fixed job list.
   */
  lemma CrewOrder(crew: seq<RawCrew>, lookup: int -> PersonLookup)
    ensures var r := CrewOf(crew, lookup);
      && |r| <= |Jobs|
      && (forall k :: 0 <= k < |r| ==> r[k].job in Jobs)
      && (forall k, l :: 0 <= k < l < |r| ==> JobRank(r[k].job) < JobRank(r[l].job))
  {
    var d, p, w := CrewForJob(crew, Jobs[0], lookup), CrewForJob(crew, Jobs[1], lookup), CrewForJob(crew, Jobs[2], lookup);
    EntryHasJob(crew, Jobs[0], lookup);
    EntryHasJob(crew, Jobs[1], lookup);
    EntryHasJob(crew, Jobs[2], lookup);
    RanksIncrease(d, p, w);
  }

  /** An entry found for a job carries that job. */
  lemma EntryHasJob(crew: seq<RawCrew>, job: string, lookup: int -> PersonLookup)
    ensures var e := CrewForJob(crew, job, lookup); e.Some? ==> e.value.job == job
  {
  }

  /** Up to three entries, one per job in list order, have strictly increasing ranks. */
  lemma RanksIncrease(d: Option<CrewMember>, p: Option<CrewMember>, w: Option<CrewMember>)
    requires d.Some? ==> d.value.job == Jobs[0]
    requires p.Some? ==> p.value.job == Jobs[1]
    requires w.Some? ==> w.value.job == Jobs[2]
    ensures var r := ToSeq(d) + ToSeq(p) + ToSeq(w);
      && |r| <= |Jobs|
      && (forall k :: 0 <= k < |r| ==> r[k].job in Jobs)
      && (forall k, l :: 0 <= k < l < |r| ==> JobRank(r[k].job) < JobRank(r[l].job))
  {
    var r := ToSeq(d) + ToSeq(p) + ToSeq(w);
    if d.Some? && p.Some? && w.Some? {
      assert r == [d.value, p.value, w.value];
    } else if d.Some? && p.Some? {
      assert r == [d.value, p.value];
    } else if d.Some? && w.Some? {
      assert r == [d.value, w.value];
    } else if p.Some? && w.Some? {
      assert r == [p.value, w.value];
    } else if d.Some? {
      assert r == [d.value];
    } else if p.Some? {
      assert r == [p.value];
    } else if w.Some? {
      assert r == [w.value];
    } else {
      assert r == [];
    }
  }

  /** A job has an entry in the crew exactly when somebody in the credits has that job. */
  lemma CrewCoversJobs(crew: seq<RawCrew>, lookup: int -> PersonLookup)
    ensures var r := CrewOf(crew, lookup);
      forall job :: job in Jobs ==>
        ((exists k :: 0 <= k < |r| && r[k].job == job) <==> (exists i :: 0 <= i < |crew| && crew[i].job == job))
  {
    forall job | job in Jobs
      ensures var r := CrewOf(crew, lookup);
        (exists k :: 0 <= k < |r| && r[k].job == job) <==> (exists i :: 0 <= i < |crew| && crew[i].job == job)
    {
      CrewJobPresent(crew, job, lookup);
      CrewForJobSpec(crew, job, lookup);
    }
  }

  lemma CrewJobPresent(crew: seq<RawCrew>, job: string, lookup: int -> PersonLookup)
    requires job in Jobs
    ensures var r := CrewOf(crew, lookup);
      (exists k :: 0 <= k < |r| && r[k].job == job) <==> CrewForJob(crew, job, lookup).Some?
  {
    EntryHasJob(crew, Jobs[0], lookup);
    EntryHasJob(crew, Jobs[1], lookup);
    EntryHasJob(crew, Jobs[2], lookup);
    JobPresent(CrewForJob(crew, Jobs[0], lookup), CrewForJob(crew, Jobs[1], lookup), CrewForJob(crew, Jobs[2], lookup), job);
  }

  /** Among one optional entry per job, a job shows up exactly when its own entry is present. */
  lemma JobPresent(d: Option<CrewMember>, p: Option<CrewMember>, w: Option<CrewMember>, job: string)
    requires d.Some? ==> d.value.job == Jobs[0]
    requires p.Some? ==> p.value.job == Jobs[1]
    requires w.Some? ==> w.value.job == Jobs[2]
    requires job in Jobs
    ensures var r := ToSeq(d) + ToSeq(p) + ToSeq(w);
      (exists k :: 0 <= k < |r| && r[k].job == job)
        <==> (if job == Jobs[0] then d.Some? else if job == Jobs[1] then p.Some? else w.Some?)
  {
    assert Jobs[0][0] != Jobs[1][0] && Jobs[1][0] != Jobs[2][0] && Jobs[0][0] != Jobs[2][0];
    var r := ToSeq(d) + ToSeq(p) + ToSeq(w);
    if d.Some? && p.Some? && w.Some? {
      assert r == [d.value, p.value, w.value] && r[0] == d.value && r[1] == p.value && r[2] == w.value;
    } else if d.Some? && p.Some? {
      assert r == [d.value, p.value] && r[0] == d.value && r[1] == p.value;
    } else if d.Some? && w.Some? {
      assert r == [d.value, w.value] && r[0] == d.value && r[1] == w.value;
    } else if p.Some? && w.Some? {
      assert r == [p.value, w.value] && r[0] == p.value && r[1] == w.value;
    } else if d.Some? {
      assert r == [d.value] && r[0] == d.value;
    } else if p.Some? {
      assert r == [p.value] && r[0] == p.value;
    } else if w.Some? {
      assert r == [w.value] && r[0] == w.value;
    } else {
      assert r == [];
    }
  }

  /** Every crew entry is built from the first person credited with its job, with that person's own lookup. */
  lemma CrewEntriesAreFirst(crew: seq<RawCrew>, lookup: int -> PersonLookup)
    ensures var r := CrewOf(crew, lookup);
      forall k :: 0 <= k < |r| ==> BuiltFromFirst(crew, lookup, r[k])
  {
    var d, p, w := CrewForJob(crew, Jobs[0], lookup), CrewForJob(crew, Jobs[1], lookup), CrewForJob(crew, Jobs[2], lookup);
    CrewForJobSpec(crew, Jobs[0], lookup);
    CrewForJobSpec(crew, Jobs[1], lookup);
    CrewForJobSpec(crew, Jobs[2], lookup);
    EachBuiltFromFirst(crew, lookup, d, p, w);
  }

  /** `m` was built from the first person credited with its job, with that person's own lookup. */
  ghost predicate BuiltFromFirst(crew: seq<RawCrew>, lookup: int -> PersonLookup, m: CrewMember)
  {
    exists i :: 0 <= i < |crew| && crew[i].job == m.job && crew[i].id == m.id && crew[i].name == m.name
                && m.imdbUrl == PersonImdbUrl(lookup(crew[i].id))
                && forall j :: 0 <= j < i ==> crew[j].job != m.job
  }

  lemma EachBuiltFromFirst(crew: seq<RawCrew>, lookup: int -> PersonLookup, d: Option<CrewMember>, p: Option<CrewMember>, w: Option<CrewMember>)
    requires d.Some? ==> BuiltFromFirst(crew, lookup, d.value)
    requires p.Some? ==> BuiltFromFirst(crew, lookup, p.value)
    requires w.Some? ==> BuiltFromFirst(crew, lookup, w.value)
    ensures var r := ToSeq(d) + ToSeq(p) + ToSeq(w);
      forall k :: 0 <= k < |r| ==> BuiltFromFirst(crew, lookup, r[k])
  {
    var r := ToSeq(d) + ToSeq(p) + ToSeq(w);
    forall k | 0 <= k < |r| ensures BuiltFromFirst(crew, lookup, r[k]) {
      assert r[k] in ToSeq(d) + ToSeq(p) + ToSeq(w);
    }
  }

  /** One job's entry: absent exactly when nobody has that job, otherwise built from the first person who has it. */
  lemma CrewForJobSpec(crew: seq<RawCrew>, job: string, lookup: int -> PersonLookup)
    ensures var e := CrewForJob(crew, job, lookup);
      && (e.None? <==> forall i :: 0 <= i < |crew| ==> crew[i].job != job)
      && (e.Some? ==>
            && e.value.job == job
            && exists i :: 0 <= i < |crew| && crew[i].job == job && crew[i].id == e.value.id && crew[i].name == e.value.name
                        && e.value.imdbUrl == PersonImdbUrl(lookup(crew[i].id))
                        && forall j :: 0 <= j < i ==> crew[j].job != job)
  {
  }

  /** The position of a job in the fixed job list. */
  function JobRank(job: string): nat
  {
    if job == Jobs[0] then 0 else if job == Jobs[1] then 1 else 2
  }

  /** With only a director credited, the crew has exactly that one entry. */
  lemma OnlyDirector(crew: seq<RawCrew>, lookup: int -> PersonLookup)
    requires exists i :: 0 <= i < |crew| && crew[i].job == "Director"
    requires forall i :: 0 <= i < |crew| ==> crew[i].job != "Producer" && crew[i].job != "Writer"
    ensures |CrewOf(crew, lookup)| == 1 && CrewOf(crew, lookup)[0].job == "Director"
  {
  }

  /**
   * The trailer link is non-empty exactly when the first YouTube trailer has a
   * key, and then it embeds that key; later trailers are never consulted.
   */
  lemma TrailerChoice(videos: seq<Video>)
    ensures TrailerUrl(videos) != "" <==>
      exists k :: 0 <= k < |videos| && IsTrailer(videos[k]) && Truthy(videos[k].key)
                  && forall j :: 0 <= j < k ==> !IsTrailer(videos[j])
    ensures forall k :: (0 <= k < |videos| && IsTrailer(videos[k]) && Truthy(videos[k].key)
                         && forall j :: 0 <= j < k ==> !IsTrailer(videos[j])) ==>
              TrailerUrl(videos) == YoutubeEmbedBase + videos[k].key.value
  {
    match FindTrailer(videos)
    case None =>
    case Some(k) =>
      UrlOrEmptyInverse(YoutubeEmbedBase, videos[k].key);
      forall k' | 0 <= k' < |videos| && IsTrailer(videos[k']) && (forall j :: 0 <= j < k' ==> !IsTrailer(videos[j]))
        ensures k' == k
      {
      }
  }

  /** The lists keep the provider's length and order under their URL templates. */
  lemma ListsKeepOrder(d: RawDetail, credits: Credits, lookup: int -> PersonLookup)
    ensures var m := Assemble(d, credits, lookup);
      && |m.genres| == |d.genres| && (forall i :: 0 <= i < |d.genres| ==> m.genres[i] == d.genres[i].name)
      && |m.backdrops| == |d.backdrops|
      && (forall i :: 0 <= i < |d.backdrops| ==> m.backdrops[i] == GalleryBackdropBase + d.backdrops[i].filePath)
      && |m.posters| == |d.posters|
      && (forall i :: 0 <= i < |d.posters| ==> m.posters[i] == PosterBase + d.posters[i].filePath)
  {
  }

  /** The single-valued fields: identity, poster and year as in search, backdrop and IMDb sentinels. */
  lemma FieldSentinels(d: RawDetail, credits: Credits, lookup: int -> PersonLookup)
    ensures var m := Assemble(d, credits, lookup);
      && m.id == d.id && m.title == d.title && m.description == d.overview
      && m.rating == d.voteAverage && m.voteCount == d.voteCount && m.imdbId == d.imdbId
      && (m.posterUrl == "" <==> !Truthy(d.posterPath))
      && (Truthy(d.posterPath) ==> m.posterUrl == PosterBase + d.posterPath.value)
      && (m.backdropUrl == "" <==> !Truthy(d.backdropPath))
      && (Truthy(d.backdropPath) ==> m.backdropUrl == BackdropBase + d.backdropPath.value)
      && (m.imdbUrl.None? <==> !Truthy(d.imdbId))
      && (Truthy(d.imdbId) ==> m.imdbUrl == Some(ImdbTitleBase + d.imdbId.value))
      && m.releaseYear == ReleaseYear(d.releaseDate)
      && (!Truthy(d.releaseDate) ==> m.releaseYear == NoYear)
      && (Truthy(d.releaseDate) ==> m.releaseYear <= d.releaseDate.value && '-' !in m.releaseYear)
  {
    UrlOrEmptyInverse(PosterBase, d.posterPath);
    UrlOrEmptyInverse(BackdropBase, d.backdropPath);
    UrlOrNullInverse(ImdbTitleBase, d.imdbId);
  }

  /**
   * The outcome of the endpoint: 500 without an API key; a failed detail or
   * credits request gives that request's status (500 without a response); a
   * failed credits request is not softened into an empty cast.
   */
  lemma GetMovieDataOutcome(apiKey: Option<string>, detail: Fetch<RawDetail>, credits: Fetch<Credits>, lookup: int -> PersonLookup)
    ensures var r := GetMovieData(apiKey, detail, credits, lookup);
      && (!Truthy(apiKey) ==> r == Failure(500, KeyMissing))
      && (Truthy(apiKey) && detail.FetchFailed? ==>
            r == FailureOf(detail.response)
            && (detail.response.Some? ==> r.status == detail.response.value.status)
            && (detail.response.None? ==> r.status == 500))
      && (Truthy(apiKey) && detail.Fetched? && credits.FetchFailed? ==> r.Failure? && r == FailureOf(credits.response))
      && (r.Detail? <==> Truthy(apiKey) && detail.Fetched? && credits.Fetched?)
      && (r.Detail? ==> r.movie == Assemble(detail.value, credits.value, lookup))
  {
  }

  /** When the detail request fails, neither the credits nor the person lookups matter. */
  lemma DetailFailureIsFinal(
    apiKey: Option<string>, resp: Option<HttpResponse>,
    credits1: Fetch<Credits>, lookup1: int -> PersonLookup, credits2: Fetch<Credits>, lookup2: int -> PersonLookup)
    ensures GetMovieData(apiKey, FetchFailed(resp), credits1, lookup1) == GetMovieData(apiKey, FetchFailed(resp), credits2, lookup2)
  {
  }
}
