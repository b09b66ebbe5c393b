# Movie Recall: a Dafny model of the title resolution, detail assembly, favourites store and two UI state machines

Movie Recall lets a user describe a film in free text. The server has a language
model propose candidate titles, looks each title up in the TMDB movie catalog,
and returns up to ten matches. For one movie, it assembles a detail record from
the catalog record, the credits and one external-id lookup per shown person. An
in-memory store keeps users and their favourite movies. On the client, a
typewriter hook animates the search box placeholder, and an image carousel keeps
the index of the image shown in its modal.

This project models those parts as Dafny and proves their properties:

- `wrappers.dfy` (`Wrappers`): `Option`, which stands for JavaScript's `null` and `undefined`.
- `text.dfy` (`Text`): the JavaScript string operations the core relies on, each with its own properties.
  - `String.prototype.trim`, with the exact ECMAScript whitespace set.
  - `String(n)` for integers.
  - `s.split("-")[0]`.
  - Truthiness.
- `tmdb.dfy` (`Tmdb`): the URL templates and the `"N/A"` year sentinel used by both endpoints.
- `search.dfy` (`MovieSearch`): the search endpoint `getMovies`, as pure functions.
  - The completion outcome, `JSON.parse` and the catalog search are parameters.
  - `AllHits` is an independent reference definition of the hit list. `GatheredOutcome` ties the endpoint's result to it.
- `details.dfy` (`MovieDetails`): the detail endpoint `getMovieData`, as pure functions.
  - The detail fetch, the credits fetch and the person lookup are parameters.
- `userstore.dfy` (`UserStore`): the two module-level tables, modelled as a class `Store`.
  - Its map fields are updated in place by `GetOrCreateUser`, `AddFavorite` and `RemoveFavorite`.
  - The class invariant: every user is filed under its own email and has a favourites list, and no list repeats an id.
  - Each method's new state is given by the pure list operations `AddedTo` and `Without`. Their properties are proved as lemmas.
- `typewriter.dfy` (`Typewriter`): the hook's transition function `Next`, its invariant and the multi-step lemmas.
  - A class `TypewriterEffect` holds the three state variables. Its `Step` is one timer firing.
- `carousel.dfy` (`ImageCarousel`): the wrap-around index functions and their inverse and rotation lemmas.
  - A class `Carousel` holds the selection, which handlers update.

Some choices of representation:

- Ids of favourites are `Absent | Num(n) | Str(s)`, because a request body may carry either a number or a string.
- `addFavorite` tests for duplicates with `===`, which tells `5` from `"5"`. `removeFavorite` compares `String(id)`, which does not. `RemoveMatchesLoosely` shows the effect: a list can hold both `5` and `"5"`, and removing `"5"` drops both.

## Model

| member | source | states |
|---|---|---|
| Wrappers.ToSeq | server/src/controllers/movie/getMovie.ts:88 | Dropping a `null` entry: empty exactly for `None`, otherwise the one value. |
| Text.TrimStart | server/src/controllers/movie/getMovies.ts:40 | The result is a suffix of the input, everything cut off is whitespace, and the result does not start with whitespace. |
| Text.TrimEnd | server/src/controllers/movie/getMovies.ts:40 | The result is a prefix of the input, everything cut off is whitespace, and the result does not end with whitespace. |
| Text.TrimSplits | server/src/controllers/movie/getMovies.ts:40 | The input is a whitespace prefix, then the trimmed text, then a whitespace suffix. |
| Text.TrimEnds | server/src/controllers/movie/getMovies.ts:40 | The trimmed text neither starts nor ends with a whitespace character. |
| Text.TrimIdempotent | server/src/controllers/movie/getMovies.ts:40 | Trimming twice equals trimming once. |
| Text.TrimOfTrimmed | server/src/controllers/movie/getMovies.ts:40 | A text with no whitespace at either end is left unchanged. |
| Text.BeforeFirst | server/src/controllers/movie/getMovies.ts:86 | `split(sep)[0]`: a prefix without `sep`, followed in the input by `sep` when it is shorter. |
| Text.BeforeFirstOfJoin | server/src/controllers/movie/getMovies.ts:86 | For `head + sep + tail` with no `sep` in `head`, the first piece is `head`, whatever `tail` holds. |
| Text.NatToString | server/src/controllers/movie/getMovie.ts:55 | Decimal digits only, non-empty, no leading zero. |
| Text.NatToStringRoundTrip | server/src/controllers/movie/getMovie.ts:55 | Reading the printed digits back gives the number. |
| Text.NatToStringInjective | server/src/controllers/user/removeFavorite.ts:7 | Different natural numbers print differently. |
| Text.IntToStringInjective | server/src/controllers/user/removeFavorite.ts:7 | Different integers print differently, so `String` comparison of two number ids is number comparison. |
| Tmdb.UrlOrEmptyInverse | server/src/controllers/movie/getMovies.ts:82-84 | The URL is `""` exactly when the path is falsy. Otherwise it is the template followed by the path, and the path can be read back. |
| Tmdb.UrlOrNullInverse | server/src/controllers/movie/getMovie.ts:51-53 | The same for the `null`-valued variant. |
| Tmdb.ReleaseYearOfDate | server/src/controllers/movie/getMovies.ts:85-87 | `year + "-" + rest` shows as `year`, for any `year` without `-`, including the empty one. An absent or empty date shows as `"N/A"`. |
| Tmdb.ReleaseYearIsPrefix | server/src/controllers/movie/getMovie.ts:97-99 | The year shown for a truthy date is a prefix of it and holds no `-`. |
| Tmdb.ReleaseYearExample | server/src/controllers/movie/getMovies.ts:85-87 | `"1999-03-31"` shows as `"1999"`. |
| MovieSearch.Queries | server/src/controllers/movie/getMovies.ts:56-57 | The searched titles are non-empty candidates, never more than there are candidates. |
| MovieSearch.SearchAll | server/src/controllers/movie/getMovies.ts:56-73 | `Promise.all` fails exactly when some searched title's search fails. Otherwise there is one entry per candidate. |
| MovieSearch.Take | server/src/controllers/movie/getMovies.ts:90 | `slice(0, n)`: a prefix of length `min(n, length)`. |
| MovieSearch.AllHitsSplit | server/src/controllers/movie/getMovies.ts:73-77 | Hits of earlier candidates precede hits of later ones, each candidate's hits in provider order. |
| MovieSearch.AllHitsCount | server/src/controllers/movie/getMovies.ts:74-77 | No dedupe: the hit count is the sum over both parts of any split of the candidates. |
| MovieSearch.FlattenIsAllHits | server/src/controllers/movie/getMovies.ts:73-77 | When no search fails, the flattened and filtered entries equal the reference hit list. |
| MovieSearch.GatheredOutcome | server/src/controllers/movie/getMovies.ts:73-96 | 500 if a searched title fails, else 404 if there are no hits, else exactly the first `min(10, n)` normalised hits. |
| MovieSearch.GetMoviesOutcome | server/src/controllers/movie/getMovies.ts:11-107 | 400 exactly for a falsy description. 500 when the completion fails or some searched title fails. Otherwise, with `n` hits from the candidates of the trimmed completion: 404 when `n` is 0, else exactly the first `min(10, n)` hits, normalised. |
| MovieSearch.GetMoviesBounded | server/src/controllers/movie/getMovies.ts:90-99 | A 200 response holds between 1 and 10 movies. |
| MovieSearch.RejectedBeforeUpstream | server/src/controllers/movie/getMovies.ts:11-13 | A falsy description gives 400 whatever the model and the catalog would answer. |
| MovieSearch.SearchAllOnlyQueries | server/src/controllers/movie/getMovies.ts:56-71 | Search answers for titles that are not queried do not change the fan-out. |
| MovieSearch.OnlyQueriedTitlesMatter | server/src/controllers/movie/getMovies.ts:56-73 | The endpoint's response depends on the catalog only through the queried titles. |
| MovieSearch.FallbackIsOneQuery | server/src/controllers/movie/getMovies.ts:43-53 | Text that is not JSON, or not an array, is one query: the whole trimmed text, or none when that is empty. |
| MovieSearch.ArrayQueries | server/src/controllers/movie/getMovies.ts:44-57 | A parsed array is queried element by element in array order, skipping falsy elements. |
| MovieSearch.QueriesSplit | server/src/controllers/movie/getMovies.ts:56-57 | The queries of a concatenation are the concatenation of the queries. |
| MovieSearch.NoHitsIsNotFound | server/src/controllers/movie/getMovies.ts:68-96 | When every search returns zero results, the response is 404 "Could not find any matching movies.". |
| MovieSearch.NoHits | server/src/controllers/movie/getMovies.ts:68-70 | Empty search results contribute no hits. |
| MovieSearch.NormaliseFields | server/src/controllers/movie/getMovies.ts:78-88 | Id, title and overview are kept. The poster is the `w500` URL or `""` exactly when the path is falsy. The year is `ReleaseYear` of the date: `"N/A"` for a falsy date, otherwise the longest prefix of it without `-`, which ends at the first `-` when there is one. |
| MovieSearch.InceptionExample | server/src/controllers/movie/getMovies.ts:8-99 | A completion `["Inception"]` with one catalog hit gives exactly that one summary. |
| MovieSearch.InceptionSummary | server/src/controllers/movie/getMovies.ts:78-88 | The normalised record of the example hit. |
| MovieSearch.ArrayCompletion | server/src/controllers/movie/getMovies.ts:40-47 | An untrimmable completion that parses as an array is fanned out over that array. |
| MovieSearch.SingleTitleFanOut | server/src/controllers/movie/getMovies.ts:56-99 | One title with one hit gives that hit, normalised. |
| MovieDetails.PersonImdbUrl | server/src/controllers/movie/getMovie.ts:32-46 | `null` exactly when the lookup fails or has a falsy IMDb id. Otherwise the `imdb.com/name/` URL of that id. |
| MovieDetails.CastOf | server/src/controllers/movie/getMovie.ts:29 | The cast has `min(8, n)` entries. |
| MovieDetails.FindByJob | server/src/controllers/movie/getMovie.ts:66 | `find`: absent exactly when no record has the job, otherwise the first record with that job. |
| MovieDetails.FindTrailer | server/src/controllers/movie/getMovie.ts:114-116 | `find`: absent exactly when there is no YouTube trailer, otherwise the index of the first one. |
| MovieDetails.Urls | server/src/controllers/movie/getMovie.ts:107-112 | One URL per image. |
| MovieDetails.GenreNames | server/src/controllers/movie/getMovie.ts:100 | One name per genre. |
| MovieDetails.CastIsPrefix | server/src/controllers/movie/getMovie.ts:29-58 | Entry i is built from credited member i: id, name, character and TMDB person URL. `profileUrl` is `null` exactly when the path is falsy, otherwise the `w185` URL of the path. `imdbUrl` is `null` exactly when the lookup fails or finds no id, otherwise the `imdb.com/name/` URL of that id. |
| MovieDetails.CastOfAt | server/src/controllers/movie/getMovie.ts:29-58 | Cast entry i is the entry built from credited member i. |
| MovieDetails.CastLookupIsolated | server/src/controllers/movie/getMovie.ts:33-46 | Changing one person's lookup changes no other member, and changes that member only in `imdbUrl`. |
| MovieDetails.CrewOrder | server/src/controllers/movie/getMovie.ts:63-88 | At most three entries, all with listed jobs, in the strict order Director, Producer, Writer. |
| MovieDetails.RanksIncrease | server/src/controllers/movie/getMovie.ts:63-88 | One optional entry per job, concatenated, gives strictly increasing job ranks. |
| MovieDetails.CrewCoversJobs | server/src/controllers/movie/getMovie.ts:63-88 | A job appears in the crew exactly when some credited person has that job. Jobs nobody has are omitted, not padded. |
| MovieDetails.CrewJobPresent | server/src/controllers/movie/getMovie.ts:63-88 | A listed job appears in the crew exactly when its own lookup found a person. |
| MovieDetails.JobPresent | server/src/controllers/movie/getMovie.ts:88 | `filter(Boolean)` over the three job entries keeps a job exactly when its entry is present. |
| MovieDetails.CrewEntriesAreFirst | server/src/controllers/movie/getMovie.ts:66-85 | Every crew entry is built from the first person credited with its job, with that person's own IMDb lookup. |
| MovieDetails.EachBuiltFromFirst | server/src/controllers/movie/getMovie.ts:80-88 | That property of each present job entry carries over to the filtered list. |
| MovieDetails.CrewForJobSpec | server/src/controllers/movie/getMovie.ts:65-86 | One job's entry is absent exactly when nobody has the job. Otherwise it is the first such person, with that person's lookup. |
| MovieDetails.OnlyDirector | server/src/controllers/movie/getMovie.ts:63-88 | With a director and no producer or writer, the crew is that one director. |
| MovieDetails.TrailerChoice | server/src/controllers/movie/getMovie.ts:114-122 | The trailer URL is non-empty exactly when the first YouTube trailer has a truthy key, and it then embeds that key. |
| MovieDetails.ListsKeepOrder | server/src/controllers/movie/getMovie.ts:100-112 | Genres, backdrops and posters keep length and order, under the name, `w1280` and `w500` mappings. |
| MovieDetails.FieldSentinels | server/src/controllers/movie/getMovie.ts:90-129 | Identity, rating and counts are passed through. Poster, backdrop and IMDb URL are `""`/`null` exactly when the path or id is falsy, and otherwise are their templates followed by the path or id. The year is the search endpoint's `ReleaseYear`: `"N/A"` for a falsy date, else a `-`-free prefix of it. |
| MovieDetails.GetMovieDataOutcome | server/src/controllers/movie/getMovie.ts:8-144 | No key gives 500. A failed detail or credits request gives its own status (500 without a response), with no partial record. A detail record results exactly when key, detail and credits are all present, and it is then the record assembled from them. |
| MovieDetails.DetailFailureIsFinal | server/src/controllers/movie/getMovie.ts:13-27 | When the detail request fails, the credits and person lookups do not matter. |
| UserStore.Without | server/src/controllers/user/removeFavorite.ts:6-8 | No kept entry matches the id as a string. Every non-matching entry keeps its multiplicity. The length never grows. |
| UserStore.AddedToSpec | server/src/controllers/user/addFavorite.ts:11-13 | Afterwards the id is present. The list is unchanged if it was present already. Otherwise the movie is appended after the unchanged prefix. Adding twice equals adding once. |
| UserStore.AddedToKeepsDistinct | server/src/controllers/user/addFavorite.ts:11-13 | Adding preserves "no two entries share an id". |
| UserStore.WithoutIsSubsequence | server/src/controllers/user/removeFavorite.ts:6-8 | The kept entries are a subsequence of the list, in their original relative order. |
| UserStore.SubsequenceNotEmptyHead | server/src/controllers/user/removeFavorite.ts:6-8 | A subsequence of a list's tail is a subsequence of the list. |
| UserStore.SubsequenceDropOne | server/src/controllers/user/removeFavorite.ts:6-8 | Dropping the head of a subsequence keeps it a subsequence. |
| UserStore.WithoutIdempotent | server/src/controllers/user/removeFavorite.ts:6-8 | Removing twice equals removing once. |
| UserStore.WithoutKeepsDistinct | server/src/controllers/user/removeFavorite.ts:6-8 | Removing preserves "no two entries share an id". |
| UserStore.DistinctCount | server/src/controllers/user/addFavorite.ts:11-13 | In a list without repeated ids, every movie occurs at most once. |
| UserStore.TwoCopies | server/src/controllers/user/removeFavorite.ts:6-8 | A movie at two positions occurs at least twice. |
| UserStore.RemoveMatchesLoosely | server/src/controllers/user/removeFavorite.ts:7 | The list can hold both the number `5` and the string `"5"`, and removing `"5"` drops both. |
| UserStore.Store.constructor | server/src/controllers/user/getOrCreateUser.ts:4-5 | Both tables start empty, and the invariant holds. |
| UserStore.Store.GetOrCreateUserHelper | server/src/controllers/user/getOrCreateUser.ts:7-14 | A known email returns its user and changes nothing. A new email is filed as `{freshId, email}` with an empty list. The invariant is kept. |
| UserStore.Store.GetOrCreateUser | server/src/controllers/user/getOrCreateUser.ts:18-23 | A falsy email gives 400 and changes nothing. Otherwise it returns the user with the given email: the existing one, or a new one with an empty list. |
| UserStore.Store.AddFavorite | server/src/controllers/user/addFavorite.ts:4-15 | A missing movie or falsy id gives 400 and changes nothing. Otherwise the user's list becomes `AddedTo` of the old list (`[]` if there was none), and the reply is the new list. Every other user's list stays as it was. |
| UserStore.Store.RemoveFavorite | server/src/controllers/user/removeFavorite.ts:4-11 | An unknown user gives `[]` and creates no list. Otherwise the user's list becomes `Without` of the old list, and the reply is the new list. Every other user's list stays as it was. |
| Typewriter.InitialInvariant | client/src/hooks/useTypewritterEffect.ts:17-19 | The initial state `("", 0, false)` satisfies the invariant. |
| Typewriter.NextKeepsInvariant | client/src/hooks/useTypewritterEffect.ts:22-39 | Every step keeps the placeholder a prefix of the current prompt, and the index within the prompts. |
| Typewriter.StepRules | client/src/hooks/useTypewritterEffect.ts:23-39 | Typing adds the next character, a fully typed prompt turns to erasing, erasing drops the last character, and an erased prompt advances the index modulo the prompt count. |
| Typewriter.RunAdd | client/src/hooks/useTypewritterEffect.ts:22-39 | `a + b` firings are `a` firings followed by `b` firings. |
| Typewriter.Typing | client/src/hooks/useTypewritterEffect.ts:24-27 | `k` firings while typing add exactly the next `k` characters. |
| Typewriter.Erasing | client/src/hooks/useTypewritterEffect.ts:30-33 | `k` firings while erasing drop exactly `k` characters. |
| Typewriter.Cycle | client/src/hooks/useTypewritterEffect.ts:24-38 | From `("", i, false)`, `2·|p| + 2` firings lead to `("", (i + 1) % n, false)`. |
| Typewriter.TypewriterEffect.constructor | client/src/hooks/useTypewritterEffect.ts:17-19 | A new hook starts in the initial state. |
| Typewriter.TypewriterEffect.Step | client/src/hooks/useTypewritterEffect.ts:22-39 | One firing moves the fields to `Next` of the old state and keeps the invariant. |
| Typewriter.TypewriterEffect.Placeholder | client/src/hooks/useTypewritterEffect.ts:53 | The returned text is the placeholder, a prefix of the current prompt. |
| ImageCarousel.MovesAreRotations | client/src/components/ui/ImageCarousel.tsx:22-34 | Next is `(i + 1) mod n` and previous is `(i - 1) mod n`, both in range. |
| ImageCarousel.PrevNextInverse | client/src/components/ui/ImageCarousel.tsx:22-34 | Previous after next and next after previous are the identity. |
| ImageCarousel.OnPrevOnNextInverse | client/src/components/ui/ImageCarousel.tsx:22-34 | The same on selections. No selection stays no selection under both buttons. |
| ImageCarousel.NextTimesRotates | client/src/components/ui/ImageCarousel.tsx:29-34 | `k <= n` presses of next move `k` places round the ring. |
| ImageCarousel.FullTurn | client/src/components/ui/ImageCarousel.tsx:29-34 | `n` presses of next come back to the start. |
| ImageCarousel.Carousel.constructor | client/src/components/ui/ImageCarousel.tsx:12 | Nothing is selected initially. |
| ImageCarousel.Carousel.HandlePrevImage | client/src/components/ui/ImageCarousel.tsx:22-27 | The selection becomes `OnPrev` of the old one and stays in range. |
| ImageCarousel.Carousel.HandleNextImage | client/src/components/ui/ImageCarousel.tsx:29-34 | The selection becomes `OnNext` of the old one and stays in range. |
| ImageCarousel.Carousel.SelectImage | client/src/components/ui/ImageCarousel.tsx:41 | Clicking image `k` selects `k`. |
| ImageCarousel.Carousel.CloseModal | client/src/components/ui/ImageCarousel.tsx:66 | Closing the modal clears the selection. |
| ImageCarousel.Carousel.ModalImage | client/src/components/ui/ImageCarousel.tsx:63-65 | The modal shows nothing without a selection, and otherwise the selected image. |

## Left out

- Network calls are parameters rather than requests, and their timing is not modelled: the OpenAI completion, the TMDB search, detail, credits and external-id requests. `Promise.all` is a sequential map in input order. Its only observable effects here are its order and its all-or-nothing failure.
- `JSON.parse` is an abstract function from the trimmed text to `Invalid | NonArray | Array(...)`. Array elements that are not strings are read as `None`.
- Truthy non-string titles are not modelled. Neither are payloads whose fields have the wrong shape: the source throws on those inside its `try`, which gives the 500 path.
- The rating (`vote_average`) is a `real` passed through unchanged. No floating-point arithmetic is modelled.
- User ids come from `Math.random` and `Date.now` in the server. Here the caller supplies them, and they are not assumed fresh. A collision overwrites that id's list, as in the source.
- A title search is a function of the title, so two equal candidate titles always get the same answer. The source sends a separate request for each candidate.
- Request fields that are truthy but not strings are not modelled: a number `description`, `email: 42`, or a movie `id` such as `true`. The source accepts them and uses them as they are. The model's description and email are optional strings, and its movie ids are absent, integers or strings.
- A person lookup is a function of the person id, so two cast or crew entries with the same id see the same answer. The source makes a separate request for each.
- Text.IntToString: prints integers in plain decimal. It does not model JavaScript's exponent notation for numbers of 10²¹ and above, nor fractional, `NaN` or `-0` ids.
- Typewriter.NextPromptIndex: with no prompts, the source computes `NaN` as the next index. The model keeps the index. The shown text is the same, because both `prompts[NaN]` and `prompts[0]` are missing then and read as `""`.
- Object keys that JavaScript treats specially, such as `"__proto__"` or keys inherited from `Object.prototype`, are not modelled. The tables are maps from strings.
- Typewriter.Next: counts a prompt's length and slices it in code points, because Dafny strings are sequences of characters. JavaScript counts UTF-16 code units. For a prompt with a character outside the Basic Multilingual Plane, such as an emoji, the source briefly shows half of that character, and `Cycle` undercounts the firings it takes.
- The typewriter's timer delays and cleanup, the carousel's Embla scrolling and all rendering are outside the model.
- The detail endpoint's `id` path parameter is not modelled. It only selects which catalog record is fetched, so the fetched record is the input.
- Logging with `console.warn` and `console.error` is not modelled.
