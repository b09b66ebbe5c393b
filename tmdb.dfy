/**
 * The URL templates and sentinels the server uses when it turns a movie catalog
 * record into a response record, shared by the search and the detail endpoints.
 */
module Tmdb {
  import opened Wrappers
  import opened Text

  const PosterBase: string := "https://image.tmdb.org/t/p/w500"
  const BackdropBase: string := "https://image.tmdb.org/t/p/original"
  const GalleryBackdropBase: string := "https://image.tmdb.org/t/p/w1280"
  const ProfileBase: string := "https://image.tmdb.org/t/p/w185"
  const ImdbTitleBase: string := "https://www.imdb.com/title/"
  const ImdbNameBase: string := "https://www.imdb.com/name/"
  const TmdbPersonBase: string := "https://www.themoviedb.org/person/"
  const YoutubeEmbedBase: string := "https://www.youtube.com/embed/"
  const NoYear: string := "N/A"

  /** `base + path` when the optional path is truthy, the empty string otherwise. */
  function UrlOrEmpty(base: string, path: Option<string>): string
  {
    if Truthy(path) then base + path.value else ""
  }

  /** `base + path` when the optional path is truthy, `null` otherwise. */
  function UrlOrNull(base: string, path: Option<string>): Option<string>
  {
    if Truthy(path) then Some(base + path.value) else None
  }

  /** The year shown for a release date: the text before its first `-`, or "N/A". */
  function ReleaseYear(date: Option<string>): string
  {
    if Truthy(date) then BeforeFirst(date.value, '-') else NoYear
  }

  /**
   * An empty URL means exactly that there was no path; otherwise the URL is the
   * template followed by the path, which can be read back from it.
   */
  lemma UrlOrEmptyInverse(base: string, path: Option<string>)
    requires base != ""
    ensures UrlOrEmpty(base, path) == "" <==> !Truthy(path)
    ensures Truthy(path) ==> UrlOrEmpty(base, path)[..|base|] == base && UrlOrEmpty(base, path)[|base|..] == path.value
  {
    if Truthy(path) {
      assert (base + path.value)[|base|..] == path.value;
    }
  }

  /** The same for the `null`-valued variant. */
  lemma UrlOrNullInverse(base: string, path: Option<string>)
    ensures UrlOrNull(base, path).None? <==> !Truthy(path)
    ensures Truthy(path) ==> UrlOrNull(base, path).value[..|base|] == base && UrlOrNull(base, path).value[|base|..] == path.value
  {
    if Truthy(path) {
      assert (base + path.value)[|base|..] == path.value;
    }
  }

  /**
   * A release date "YYYY-MM-DD" shows as "YYYY"; more generally the shown year is
   * whatever comes before the first `-`. No date shows as "N/A".
   */
  lemma ReleaseYearOfDate(year: string, rest: string)
    requires '-' !in year
    ensures ReleaseYear(Some(year + "-" + rest)) == year
    ensures ReleaseYear(None) == NoYear && ReleaseYear(Some("")) == NoYear
  {
    BeforeFirstOfJoin(year, '-', rest);
  }

  /** The year shown for a present date is a prefix of the date holding no `-`. */
  lemma ReleaseYearIsPrefix(date: Option<string>)
    requires Truthy(date)
    ensures ReleaseYear(date) <= date.value && '-' !in ReleaseYear(date)
  {
  }

  /** The concrete case "1999-03-31" shows as "1999". */
  lemma ReleaseYearExample()
    ensures ReleaseYear(Some("1999-03-31")) == "1999"
  {
    ReleaseYearOfDate("1999", "03-31");
    assert "1999" + "-" + "03-31" == "1999-03-31";
  }
}
