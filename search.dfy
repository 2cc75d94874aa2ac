/** searchRestaurants: which one of the four repository queries a search runs. */
module Search {
  import opened Domain

  /** The repository query shapes; the page request is passed to each unchanged. */
  datatype SearchQuery =
    | ByMinRating(minRating: real)                          // findByAverageRatingGreaterThanEqual
    | ByQueryAndMinRating(query: string, minRating: real)   // findByQueryAndMinRating
    | ByLocationNear(latitude: real, longitude: real, radius: real)  // findByLocationNear
    | All                                                   // findAll

  /** Java's `String.trim` removes every character up to and including U+0020
      from both ends. */
  predicate IsTrimmable(c: char)
  {
    c <= ' '
  }

  /** Blank strings stay blank when joined. */
  lemma BlankConcat(a: string, b: string)
    requires IsBlank(a) && IsBlank(b)
    ensures IsBlank(a + b)
  {
    forall i | 0 <= i < |a + b| ensures IsTrimmable((a + b)[i]) {
      if i >= |a| {
        assert (a + b)[i] == b[i - |a|];
      }
    }
  }

  /** How many characters `trim` drops at the front: the whole run of
      trimmable characters there, and no more. */
  function Lead(s: string): (n: nat)
    ensures n <= |s| && IsBlank(s[..n])
    ensures n < |s| ==> !IsTrimmable(s[n])
  {
    if s != [] && IsTrimmable(s[0]) then
      var n := 1 + Lead(s[1..]);
      assert s[..n] == [s[0]] + s[1..][..n - 1];
      BlankConcat([s[0]], s[1..][..n - 1]);
      n
    else
      assert s[..0] == [];
      0
  }

  /** Drops the trimmable characters at the front. */
  function TrimStart(s: string): string
  {
    s[Lead(s)..]
  }

  /** Drops the trimmable characters at the back. */
  function TrimEnd(s: string): (kept: string)
    ensures |kept| <= |s| && kept == s[..|kept|]
    ensures IsBlank(s[|kept|..])
    ensures kept != [] ==> !IsTrimmable(kept[|kept| - 1])
  {
    if s != [] && IsTrimmable(s[|s| - 1]) then
      var kept := TrimEnd(s[..|s| - 1]);
      assert s[|kept|..] == s[..|s| - 1][|kept|..] + [s[|s| - 1]];
      BlankConcat(s[..|s| - 1][|kept|..], [s[|s| - 1]]);
      kept
    else
      assert s[|s|..] == [];
      s
  }

  /** `String.trim`: the slice of `s` left after dropping the trimmable
      characters at both ends; what remains starts and ends with a character
      that is not trimmable. */
  function Trim(s: string): (trimmed: string)
    ensures Lead(s) + |trimmed| <= |s| && trimmed == s[Lead(s)..Lead(s) + |trimmed|]
    ensures IsBlank(s[..Lead(s)]) && IsBlank(s[Lead(s) + |trimmed|..])
    ensures trimmed != [] ==> !IsTrimmable(trimmed[0]) && !IsTrimmable(trimmed[|trimmed| - 1])
  {
    var rest := TrimStart(s);
    var trimmed := TrimEnd(rest);
    assert s[Lead(s) + |trimmed|..] == rest[|trimmed|..];
    trimmed
  }

  /** A string that is empty once trimmed: every character is trimmed away. */
  ghost predicate IsBlank(s: string)
  {
    forall i :: 0 <= i < |s| ==> IsTrimmable(s[i])
  }

  /** `query.trim().isEmpty()` holds exactly of the blank strings. */
  lemma TrimEmptyIffBlank(s: string)
    ensures Trim(s) == [] <==> IsBlank(s)
  {
    var trimmed := Trim(s);
    var lead := Lead(s);
    if trimmed == [] {
      assert s == s[..lead] + s[lead..];
      BlankConcat(s[..lead], s[lead..]);
    } else {
      assert trimmed[0] == s[lead];
    }
  }

  /** The query searchRestaurants runs, chosen in a fixed priority order:
      a rating floor with no (or an empty) text query; then a text query that
      is not blank, with the floor defaulting to 0; then a complete geo triple;
      otherwise everything. */
  function SelectQuery(query: Option<string>, minRating: Option<real>,
                       latitude: Option<real>, longitude: Option<real>, radius: Option<real>): (chosen: SearchQuery)
    ensures chosen.ByMinRating? <==> minRating.Some? && (query.None? || |query.value| == 0)
    ensures chosen.ByMinRating? ==> chosen.minRating == minRating.value
    ensures chosen.ByQueryAndMinRating? <==>
      !(minRating.Some? && (query.None? || |query.value| == 0)) && query.Some? && !IsBlank(query.value)
    ensures chosen.ByQueryAndMinRating? ==>
      chosen.query == query.value && chosen.minRating == (if minRating.Some? then minRating.value else 0.0)
    ensures chosen.ByLocationNear? ==>
      latitude == Some(chosen.latitude) && longitude == Some(chosen.longitude) && radius == Some(chosen.radius)
    ensures chosen.All? ==> latitude.None? || longitude.None? || radius.None?
  {
    if minRating.Some? && (query.None? || |query.value| == 0) then
      ByMinRating(minRating.value)
    else
      var searchMinRating := if minRating.None? then 0.0 else minRating.value;
      if query.Some? && Trim(query.value) != [] then
        TrimEmptyIffBlank(query.value);
        ByQueryAndMinRating(query.value, searchMinRating)
      else
        assert query.Some? ==> IsBlank(query.value) by {
          if query.Some? { TrimEmptyIffBlank(query.value); }
        }
        if latitude.Some? && longitude.Some? && radius.Some? then
          ByLocationNear(latitude.value, longitude.value, radius.value)
        else
          All
  }

  /** A whitespace-only text query is not "empty", so it does not take the
      rating-only branch; being blank, it does not take the text branch either.
      The search falls through to geo or findAll and the rating floor is
      ignored. */
  lemma WhitespaceQueryIgnoresRating(query: string, m1: Option<real>, m2: Option<real>,
                                     latitude: Option<real>, longitude: Option<real>, radius: Option<real>)
    requires |query| > 0 && IsBlank(query)
    ensures SelectQuery(Some(query), m1, latitude, longitude, radius).ByLocationNear?
         || SelectQuery(Some(query), m1, latitude, longitude, radius).All?
    ensures SelectQuery(Some(query), m1, latitude, longitude, radius)
         == SelectQuery(Some(query), m2, latitude, longitude, radius)
  {
  }

  /** The four scenarios a search is expected to route. */
  lemma SearchExamples(lat: real, lon: real, radius: real)
    ensures SelectQuery(None, Some(4.0), None, None, None) == ByMinRating(4.0)
    ensures SelectQuery(Some("sushi"), Some(4.0), None, None, None) == ByQueryAndMinRating("sushi", 4.0)
    ensures SelectQuery(Some("sushi"), None, None, None, None) == ByQueryAndMinRating("sushi", 0.0)
    ensures SelectQuery(None, None, Some(lat), Some(lon), Some(radius)) == ByLocationNear(lat, lon, radius)
    ensures SelectQuery(None, None, None, None, None) == All
  {
    assert !IsTrimmable("sushi"[0]);
  }
}
