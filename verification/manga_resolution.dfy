/** Choosing one manga out of a search result list. The manga service
    (`resolve_manga_id`) has a two-step cascade and may find nothing; the
    download service (`_find_manga`) has four steps and always picks
    something from a non-empty list. */
module MangaResolution {
  import opened Wrappers
  import opened Text
  import opened Titles
  import opened Records
  import opened Search

  /** `title.strip().lower() == query.strip().lower()`. */
  predicate ExactTitle(query: string, title: string) {
    Lower(Strip(title)) == Lower(Strip(query))
  }

  /** `_normalize_title(title) == _normalize_title(query)`. */
  predicate NormalizedTitle(query: string, title: string) {
    Normalize(title) == Normalize(query)
  }

  /** `query.strip().lower() in title.lower()`; the title is not stripped. */
  predicate PartialTitle(query: string, title: string) {
    Contains(Lower(title), Lower(Strip(query)))
  }

  function ExactTest(query: string): Manga -> bool {
    (m: Manga) => ExactTitle(query, m.title)
  }

  function NormalizedTest(query: string): Manga -> bool {
    (m: Manga) => NormalizedTitle(query, m.title)
  }

  /** An exact match is always a normalised match, so the second pass only
      adds candidates. */
  lemma ExactIsNormalized(query: string, title: string)
    requires ExactTitle(query, title)
    ensures NormalizedTitle(query, title)
  {
    NormalizeIgnoresStrip(title);
    NormalizeIgnoresStrip(query);
    NormalizeIgnoresCase(Strip(title));
    NormalizeIgnoresCase(Strip(query));
  }

  // ---------------------------------------------------------------------
  // Manga service: exact, then normalised.
  // ---------------------------------------------------------------------

  /** The position `resolve_manga_id` picks. */
  function ResolveIndex(results: seq<Manga>, query: string): (r: Option<nat>)
    ensures r.Some? ==> r.value < |results|
    // the exact pass runs over the whole list first
    ensures (exists j :: 0 <= j < |results| && ExactTitle(query, results[j].title)) ==>
              r.Some? && ExactTitle(query, results[r.value].title)
              && forall j :: 0 <= j < r.value ==> !ExactTitle(query, results[j].title)
    // only when it fails does the normalised pass decide
    ensures (forall j :: 0 <= j < |results| ==> !ExactTitle(query, results[j].title)) ==>
              && (r.Some? ==> NormalizedTitle(query, results[r.value].title)
                              && forall j :: 0 <= j < r.value ==> !NormalizedTitle(query, results[j].title))
              && (r.None? <==> forall j :: 0 <= j < |results| ==> !NormalizedTitle(query, results[j].title))
  {
    var exact := FirstIndex(results, ExactTest(query));
    if exact.Some? then exact
    else
      assert forall j :: 0 <= j < |results| ==> !ExactTest(query)(results[j]);
      FirstIndex(results, NormalizedTest(query))
  }

  /** `resolve_manga_id` on the list the search returned. */
  function ResolveMangaId(results: seq<Manga>, query: string): (r: Option<Manga>)
    ensures |results| == 0 ==> r.None?
    ensures r.Some? ==> r.value in results
    ensures r.Some? ==> NormalizedTitle(query, r.value.title)
    ensures r.None? <==> forall j :: 0 <= j < |results| ==> !NormalizedTitle(query, results[j].title)
  {
    match ResolveIndex(results, query)
    case None => None
    case Some(k) =>
      assert NormalizedTitle(query, results[k].title) by {
        if ExactTitle(query, results[k].title) {
          ExactIsNormalized(query, results[k].title);
        }
      }
      Some(results[k])
  }

  // ---------------------------------------------------------------------
  // Download service: exact, normalised, shortest partial, first result.
  // ---------------------------------------------------------------------

  datatype Strategy = Exact | Normalized | Partial | FirstResult

  datatype Pick = Pick(index: nat, strategy: Strategy)

  /** The partial step: among the titles containing the query, the shortest,
      the earliest of equally short ones (Python's sort is stable). */
  function ShortestPartial(results: seq<Manga>, query: string): (r: Option<nat>)
    ensures r.Some? ==> r.value < |results| && PartialTitle(query, results[r.value].title)
    ensures r.Some? ==> forall j :: 0 <= j < |results| && PartialTitle(query, results[j].title) ==>
              |results[r.value].title| <= |results[j].title|
    ensures r.Some? ==> forall j :: 0 <= j < r.value && PartialTitle(query, results[j].title) ==>
              |results[r.value].title| < |results[j].title|
    ensures r.None? <==> forall j :: 0 <= j < |results| ==> !PartialTitle(query, results[j].title)
  {
    if |results| == 0 then None
    else
      var rest := ShortestPartial(results[1..], query);
      assert forall j :: 1 <= j < |results| ==> results[j] == results[1..][j - 1];
      if PartialTitle(query, results[0].title)
         && (rest.None? || |results[0].title| <= |results[1..][rest.value].title|)
      then Some(0)
      else
        match rest
        case None => None
        case Some(k) => Some(k + 1)
  }

  /** The last two steps: the shortest partial match, else the first
      result. */
  function LaterSteps(results: seq<Manga>, query: string): (p: Pick)
    requires |results| > 0
    ensures p.index < |results|
    ensures p.strategy == Partial || p.strategy == FirstResult
    ensures p.strategy == Partial ==> PartialTitle(query, results[p.index].title)
    ensures p.strategy == FirstResult ==>
              p.index == 0 && forall j :: 0 <= j < |results| ==> !PartialTitle(query, results[j].title)
  {
    match ShortestPartial(results, query)
    case Some(i) => Pick(i, Partial)
    case None => Pick(0, FirstResult)
  }

  /** The cascade from the normalised step on. */
  function FromNormalized(results: seq<Manga>, query: string): (p: Pick)
    requires |results| > 0
    ensures p.index < |results| && p.strategy != Exact
    ensures p.strategy == Normalized ==>
              NormalizedTitle(query, results[p.index].title)
              && forall j :: 0 <= j < p.index ==> !NormalizedTitle(query, results[j].title)
    ensures p.strategy != Normalized ==>
              p == LaterSteps(results, query)
              && forall j :: 0 <= j < |results| ==> !NormalizedTitle(query, results[j].title)
  {
    match FirstIndex(results, NormalizedTest(query))
    case Some(i) => Pick(i, Normalized)
    case None =>
      assert forall j :: 0 <= j < |results| ==> !NormalizedTest(query)(results[j]);
      LaterSteps(results, query)
  }

  /** `_find_manga` on the list the search returned. */
  function FindMangaIndex(results: seq<Manga>, query: string): (r: Option<Pick>)
    ensures r.None? <==> |results| == 0
    ensures r.Some? ==> r.value.index < |results|
    ensures r.Some? && r.value.strategy == Exact ==>
              ExactTitle(query, results[r.value.index].title)
              && forall j :: 0 <= j < r.value.index ==> !ExactTitle(query, results[j].title)
    ensures r.Some? && r.value.strategy != Exact ==>
              r.value == FromNormalized(results, query)
              && forall j :: 0 <= j < |results| ==> !ExactTitle(query, results[j].title)
  {
    if |results| == 0 then None
    else
      match FirstIndex(results, ExactTest(query))
      case Some(i) => Some(Pick(i, Exact))
      case None =>
        assert forall j :: 0 <= j < |results| ==> !ExactTest(query)(results[j]);
        Some(FromNormalized(results, query))
  }

  /** Each step of the cascade is reached only when every earlier step found
      nothing anywhere in the list, and each step's pick passes its own
      test. */
  lemma CascadeOrder(results: seq<Manga>, query: string)
    requires |results| > 0
    ensures var p := FindMangaIndex(results, query).value;
      && (p.strategy == Exact <==> exists j :: 0 <= j < |results| && ExactTitle(query, results[j].title))
      && (p.strategy == Exact ==> ExactTitle(query, results[p.index].title))
      && (p.strategy == Normalized ==> NormalizedTitle(query, results[p.index].title))
      && (p.strategy == Partial ==> PartialTitle(query, results[p.index].title))
      && (p.strategy == FirstResult ==> p.index == 0)
      && (p.strategy in {Normalized, Partial, FirstResult} ==>
            forall j :: 0 <= j < |results| ==> !ExactTitle(query, results[j].title))
      && (p.strategy in {Partial, FirstResult} ==>
            forall j :: 0 <= j < |results| ==> !NormalizedTitle(query, results[j].title))
      && (p.strategy == FirstResult ==>
            forall j :: 0 <= j < |results| ==> !PartialTitle(query, results[j].title))
      && (p.strategy == Exact ==>
            forall j :: 0 <= j < p.index ==> !ExactTitle(query, results[j].title))
      && (p.strategy == Normalized ==>
            forall j :: 0 <= j < p.index ==> !NormalizedTitle(query, results[j].title))
  {
    var p := FindMangaIndex(results, query).value;
    if p.strategy != Exact {
      var q := FromNormalized(results, query);
      if q.strategy != Normalized {
        var l := LaterSteps(results, query);
      }
    }
  }

  /** `_find_manga`: the chosen record itself. */
  function FindManga(results: seq<Manga>, query: string): (r: Option<Manga>)
    ensures r.None? <==> |results| == 0
    ensures r.Some? ==> r.value in results
  {
    match FindMangaIndex(results, query)
    case None => None
    case Some(p) => Some(results[p.index])
  }

  /** When some title matches exactly, both services choose the same record. */
  lemma ServicesAgreeOnExact(results: seq<Manga>, query: string)
    requires exists j :: 0 <= j < |results| && ExactTitle(query, results[j].title)
    ensures ResolveMangaId(results, query) == FindManga(results, query)
  {
    var i := ResolveIndex(results, query).value;
    var p := FindMangaIndex(results, query).value;
    CascadeOrder(results, query);
    FirstExactUnique(results, query, i, p.index);
  }

  lemma FirstExactUnique(results: seq<Manga>, query: string, a: nat, b: nat)
    requires a < |results| && ExactTitle(query, results[a].title)
    requires b < |results| && ExactTitle(query, results[b].title)
    requires forall j :: 0 <= j < a ==> !ExactTitle(query, results[j].title)
    requires forall j :: 0 <= j < b ==> !ExactTitle(query, results[j].title)
    ensures a == b
  {
  }
}
