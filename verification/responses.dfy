/** The JSON bodies the API answers with, and how each client reads them.
    A body is reduced to the keys the clients look at. Every read goes
    through the retry wrapper first, so a read starts from how that wrapper
    ended; a wrapper that returned `None` makes `resp.json()` raise. */
module Responses {
  import opened Wrappers
  import opened Retry

  /** A decoded JSON body: an object with the optional keys `success`,
      `data`, `pages` and `meta.totalPages`; a bare list; a scalar whose
      truth value is false (`null`, `false`, `0`, `""`); or any other JSON
      value. */
  datatype Body<T> =
    | Object(success: Option<bool>, data: Option<seq<T>>, pages: Option<seq<T>>, totalPages: Option<int>)
    | List(items: seq<T>)
    | Falsy
    | Other

  /** The collector's `search_manga` and `fetch_chapters`: an object whose
      `success` is true gives its `data`, a bare list is taken as it is, and
      everything else, a raised exception included, gives nothing. */
  function CollectorItems<T>(reply: Final<Body<T>>): (r: seq<T>)
    ensures reply.Returned? && reply.value.List? ==> r == reply.value.items
    ensures reply.Returned? && reply.value.Object? && reply.value.success == Some(true) ==>
              r == reply.value.data.GetOr([])
    ensures r != [] ==> reply.Returned? && (reply.value.List? || (reply.value.Object? && reply.value.success == Some(true)))
  {
    match reply
    case Returned(body) =>
      (match body
       case Object(success, data, _, _) => if success == Some(true) then data.GetOr([]) else []
       case List(items) => items
       case _ => [])
    case _ => []
  }

  /** The download service's `_get_chapters`: only an explicit
      `success: false` is a failure, a missing key counts as success. A bare
      list has no `.get`, and the exception that raises is caught. */
  function ServiceChapters<T>(reply: Final<Body<T>>): (r: seq<T>)
    ensures r != [] ==> reply.Returned? && reply.value.Object? && reply.value.success != Some(false)
  {
    match reply
    case Returned(body) =>
      (match body
       case Object(success, data, _, _) => if success == Some(false) then [] else data.GetOr([])
       case _ => [])
    case _ => []
  }

  /** The download service's `_search_manga`: the `data` of an object, with
      no look at `success`; `None` stands for the exception raised on any
      other body or failure, which `_find_manga` catches. */
  function ServiceSearch<T>(reply: Final<Body<T>>): (r: Option<seq<T>>)
    ensures r.Some? <==> reply.Returned? && reply.value.Object?
  {
    match reply
    case Returned(body) =>
      (match body
       case Object(_, data, _, _) => Some(data.GetOr([]))
       case _ => None)
    case _ => None
  }

  /** The manga service's `search_manga` and `fetch_chapters` return the
      body itself. The callers test it with `if not ...`, so a body whose
      truth value is false reads as no results, and iterate it as a list, so
      any other body that is not a list raises; `None` stands for a raised
      exception. */
  function ServiceList<T>(reply: Final<Body<T>>): (r: Option<seq<T>>)
    ensures r.Some? <==> reply.Returned? && (reply.value.List? || reply.value.Falsy?)
    ensures reply.Returned? && reply.value.List? ==> r == Some(reply.value.items)
    ensures reply.Returned? && reply.value.Falsy? ==> r == Some([])
  {
    match reply
    case Returned(body) =>
      (match body
       case List(items) => Some(items)
       case Falsy => Some([])
       case _ => None)
    case _ => None
  }

  /** The manga service's `fetch_chapter_pages`: a bare list, or the
      `pages` of an object that has them; any other body raises
      `ValueError`, shown as `None`. */
  function PageUrls(reply: Final<Body<string>>): (r: Option<seq<string>>)
    ensures r.Some? ==> reply.Returned? && (reply.value.List? || reply.value.Object?)
    ensures reply.Returned? && reply.value.List? ==> r == Some(reply.value.items)
    ensures reply.Returned? && reply.value.Object? ==> r == reply.value.pages
  {
    match reply
    case Returned(body) =>
      (match body
       case List(items) => Some(items)
       case Object(_, _, pages, _) => if pages.Some? then Some(pages.value) else None
       case _ => None)
    case _ => None
  }

  /** A bare list of URLs and an object carrying them as `pages` read
      alike; an object whose URLs stand only under `data` is rejected. */
  lemma PageUrlsShapes(urls: seq<string>, success: Option<bool>, total: Option<int>)
    ensures PageUrls(Returned(List(urls))) == Some(urls)
    ensures PageUrls(Returned(Object(success, None, Some(urls), total))) == Some(urls)
    ensures PageUrls(Returned(Object(success, Some(urls), None, total))) == None
    ensures PageUrls(Returned(Other)) == None
  {
  }

  /** Both readers take a successful envelope's data as it is. */
  lemma EnvelopeRoundTrip<T>(items: seq<T>, pages: Option<seq<T>>, total: Option<int>)
    ensures CollectorItems(Returned(Object(Some(true), Some(items), pages, total))) == items
    ensures ServiceChapters(Returned(Object(Some(true), Some(items), pages, total))) == items
    ensures ServiceSearch(Returned(Object(Some(true), Some(items), pages, total))) == Some(items)
  {
  }

  /** The readers disagree on two shapes: without a `success` key the
      collector reads nothing and the download service reads the data, and
      a bare list is the other way round. */
  lemma ReadersDisagree<T>(items: seq<T>)
    requires items != []
    ensures CollectorItems(Returned(Object(None, Some(items), None, None))) == []
    ensures ServiceChapters(Returned(Object(None, Some(items), None, None))) == items
    ensures CollectorItems(Returned(List(items))) == items
    ensures ServiceChapters(Returned(List(items))) == []
  {
  }

  /** A body whose truth value is false is no results for the manga
      service, and an error, read as nothing, everywhere else. */
  lemma FalsyBody<T>()
    ensures ServiceList<T>(Returned(Falsy)) == Some([])
    ensures CollectorItems<T>(Returned(Falsy)) == [] && ServiceChapters<T>(Returned(Falsy)) == []
    ensures ServiceSearch<T>(Returned(Falsy)) == None && PageUrls(Returned(Falsy)) == None
  {
  }

  /** A failed call reads as an empty list for both list readers, and as a
      caught exception for the search reader. */
  lemma FailuresReadEmpty<T>(f: Failure)
    ensures CollectorItems<T>(Raised(f)) == [] && CollectorItems<T>(ReturnedNone) == []
    ensures ServiceChapters<T>(Raised(f)) == [] && ServiceChapters<T>(ReturnedNone) == []
    ensures ServiceSearch<T>(Raised(f)) == None && ServiceSearch<T>(ReturnedNone) == None
  {
  }
}
