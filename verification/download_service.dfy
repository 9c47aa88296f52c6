/** The download service's `download_manga_chapters`: find the manga, fetch
    its chapters, match every request, and hand the matched chapter ids to
    the server's download endpoint in one job. The three endpoints are an
    oracle giving how each retried request ended. */
module DownloadService {
  import opened Wrappers
  import opened Records
  import opened Search
  import opened Retry
  import opened Responses
  import opened MangaResolution
  import opened ChapterMatching

  /** `options`, with the two keys the client sets by default. */
  datatype Options = Options(quality: string, includeMetadata: bool)

  const DefaultOptions := Options("high", true)

  /** The JSON body of `POST /downloads`. */
  datatype Payload = Payload(sourceId: string, mangaId: string, chapterIds: seq<string>, format: string, options: Options)

  /** A response the server accepted: its status code and decoded body. */
  datatype Posted<J> = Posted(statusCode: int, json: J)

  /** The endpoints, each behind the retry wrapper. */
  datatype Service<J> = Service(
    search: string -> Final<Body<Manga>>,        // GET /sources/<id>/search?q=<name>
    chapterList: string -> Final<Body<Chapter>>, // GET /sources/<id>/manga/<manga id>/chapters
    post: Payload -> Final<Posted<J>>)           // POST /downloads

  // ---------------------------------------------------------------------
  // _download_chapters
  // ---------------------------------------------------------------------

  /** Where the text after `HTTP <code>: ` comes from. */
  datatype ErrorText = ResponseText | ExceptionText

  datatype PostError =
    | HttpError(code: int, text: ErrorText)   // "HTTP <code>: <text>"
    | Message                                 // str(e)

  /** The dict `_download_chapters` returns, or the exception that escapes
      it. */
  datatype Submission<J> =
    | Accepted(response: J, statusCode: int)
    | Rejected(error: PostError, status: Option<int>)
    | Escaped

  /** `bool(response)` for a `requests` response: its `ok`, false exactly
      for the 4xx and 5xx codes that make `raise_for_status` raise. */
  predicate Truthy(code: int) {
    !(400 <= code < 600)
  }

  /** The `except` clauses of `_download_chapters`, as written. An HTTP
      error's response is tested with `if e.response`, which is false for
      every status `raise_for_status` raises on, so the text falls back to
      `str(e)` and the status code to `None`; an HTTP error without a
      response makes the handler itself raise `AttributeError`. */
  function HandleAsWritten<J>(f: Failure): (r: Submission<J>)
    ensures r.Escaped? <==> f.HttpWithoutResponse?
  {
    match f
    case HttpStatus(code) =>
      Rejected(HttpError(code, if Truthy(code) then ResponseText else ExceptionText),
               if Truthy(code) then Some(code) else None)
    case HttpWithoutResponse => Escaped
    case _ => Rejected(Message, None)
  }

  /** The handler as evidently intended: the response's own text and its
      status code. */
  function Handle<J>(f: Failure): (r: Submission<J>)
    ensures r.Escaped? <==> f.HttpWithoutResponse?
    ensures f.HttpStatus? ==> r.Rejected? && r.status == Some(f.code) && r.error == HttpError(f.code, ResponseText)
    ensures r.Rejected? && r.status.Some? ==> r.error.HttpError? && r.error.code == r.status.value
  {
    match f
    case HttpStatus(code) => Rejected(HttpError(code, ResponseText), Some(code))
    case HttpWithoutResponse => Escaped
    case _ => Rejected(Message, None)
  }

  /** For every status `raise_for_status` raises on, the handler as written
      reports the code in the message but drops it from `status_code`, and
      never shows the server's error body. */
  lemma StatusCodeLost<J>(code: int)
    requires 400 <= code < 600
    ensures HandleAsWritten<J>(HttpStatus(code)) == Rejected(HttpError(code, ExceptionText), None)
    ensures Handle<J>(HttpStatus(code)) == Rejected(HttpError(code, ResponseText), Some(code))
  {
  }

  /** A concrete case: a server error on the download request. */
  lemma ServerErrorExample<J>()
    ensures HandleAsWritten<J>(HttpStatus(500)).status.None?
    ensures Handle<J>(HttpStatus(500)).status == Some(500)
  {
    StatusCodeLost<J>(500);
  }

  /** The two handlers agree on every failure that is not an HTTP error
      status. */
  lemma HandlersAgreeElsewhere<J>(f: Failure)
    requires !f.HttpStatus?
    ensures HandleAsWritten<J>(f) == Handle<J>(f)
  {
  }

  /** The job posted for a manga's chapters; missing options become the
      defaults. */
  function PayloadOf(sourceId: string, mangaId: string, chapterIds: seq<string>, format: string,
                     options: Option<Options>): Payload {
    Payload(sourceId, mangaId, chapterIds, format, options.GetOr(DefaultOptions))
  }

  /** `_download_chapters(source, manga id, chapter ids, format, options)`,
      with its handler as written: an HTTP error status comes back without
      its status code. */
  function Submit<J>(s: Service<J>, sourceId: string, mangaId: string, chapterIds: seq<string>,
                     format: string, options: Option<Options>): (r: Submission<J>)
    ensures var sent := s.post(PayloadOf(sourceId, mangaId, chapterIds, format, options));
      && (r.Accepted? <==> sent.Returned?)
      && (r.Escaped? <==> sent == Raised(HttpWithoutResponse))
      && (sent.Raised? && sent.failure.HttpStatus? && 400 <= sent.failure.code < 600 ==>
            r == Rejected(HttpError(sent.failure.code, ExceptionText), None))
    ensures r.Rejected? && r.status.Some? ==> r.error.HttpError? && r.error.code == r.status.value
  {
    match s.post(PayloadOf(sourceId, mangaId, chapterIds, format, options))
    case Returned(p) => Accepted(p.json, p.statusCode)
    case Raised(f) => HandleAsWritten(f)
    case ReturnedNone => Rejected(Message, None)   // `resp.json()` on None
  }

  /** `_download_chapters` with the corrected handler: an HTTP error status
      is reported with its own code and the server's text. */
  function SubmitCorrected<J>(s: Service<J>, sourceId: string, mangaId: string, chapterIds: seq<string>,
                              format: string, options: Option<Options>): (r: Submission<J>)
    ensures var sent := s.post(PayloadOf(sourceId, mangaId, chapterIds, format, options));
      && (r.Accepted? <==> sent.Returned?)
      && (r.Escaped? <==> sent == Raised(HttpWithoutResponse))
      && (sent.Raised? && sent.failure.HttpStatus? ==>
            r == Rejected(HttpError(sent.failure.code, ResponseText), Some(sent.failure.code)))
    ensures r.Rejected? && r.status.Some? ==> r.error.HttpError? && r.error.code == r.status.value
  {
    match s.post(PayloadOf(sourceId, mangaId, chapterIds, format, options))
    case Returned(p) => Accepted(p.json, p.statusCode)
    case Raised(f) => Handle(f)
    case ReturnedNone => Rejected(Message, None)
  }

  /** The two submissions differ only when the post raised an HTTP error
      status; for a 4xx or 5xx only the corrected one keeps the code. */
  lemma SubmissionsDiffer<J>(s: Service<J>, sourceId: string, mangaId: string, chapterIds: seq<string>,
                             format: string, options: Option<Options>)
    ensures var sent := s.post(PayloadOf(sourceId, mangaId, chapterIds, format, options));
      && (!(sent.Raised? && sent.failure.HttpStatus?) ==>
            Submit(s, sourceId, mangaId, chapterIds, format, options)
            == SubmitCorrected(s, sourceId, mangaId, chapterIds, format, options))
      && (sent.Raised? && sent.failure.HttpStatus? && 400 <= sent.failure.code < 600 ==>
            && Submit(s, sourceId, mangaId, chapterIds, format, options).status.None?
            && SubmitCorrected(s, sourceId, mangaId, chapterIds, format, options).status == Some(sent.failure.code))
  {
    var sent := s.post(PayloadOf(sourceId, mangaId, chapterIds, format, options));
    if sent.Raised? && !sent.failure.HttpStatus? {
      HandlersAgreeElsewhere<J>(sent.failure);
    }
  }

  // ---------------------------------------------------------------------
  // download_manga_chapters
  // ---------------------------------------------------------------------

  datatype ReportError =
    | MangaNotFound                          // "Manga '...' not found on source '...'"
    | NoChapters                             // "No chapters found for '...'"
    | ChaptersNotFound(missing: seq<Request>) // "Chapters not found: [...]"
    | DownloadFailed(error: PostError)       // the download's own error

  /** The dict `download_manga_chapters` returns. */
  datatype Report<J> = Report(
    success: bool,
    error: Option<ReportError>,
    manga: Option<Manga>,
    chaptersFound: seq<Chapter>,
    chaptersMissing: seq<Request>,
    download: Option<Submission<J>>)

  /** How a call ends: with a report, or with an exception escaping. */
  datatype Call<T> = Returns(value: T) | Raises

  /** `_find_manga(source, name)`: the search's `data`, then the four-step
      cascade; any exception reads as no manga. */
  function FindMangaFrom<J>(s: Service<J>, name: string): (r: Option<Manga>)
    ensures r.Some? ==> ServiceSearch(s.search(name)).Some? && r.value in ServiceSearch(s.search(name)).value
    ensures ServiceSearch(s.search(name)).Some? && |ServiceSearch(s.search(name)).value| > 0 ==> r.Some?
  {
    match ServiceSearch(s.search(name))
    case None => None
    case Some(results) => FindManga(results, name)
  }

  /** The ids of the matched chapters, in request order. */
  function Ids(chapters: seq<Chapter>): (r: seq<string>)
    ensures |r| == |chapters|
    ensures forall i :: 0 <= i < |r| ==> r[i] == chapters[i].id
  {
    seq(|chapters|, i requires 0 <= i < |chapters| => chapters[i].id)
  }

  /** From the matched chapters on: stop for a validation run, or submit. */
  function FromMatched<J>(s: Service<J>, sourceId: string, m: Manga, matched: seq<Chapter>,
                          format: string, options: Option<Options>, validateOnly: bool): (r: Call<Report<J>>)
    ensures r.Returns? ==> r.value.chaptersFound == matched && r.value.chaptersMissing == []
    ensures r.Returns? ==> (r.value.success <==> r.value.error.None?)
    ensures r.Returns? ==> (r.value.success <==> validateOnly || (r.value.download.Some? && r.value.download.value.Accepted?))
    ensures r.Returns? ==> (r.value.download.None? <==> validateOnly)
    ensures r.Raises? <==> !validateOnly && Submit(s, sourceId, m.id, Ids(matched), format, options).Escaped?
  {
    if validateOnly then Returns(Report(true, None, Some(m), matched, [], None))
    else
      match Submit(s, sourceId, m.id, Ids(matched), format, options)
      case Escaped => Raises
      case Accepted(json, code) => Returns(Report(true, None, Some(m), matched, [], Some(Accepted(json, code))))
      case Rejected(e, code) => Returns(Report(false, Some(DownloadFailed(e)), Some(m), matched, [], Some(Rejected(e, code))))
  }

  /** From the manga's chapter list on: match every request. */
  function FromChapters<J>(s: Service<J>, sourceId: string, m: Manga, chapters: seq<Chapter>, requests: seq<Request>,
                           format: string, options: Option<Options>, validateOnly: bool): (r: Call<Report<J>>)
    requires |chapters| > 0
    ensures r.Returns? ==> r.value.manga == Some(m)
    ensures r.Returns? ==> r.value.chaptersFound == Hits(requests, Resolver(chapters))
    ensures r.Returns? ==> (r.value.success ==> r.value.error.None? && r.value.chaptersMissing == [])
    ensures r.Returns? && r.value.download.Some? ==> !validateOnly
    ensures r.Returns? ==> (r.value.chaptersMissing == [] <==> forall j :: 0 <= j < |requests| ==> Resolve(chapters, requests[j]).Some?)
    ensures r.Returns? && r.value.chaptersMissing != [] ==> r.value.download.None? && !r.value.success
  {
    var matched := Hits(requests, Resolver(chapters));
    var missing := Filter(requests, Misses(Resolver(chapters)));
    NoMisses(requests, Resolver(chapters));
    if |missing| > 0 then
      Returns(Report(false, Some(ChaptersNotFound(missing)), Some(m), matched, missing, None))
    else FromMatched(s, sourceId, m, matched, format, options, validateOnly)
  }

  /** From the manga found on: fetch its chapter list. */
  function FromManga<J>(s: Service<J>, sourceId: string, m: Manga, requests: seq<Request>,
                        format: string, options: Option<Options>, validateOnly: bool): (r: Call<Report<J>>)
    ensures r.Returns? ==> r.value.manga == Some(m)
    ensures r.Returns? && r.value.success ==>
              r.value.error.None? && r.value.chaptersMissing == [] && |r.value.chaptersFound| == |requests|
    ensures r.Returns? && r.value.download.Some? ==> !validateOnly
    ensures |ServiceChapters(s.chapterList(m.id))| == 0 ==>
              r == Returns(Report(false, Some(NoChapters), Some(m), [], requests, None))
    ensures r.Returns? && r.value.chaptersMissing != [] ==> r.value.download.None? && !r.value.success
  {
    var chapters := ServiceChapters(s.chapterList(m.id));
    if |chapters| == 0 then Returns(Report(false, Some(NoChapters), Some(m), [], requests, None))
    else
      NoMisses(requests, Resolver(chapters));
      FromChapters(s, sourceId, m, chapters, requests, format, options, validateOnly)
  }

  /** `download_manga_chapters(source, name, requests, format, options,
      validate_only)`. */
  function DownloadMangaChapters<J>(s: Service<J>, sourceId: string, name: string, requests: seq<Request>,
                                    format: string, options: Option<Options>, validateOnly: bool): (r: Call<Report<J>>)
    ensures r.Returns? && r.value.success ==> r.value.error.None? && r.value.chaptersMissing == []
    ensures r.Returns? && r.value.success ==> r.value.manga.Some? && |r.value.chaptersFound| == |requests|
    ensures r.Returns? && r.value.download.Some? ==> !validateOnly
    ensures FindMangaFrom(s, name).None? ==>
              r == Returns(Report(false, Some(MangaNotFound), None, [], requests, None))
    ensures r.Returns? && r.value.chaptersMissing != [] ==> r.value.download.None? && !r.value.success
  {
    match FindMangaFrom(s, name)
    case None => Returns(Report(false, Some(MangaNotFound), None, [], requests, None))
    case Some(m) => FromManga(s, sourceId, m, requests, format, options, validateOnly)
  }

  /** When every request matches, the job submitted carries the matched
      chapters' ids in request order, with the default options unless
      others are given. */
  lemma SubmittedJob<J>(s: Service<J>, sourceId: string, name: string, requests: seq<Request>,
                        format: string, options: Option<Options>, m: Manga, chapters: seq<Chapter>)
    requires FindMangaFrom(s, name) == Some(m)
    requires ServiceChapters(s.chapterList(m.id)) == chapters && |chapters| > 0
    requires forall j :: 0 <= j < |requests| ==> Resolve(chapters, requests[j]).Some?
    ensures var r := DownloadMangaChapters(s, sourceId, name, requests, format, options, false);
      && (r.Returns? <==> !Submit(s, sourceId, m.id, Ids(Hits(requests, Resolver(chapters))), format, options).Escaped?)
      && (r.Returns? ==> r.value.download == Some(Submit(s, sourceId, m.id, Ids(Hits(requests, Resolver(chapters))), format, options)))
      && (r.Returns? ==> (r.value.success <==>
            s.post(PayloadOf(sourceId, m.id, Ids(Hits(requests, Resolver(chapters))), format, options)).Returned?))
  {
    NoMisses(requests, Resolver(chapters));
    var matched := Hits(requests, Resolver(chapters));
    var r := DownloadMangaChapters(s, sourceId, name, requests, format, options, false);
    assert r == FromManga(s, sourceId, m, requests, format, options, false);
    assert r == FromChapters(s, sourceId, m, chapters, requests, format, options, false);
    assert r == FromMatched(s, sourceId, m, matched, format, options, false);
  }

  /** A validation run never submits anything, and succeeds exactly when
      the manga, a chapter list and every chapter are found. */
  lemma ValidationOnly<J>(s: Service<J>, sourceId: string, name: string, requests: seq<Request>,
                          format: string, options: Option<Options>)
    ensures var r := DownloadMangaChapters(s, sourceId, name, requests, format, options, true);
      && r.Returns? && r.value.download.None?
      && (r.value.success <==>
            && FindMangaFrom(s, name).Some?
            && |ServiceChapters(s.chapterList(FindMangaFrom(s, name).value.id))| > 0
            && forall j :: 0 <= j < |requests| ==>
                 Resolve(ServiceChapters(s.chapterList(FindMangaFrom(s, name).value.id)), requests[j]).Some?)
  {
    if m :| FindMangaFrom(s, name) == Some(m) {
      var chapters := ServiceChapters(s.chapterList(m.id));
      if |chapters| > 0 {
        NoMisses(requests, Resolver(chapters));
      }
    }
  }

  /** An empty request list is not rejected: it submits a job with no
      chapters. */
  lemma EmptyRequestSubmitsEmptyJob<J>(s: Service<J>, sourceId: string, name: string,
                                       format: string, options: Option<Options>, m: Manga)
    requires FindMangaFrom(s, name) == Some(m)
    requires |ServiceChapters(s.chapterList(m.id))| > 0
    ensures var r := DownloadMangaChapters(s, sourceId, name, [], format, options, false);
      r.Returns? ==> r.value.download == Some(Submit(s, sourceId, m.id, [], format, options))
  {
    var chapters := ServiceChapters(s.chapterList(m.id));
    assert Hits([], Resolver(chapters)) == [];
    assert Ids([]) == [];
  }
}
