/** The manga service's orchestration: `download_chapter` (one chapter,
    trying alternative titles), `validate_manga_has_chapters`, and
    `download_chapters` (a batch with per-chapter failures). The backend
    is an oracle: how each retried request ended, and which page files
    already exist in a folder. */
module MangaService {
  import opened Wrappers
  import opened Text
  import opened Records
  import opened Search
  import opened Retry
  import opened Responses
  import opened MangaResolution
  import opened ChapterResolution
  import opened DownloadPaths

  /** The endpoints the service calls, each behind the retry wrapper, and
      the download folders on disk. */
  datatype Backend = Backend(
    search: string -> Final<Body<Manga>>,                  // GET /api/manga?search=<title>
    chapterList: string -> Final<Body<Chapter>>,           // GET /api/manga/<id>/chapters
    pages: (string, string) -> Final<Body<string>>,        // GET /api/manga/<id>/chapters/<cid>/pages
    image: string -> Final<seq<bv8>>,                      // GET <image url>
    files: seq<string> -> set<string>)                     // the files already in a folder

  /** A lookup that finds something, finds nothing, or raises. */
  datatype Lookup<T> = Found(value: T) | Absent | Crashed

  /** What went wrong, one constructor per message the service reports. */
  datatype Problem =
    | MangaNotFound(tried: seq<string>)   // no title matched a search hit
    | NoChapterList                       // the chapter list was empty
    | ChapterNotFound(request: string)    // the chapter request matched nothing
    | NoImages                            // the page list was empty
    | MissingChapters(numbers: seq<int>)  // validation: chapters that do not resolve
    | PartialSuccess(failed: nat)         // batch: some, not all, chapters failed
    | AllFailed                           // batch: no chapter was downloaded
    | Exception                           // a caught exception, `str(e)`

  // ---------------------------------------------------------------------
  // Looking things up.
  // ---------------------------------------------------------------------

  /** `resolve_manga_id(title)`: search, then the exact and normalised
      passes over the hits. A body whose truth value is false is no hits;
      any other body that is not a list raises. */
  function FindTitle(b: Backend, title: string): (r: Lookup<Manga>)
    ensures r.Crashed? <==> ServiceList(b.search(title)).None?
    ensures r.Found? ==> r.value in ServiceList(b.search(title)).value && NormalizedTitle(title, r.value.title)
    ensures r.Absent? ==> forall j :: 0 <= j < |ServiceList(b.search(title)).value| ==>
                            !NormalizedTitle(title, ServiceList(b.search(title)).value[j].title)
  {
    match ServiceList(b.search(title))
    case None => Crashed
    case Some(results) =>
      match ResolveMangaId(results, title)
      case Some(m) => Found(m)
      case None => Absent
  }

  /** A search whose body is `null`, `false`, `0` or `""` finds nothing,
      and the title loop goes on to the next title. */
  lemma FalsySearchIsAbsent(b: Backend, title: string)
    requires b.search(title) == Returned(Falsy)
    ensures FindTitle(b, title) == Absent
  {
  }

  /** The first lookup, in order, that does not come back empty: the loop
      `for q in qs: x = f(q); if x: break`, where an exception ends the
      loop too. */
  function FirstFound<Q, T(==)>(qs: seq<Q>, f: Q -> Lookup<T>): (r: Lookup<T>)
    ensures r.Absent? <==> forall k :: 0 <= k < |qs| ==> f(qs[k]).Absent?
    ensures !r.Absent? ==> exists k :: 0 <= k < |qs| && f(qs[k]) == r
                                       && forall j :: 0 <= j < k ==> f(qs[j]).Absent?
  {
    if |qs| == 0 then Absent
    else if !f(qs[0]).Absent? then f(qs[0])
    else
      var r := FirstFound(qs[1..], f);
      assert forall k :: 1 <= k < |qs| ==> qs[k] == qs[1..][k - 1];
      if r.Absent? then r
      else
        var k :| 0 <= k < |qs[1..]| && f(qs[1..][k]) == r
                 && forall j :: 0 <= j < k ==> f(qs[1..][j]).Absent?;
        assert f(qs[k + 1]) == r;
        r
  }

  /** The title loop of `download_chapter` and `download_chapters`: the
      first title that resolves wins; an exception ends the loop. */
  function TryTitles(b: Backend, titles: seq<string>): (r: Lookup<Manga>)
    ensures r.Absent? <==> forall k :: 0 <= k < |titles| ==> FindTitle(b, titles[k]).Absent?
    ensures !r.Absent? ==> exists k :: 0 <= k < |titles| && FindTitle(b, titles[k]) == r
                                       && forall j :: 0 <= j < k ==> FindTitle(b, titles[j]).Absent?
  {
    FirstFound(titles, (t: string) => FindTitle(b, t))
  }

  /** `[manga_title] + (alternative_titles or [])`. */
  function TitlesToTry(title: string, alternatives: seq<string>): (r: seq<string>)
    ensures |r| == 1 + |alternatives| && r[0] == title
  {
    [title] + alternatives
  }

  /** `fetch_chapters`: the body, which must be a list. */
  function FetchChapters(b: Backend, mangaId: string): (r: Option<seq<Chapter>>)
    // a failed request propagates, shown as `None`
    ensures !b.chapterList(mangaId).Returned? ==> r.None?
    ensures b.chapterList(mangaId).Returned? && b.chapterList(mangaId).value.List? ==>
              r == Some(b.chapterList(mangaId).value.items)
    ensures b.chapterList(mangaId).Returned? && b.chapterList(mangaId).value.Object? ==> r.None?
  {
    ServiceList(b.chapterList(mangaId))
  }

  // ---------------------------------------------------------------------
  // download_images
  // ---------------------------------------------------------------------

  /** The page loop of `download_images`, from position `k` on: a page
      whose file (in `names`) exists already is skipped, every other page
      is fetched and written, and the first request that raises ends it.
      `true` when it ran through. */
  function SavePages(b: Backend, dir: seq<string>, names: seq<string>, urls: seq<string>, k: nat): (ok: bool)
    requires |names| == |urls| && k <= |urls|
    ensures ok <==> forall i :: k <= i < |urls| ==> names[i] in b.files(dir) || b.image(urls[i]).Returned?
    decreases |urls| - k
  {
    if k == |urls| then true
    else if names[k] in b.files(dir) then SavePages(b, dir, names, urls, k + 1)
    else b.image(urls[k]).Returned? && SavePages(b, dir, names, urls, k + 1)
  }

  /** `download_images`: the chapter's folder, or `None` for an exception.
      A dry run fetches nothing. */
  function DownloadImages(b: Backend, mangaTitle: string, chapterTitle: string, urls: seq<string>, dryRun: bool): (r: Option<seq<string>>)
    ensures r.Some? ==> r.value == TargetDir(mangaTitle, chapterTitle)
    ensures r.None? <==> !dryRun && (exists i :: 0 <= i < |urls| &&
                                      PageFileName(i + 1, urls[i]) !in b.files(TargetDir(mangaTitle, chapterTitle))
                                      && !b.image(urls[i]).Returned?)
  {
    var dir := TargetDir(mangaTitle, chapterTitle);
    if dryRun || SavePages(b, dir, PageFileNames(urls), urls, 0) then Some(dir) else None
  }

  // ---------------------------------------------------------------------
  // download_chapter
  // ---------------------------------------------------------------------

  datatype ChapterReport = ChapterReport(
    success: bool,
    error: Option<Problem>,
    availableChapters: Option<seq<string>>,
    imagesDownloaded: nat,
    folder: Option<seq<string>>)

  /** What every report of `download_chapter` satisfies: an error exactly
      when it failed; images and a folder (whose manga part is a safe name)
      only when it succeeded; the available chapters, at most twenty, only
      when the chapter was not found. */
  predicate Coherent(r: ChapterReport) {
    && (r.success <==> r.error.None?)
    && (r.success ==> r.imagesDownloaded > 0 && r.folder.Some? && |r.folder.value| == 2 && SanitizedName(r.folder.value[0]))
    && (!r.success ==> r.imagesDownloaded == 0 && r.folder.None?)
    && (r.availableChapters.Some? <==> r.error.Some? && r.error.value.ChapterNotFound?)
    && (r.availableChapters.Some? ==> |r.availableChapters.value| <= 20)
  }

  function ChapterFailure(p: Problem): ChapterReport {
    ChapterReport(false, Some(p), None, 0, None)
  }

  /** The titles of the first twenty chapters, offered when the request
      matches none. */
  function Available(chapters: seq<Chapter>): (r: seq<string>)
    ensures |r| <= 20 && |r| <= |chapters|
    ensures forall i :: 0 <= i < |r| ==> r[i] == chapters[i].title
  {
    var first := Take(chapters, 20);
    seq(|first|, i requires 0 <= i < |first| => first[i].title)
  }

  /** From a resolved chapter on: its pages, then the download. */
  function FetchAndSave(b: Backend, m: Manga, c: Chapter, dryRun: bool): (r: ChapterReport)
    ensures r.success <==> r.error.None?
    ensures r.success ==> r.folder == Some(TargetDir(m.title, c.title)) && r.imagesDownloaded > 0
    ensures !r.success ==> r.imagesDownloaded == 0 && r.folder.None?
    ensures r.availableChapters.None?
    ensures r.error.Some? ==> r.error.value in {NoImages, Exception}
  {
    match PageUrls(b.pages(m.id, c.id))
    case None => ChapterFailure(Exception)
    case Some(urls) =>
      if |urls| == 0 then ChapterFailure(NoImages)
      else
        match DownloadImages(b, m.title, c.title, urls, dryRun)
        case None => ChapterFailure(Exception)
        case Some(dir) => ChapterReport(true, None, None, |urls|, Some(dir))
  }

  /** From the manga's chapter list on: resolve the request, then fetch. */
  function FromChapterList(b: Backend, m: Manga, chapters: seq<Chapter>, request: string, dryRun: bool): (r: ChapterReport)
    ensures Coherent(r)
    ensures r.error.Some? ==> !r.error.value.MangaNotFound?
  {
    if |chapters| == 0 then ChapterFailure(NoChapterList)
    else FromResolved(b, m, chapters, request, ResolveChapter(chapters, request), dryRun)
  }

  /** The same, once the request is resolved (`found`) or not. */
  function FromResolved(b: Backend, m: Manga, chapters: seq<Chapter>, request: string, found: Option<Chapter>, dryRun: bool): (r: ChapterReport)
    ensures Coherent(r)
    ensures r.error.Some? ==> !r.error.value.MangaNotFound?
  {
    match found
    case None => ChapterReport(false, Some(ChapterNotFound(request)), Some(Available(chapters)), 0, None)
    case Some(c) => FetchAndSave(b, m, c, dryRun)
  }

  /** `download_chapter`. */
  function DownloadChapter(b: Backend, title: string, alternatives: seq<string>, request: string, dryRun: bool): (r: ChapterReport)
    ensures Coherent(r)
    ensures TryTitles(b, TitlesToTry(title, alternatives)).Absent? <==>
              r.error == Some(MangaNotFound(TitlesToTry(title, alternatives)))
    ensures r.success ==> TryTitles(b, TitlesToTry(title, alternatives)).Found?
  {
    var titles := TitlesToTry(title, alternatives);
    match TryTitles(b, titles)
    case Crashed => ChapterFailure(Exception)
    case Absent => ChapterFailure(MangaNotFound(titles))
    case Found(m) =>
      match FetchChapters(b, m.id)
      case None => ChapterFailure(Exception)
      case Some(chapters) => FromChapterList(b, m, chapters, request, dryRun)
  }

  /** The main title is searched first; the alternatives are consulted only
      when it matches nothing, and then in order. */
  lemma MainTitleFirst(b: Backend, title: string, alternatives: seq<string>)
    ensures !FindTitle(b, title).Absent? ==> TryTitles(b, TitlesToTry(title, alternatives)) == FindTitle(b, title)
    ensures FindTitle(b, title).Absent? ==> TryTitles(b, TitlesToTry(title, alternatives)) == TryTitles(b, alternatives)
  {
    assert TitlesToTry(title, alternatives)[1..] == alternatives;
  }

  /** A dry run reports what the real run reports when every image can be
      fetched: the same folder and the same image count. */
  lemma DryRunPreviews(b: Backend, title: string, alternatives: seq<string>, request: string)
    requires forall url :: b.image(url).Returned?
    ensures DownloadChapter(b, title, alternatives, request, true) == DownloadChapter(b, title, alternatives, request, false)
  {
    match TryTitles(b, TitlesToTry(title, alternatives))
    case Found(m) =>
      if chapters :| FetchChapters(b, m.id) == Some(chapters) {
        DryRunSameFromChapters(b, m, chapters, request);
      }
    case _ =>
  }

  lemma DryRunSameFromChapters(b: Backend, m: Manga, chapters: seq<Chapter>, request: string)
    requires forall url :: b.image(url).Returned?
    ensures FromChapterList(b, m, chapters, request, true) == FromChapterList(b, m, chapters, request, false)
  {
    if |chapters| > 0 {
      DryRunSameFromResolved(b, m, chapters, request, ResolveChapter(chapters, request));
    }
  }

  lemma DryRunSameFromResolved(b: Backend, m: Manga, chapters: seq<Chapter>, request: string, found: Option<Chapter>)
    requires forall url :: b.image(url).Returned?
    ensures FromResolved(b, m, chapters, request, found, true) == FromResolved(b, m, chapters, request, found, false)
  {
    if found.Some? {
      var c := found.value;
      if urls :| PageUrls(b.pages(m.id, c.id)) == Some(urls) {
        assert DownloadImages(b, m.title, c.title, urls, false).Some?;
      }
    }
  }

  /** A chapter whose image requests all fail still succeeds when every
      page file is already on disk. */
  lemma ExistingPagesAreKept(b: Backend, m: Manga, c: Chapter, urls: seq<string>)
    requires forall i :: 0 <= i < |urls| ==> PageFileName(i + 1, urls[i]) in b.files(TargetDir(m.title, c.title))
    ensures DownloadImages(b, m.title, c.title, urls, false) == Some(TargetDir(m.title, c.title))
  {
  }

  // ---------------------------------------------------------------------
  // validate_manga_has_chapters
  // ---------------------------------------------------------------------

  datatype Validation = Validation(success: bool, manga: Option<Manga>, missing: seq<int>, error: Option<Problem>)

  /** The chapter numbers of `numbers` that `resolve_chapter(chapters, str(n))`
      finds nothing for. */
  function Unresolved(chapters: seq<Chapter>): int -> bool {
    (n: int) => ResolveChapter(chapters, IntToString(n)).None?
  }

  /** `validate_manga_has_chapters`. */
  function Validate(b: Backend, title: string, numbers: seq<int>): (r: Validation)
    ensures r.success <==> r.error.None?
    ensures r.success ==> r.missing == [] && r.manga.Some?
    ensures !r.success ==> |r.missing| > 0 || r.missing == numbers
    ensures forall k :: 0 <= k < |r.missing| ==> r.missing[k] in numbers
    ensures r.manga.Some? ==> FindTitle(b, title) == Found(r.manga.value)
    ensures !FindTitle(b, title).Found? ==> r.missing == numbers && r.manga.None?
    ensures r.error == Some(Exception) ==> r.missing == numbers && r.manga.None?
  {
    match FindTitle(b, title)
    case Crashed => Validation(false, None, numbers, Some(Exception))
    case Absent => Validation(false, None, numbers, Some(MangaNotFound([title])))
    case Found(m) =>
      match FetchChapters(b, m.id)
      case None => Validation(false, None, numbers, Some(Exception))
      case Some(chapters) =>
        if |chapters| == 0 then Validation(false, Some(m), numbers, Some(NoChapterList))
        else
          var missing := Filter(numbers, Unresolved(chapters));
          if |missing| > 0 then Validation(false, Some(m), missing, Some(MissingChapters(missing)))
          else Validation(true, Some(m), [], None)
  }

  /** Once the manga and a non-empty chapter list are found, validation
      succeeds exactly when every number resolves, and otherwise reports
      the ones that do not, in request order. */
  lemma ValidationIsPerNumber(b: Backend, title: string, numbers: seq<int>, m: Manga, chapters: seq<Chapter>)
    requires FindTitle(b, title) == Found(m) && FetchChapters(b, m.id) == Some(chapters) && |chapters| > 0
    ensures Validate(b, title, numbers).success <==>
              forall k :: 0 <= k < |numbers| ==> ResolveChapter(chapters, IntToString(numbers[k])).Some?
    ensures !Validate(b, title, numbers).success ==>
              Validate(b, title, numbers).missing == Filter(numbers, Unresolved(chapters))
  {
    if Validate(b, title, numbers).success {
      assert |Filter(numbers, Unresolved(chapters))| == 0;
    }
  }

  /** A chapter number requests, in the manga service's matcher, the first
      chapter whose title is that number or whose first number is it. */
  lemma NumberRequest(chapters: seq<Chapter>, n: nat)
    ensures ResolveChapter(chapters, NatToString(n)).Some? <==>
              exists j :: 0 <= j < |chapters| &&
                (Folded(chapters[j].title) == Folded(NatToString(n)) || FirstNumber(chapters[j].title) == Some(n))
  {
    RequestedIntOfNat(n);
    if ResolveChapter(chapters, NatToString(n)).None? {
      assert ByFirstNumber(chapters, n).None?;
    }
  }

  // ---------------------------------------------------------------------
  // download_chapters
  // ---------------------------------------------------------------------

  datatype Downloaded = Downloaded(chapterNumber: int, chapterTitle: string, imagesDownloaded: nat, folder: seq<string>)

  datatype FailedChapter = FailedChapter(chapterNumber: int, problem: Problem)

  datatype Outcome = Succeeded(done: Downloaded) | FailedWith(failed: FailedChapter)

  /** One iteration of the chapter loop of `download_chapters`, whose own
      `try` turns an exception into a failed chapter. */
  function ChapterStep(b: Backend, m: Manga, chapters: seq<Chapter>, dryRun: bool, n: int): (r: Outcome)
    ensures r.Succeeded? ==> r.done.chapterNumber == n && r.done.imagesDownloaded > 0
    ensures r.FailedWith? ==> r.failed.chapterNumber == n
    ensures r.FailedWith? ==> r.failed.problem in {ChapterNotFound(IntToString(n)), NoImages, Exception}
    ensures r.FailedWith? && r.failed.problem.ChapterNotFound? <==> ResolveChapter(chapters, IntToString(n)).None?
  {
    StepWith(b, m, n, ResolveChapter(chapters, IntToString(n)), dryRun)
  }

  /** The iteration once the chapter request is resolved, or not. */
  function StepWith(b: Backend, m: Manga, n: int, found: Option<Chapter>, dryRun: bool): (r: Outcome)
    ensures r.Succeeded? ==> r.done.chapterNumber == n && r.done.imagesDownloaded > 0
    ensures r.FailedWith? ==> r.failed.chapterNumber == n
    ensures r.FailedWith? ==> r.failed.problem in {ChapterNotFound(IntToString(n)), NoImages, Exception}
    ensures r.FailedWith? && r.failed.problem.ChapterNotFound? <==> found.None?
  {
    match found
    case None => FailedWith(FailedChapter(n, ChapterNotFound(IntToString(n))))
    case Some(c) =>
      match PageUrls(b.pages(m.id, c.id))
      case None => FailedWith(FailedChapter(n, Exception))
      case Some(urls) =>
        if |urls| == 0 then FailedWith(FailedChapter(n, NoImages))
        else
          match DownloadImages(b, m.title, c.title, urls, dryRun)
          case None => FailedWith(FailedChapter(n, Exception))
          case Some(dir) => Succeeded(Downloaded(n, c.title, |urls|, dir))
  }

  function DoneOf(b: Backend, m: Manga, chapters: seq<Chapter>, dryRun: bool): int -> Option<Downloaded> {
    (n: int) => match ChapterStep(b, m, chapters, dryRun, n) case Succeeded(d) => Some(d) case FailedWith(_) => None
  }

  function FailedOf(b: Backend, m: Manga, chapters: seq<Chapter>, dryRun: bool): int -> Option<FailedChapter> {
    (n: int) => match ChapterStep(b, m, chapters, dryRun, n) case FailedWith(f) => Some(f) case Succeeded(_) => None
  }

  /** The `downloaded_chapters` list: one entry per chapter that went
      through, in request order. */
  function DownloadedChapters(b: Backend, m: Manga, chapters: seq<Chapter>, dryRun: bool, numbers: seq<int>): seq<Downloaded> {
    Hits(numbers, DoneOf(b, m, chapters, dryRun))
  }

  /** The `failed_chapters` list, in request order. */
  function FailedChapters(b: Backend, m: Manga, chapters: seq<Chapter>, dryRun: bool, numbers: seq<int>): seq<FailedChapter> {
    Hits(numbers, FailedOf(b, m, chapters, dryRun))
  }

  datatype BatchReport = BatchReport(
    success: bool,
    mangaTitle: Option<string>,
    total: nat,
    successful: nat,
    failedCount: nat,
    downloaded: seq<Downloaded>,
    failed: seq<FailedChapter>,
    missing: seq<int>,
    error: Option<Problem>)

  /** The report before anything happened, with its `error` set. */
  function BatchFailure(numbers: seq<int>, mangaTitle: Option<string>, missing: seq<int>, p: Problem): BatchReport {
    BatchReport(false, mangaTitle, |numbers|, 0, 0, [], [], missing, Some(p))
  }

  /** The verdict on a batch whose every number ended up in exactly one of
      `downloaded` and `failed`. */
  function Verdict(m: Manga, numbers: seq<int>, downloaded: seq<Downloaded>, failed: seq<FailedChapter>): (r: BatchReport)
    requires |downloaded| + |failed| == |numbers|
    ensures r.successful == |r.downloaded| && r.failedCount == |r.failed|
    ensures r.successful + r.failedCount == r.total == |numbers|
    ensures r.success <==> r.successful > 0 || |numbers| == 0
    ensures r.success && r.failedCount > 0 ==> r.error == Some(PartialSuccess(r.failedCount))
    ensures r.success && r.failedCount == 0 ==> r.error.None?
    ensures !r.success ==> r.error == Some(AllFailed)
    ensures r.downloaded == downloaded && r.failed == failed
    ensures r.mangaTitle == Some(m.title) && r.missing == []
  {
    var report := BatchReport(false, Some(m.title), |numbers|, |downloaded|, |failed|, downloaded, failed, [], None);
    if |downloaded| == |numbers| then report.(success := true)
    else if |downloaded| > 0 then report.(success := true, error := Some(PartialSuccess(|failed|)))
    else report.(error := Some(AllFailed))
  }

  /** The end of the batch: every chapter tried, and the overall verdict. */
  function Tally(b: Backend, m: Manga, chapters: seq<Chapter>, dryRun: bool, numbers: seq<int>): (r: BatchReport)
    ensures r.successful == |r.downloaded| && r.failedCount == |r.failed|
    ensures r.successful + r.failedCount == r.total == |numbers|
    ensures r.success <==> r.successful > 0 || |numbers| == 0
    ensures r.success && r.failedCount > 0 ==> r.error == Some(PartialSuccess(r.failedCount))
    ensures r.success && r.failedCount == 0 ==> r.error.None?
    ensures !r.success ==> r.error == Some(AllFailed)
    ensures r.downloaded == DownloadedChapters(b, m, chapters, dryRun, numbers)
    ensures r.failed == FailedChapters(b, m, chapters, dryRun, numbers)
    ensures r.mangaTitle == Some(m.title) && r.missing == []
  {
    HitsPartition(numbers, DoneOf(b, m, chapters, dryRun), FailedOf(b, m, chapters, dryRun));
    Verdict(m, numbers, DownloadedChapters(b, m, chapters, dryRun, numbers), FailedChapters(b, m, chapters, dryRun, numbers))
  }

  /** `download_chapters` once the chapter list is in hand. */
  function FromChapterNumbers(b: Backend, m: Manga, numbers: seq<int>, dryRun: bool): (r: BatchReport)
    ensures r.total == |numbers|
    ensures r.successful == |r.downloaded| && r.failedCount == |r.failed|
    ensures r.success ==> r.successful + r.failedCount == r.total
    ensures r.successful > 0 ==> r.success
    ensures !r.success ==> r.successful == 0 && r.error.Some?
    ensures r.missing == []
    ensures r.mangaTitle == Some(m.title)
  {
    match FetchChapters(b, m.id)
    case None => BatchFailure(numbers, Some(m.title), [], Exception)
    case Some(chapters) =>
      if |chapters| == 0 then BatchFailure(numbers, Some(m.title), [], NoChapterList)
      else Tally(b, m, chapters, dryRun, numbers)
  }

  /** `download_chapters` once the manga is found: the optional validation
      first. */
  function FromFoundManga(b: Backend, m: Manga, numbers: seq<int>, dryRun: bool, validateFirst: bool): (r: BatchReport)
    ensures r.total == |numbers|
    ensures r.successful == |r.downloaded| && r.failedCount == |r.failed|
    ensures r.success ==> r.successful + r.failedCount == r.total
    ensures r.successful > 0 ==> r.success
    ensures !r.success ==> r.successful == 0 && r.error.Some?
    ensures r.missing != [] ==> !r.success
    ensures r.mangaTitle == Some(m.title)
  {
    var v := Validate(b, m.title, numbers);
    if validateFirst && !v.success then BatchFailure(numbers, Some(m.title), v.missing, v.error.value)
    else FromChapterNumbers(b, m, numbers, dryRun)
  }

  /** `download_chapters`. */
  function DownloadChapters(b: Backend, title: string, numbers: seq<int>, dryRun: bool,
                            alternatives: seq<string>, validateFirst: bool): (r: BatchReport)
    ensures r.total == |numbers|
    ensures r.successful == |r.downloaded| && r.failedCount == |r.failed|
    ensures r.success ==> r.successful + r.failedCount == r.total
    ensures r.successful > 0 ==> r.success
    ensures !r.success ==> r.successful == 0 && r.error.Some?
    ensures r.missing != [] ==> !r.success
    ensures r.mangaTitle.Some? <==> TryTitles(b, TitlesToTry(title, alternatives)).Found?
  {
    var titles := TitlesToTry(title, alternatives);
    match TryTitles(b, titles)
    case Crashed => BatchFailure(numbers, None, [], Exception)
    case Absent => BatchFailure(numbers, None, [], MangaNotFound(titles))
    case Found(m) => FromFoundManga(b, m, numbers, dryRun, validateFirst)
  }

  /** Each outcome is recorded under the number it was for. */
  lemma OutcomesKeepNumbers(b: Backend, m: Manga, chapters: seq<Chapter>, dryRun: bool, numbers: seq<int>)
    ensures forall j :: 0 <= j < |numbers| ==> DoneOf(b, m, chapters, dryRun)(numbers[j]).Some? ==>
              DoneOf(b, m, chapters, dryRun)(numbers[j]).value.chapterNumber == numbers[j]
    ensures forall j :: 0 <= j < |numbers| ==> FailedOf(b, m, chapters, dryRun)(numbers[j]).Some? ==>
              FailedOf(b, m, chapters, dryRun)(numbers[j]).value.chapterNumber == numbers[j]
  {
  }

  /** Every downloaded chapter was requested, and so was every failed one. */
  lemma ReportedChaptersWereRequested(b: Backend, m: Manga, chapters: seq<Chapter>, dryRun: bool, numbers: seq<int>)
    ensures forall k :: 0 <= k < |DownloadedChapters(b, m, chapters, dryRun, numbers)| ==>
              DownloadedChapters(b, m, chapters, dryRun, numbers)[k].chapterNumber in numbers
    ensures forall k :: 0 <= k < |FailedChapters(b, m, chapters, dryRun, numbers)| ==>
              FailedChapters(b, m, chapters, dryRun, numbers)[k].chapterNumber in numbers
  {
    OutcomesKeepNumbers(b, m, chapters, dryRun, numbers);
    HitsAll(numbers, DoneOf(b, m, chapters, dryRun), (d: Downloaded) => d.chapterNumber in numbers);
    HitsAll(numbers, FailedOf(b, m, chapters, dryRun), (f: FailedChapter) => f.chapterNumber in numbers);
  }

  /** An empty batch for a manga that has chapters counts as a success:
      zero downloads out of zero requested. */
  lemma EmptyBatchSucceeds(b: Backend, title: string, dryRun: bool, alternatives: seq<string>, validateFirst: bool, m: Manga, chapters: seq<Chapter>)
    requires TryTitles(b, TitlesToTry(title, alternatives)) == Found(m)
    requires FetchChapters(b, m.id) == Some(chapters) && |chapters| > 0
    requires FindTitle(b, m.title) == Found(m)
    ensures DownloadChapters(b, title, [], dryRun, alternatives, validateFirst).success
    ensures DownloadChapters(b, title, [], dryRun, alternatives, validateFirst).error.None?
  {
  }

  /** When searching the resolved title finds the same manga again, a
      batch that passed validation never reports a chapter as not found:
      every failure is a page or download failure. */
  lemma ValidatedChaptersResolve(b: Backend, m: Manga, chapters: seq<Chapter>, dryRun: bool, numbers: seq<int>)
    requires FindTitle(b, m.title) == Found(m) && FetchChapters(b, m.id) == Some(chapters) && |chapters| > 0
    requires Validate(b, m.title, numbers).success
    ensures forall k :: 0 <= k < |FailedChapters(b, m, chapters, dryRun, numbers)| ==>
              !FailedChapters(b, m, chapters, dryRun, numbers)[k].problem.ChapterNotFound?
  {
    ValidationIsPerNumber(b, m.title, numbers, m, chapters);
    ResolvedNeverNotFound(b, m, chapters, dryRun, numbers);
    HitsAll(numbers, FailedOf(b, m, chapters, dryRun), (f: FailedChapter) => !f.problem.ChapterNotFound?);
  }

  lemma ResolvedNeverNotFound(b: Backend, m: Manga, chapters: seq<Chapter>, dryRun: bool, numbers: seq<int>)
    requires forall k :: 0 <= k < |numbers| ==> ResolveChapter(chapters, IntToString(numbers[k])).Some?
    ensures forall j :: 0 <= j < |numbers| ==> FailedOf(b, m, chapters, dryRun)(numbers[j]).Some? ==>
              !FailedOf(b, m, chapters, dryRun)(numbers[j]).value.problem.ChapterNotFound?
  {
  }
}
