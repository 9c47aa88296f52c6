# HaruNeko Python clients — a Dafny model

This project models the decision logic of the Python clients of the HaruNeko
manga download server. Three programs share that logic:

- `HarunekoMangaService` (`haruneko_manga_service.py`) resolves a manga by
  title, resolves a chapter by number or title, and writes its page images
  under `<root>/<sanitised title>/chapter_<n>/NNN.<ext>`. It also validates and
  downloads batches of chapters.
- `HaruNekoDownloadService` (`haruneko_download_service.py`) finds a manga
  with a four-step cascade and matches requested chapters against the
  `number` field and three title patterns. It submits one download job to
  `POST /downloads`.
- `ChapterPatternCollector` (`collect_chapter_patterns.py`) pages through a
  source's manga list up to a limit and samples the first chapters of each
  manga.
- The script `test_chapter_parsing.py` contrasts the old and the fixed
  chapter matchers on two tables of real listings.

Every remote call is an oracle parameter. A request run through
`_request_with_retry` is modelled by `Retry` as a trace over the attempts'
outcomes. Callers see only how the retried call ended (`Retry.Final`): a
value, a raised failure, or the `None` that falls out of an empty loop. A
JSON body is `Responses.Body`: an object with `success`, `data`, `pages`
and `meta.totalPages`, a bare list, a scalar whose truth value is false
(`null`, `false`, `0`, `""`), or anything else. Strings are sequences
of characters. Chapter numbers are exact decimals (`real`).

Modules follow the programs:

| module | what it holds |
|---|---|
| `Wrappers`, `Search`, `Text`, `Decimals` | Option; first-match, filter and batch-lookup combinators; ASCII case, whitespace, digit runs; the `\d+(?:\.\d+)?` capture and `int`/`float` of digit strings |
| `Retry` | the three copies of `_request_with_retry` |
| `Responses` | the five ways the clients read a JSON body |
| `Titles`, `MangaResolution` | `_normalize_title`, `resolve_manga_id`, `_find_manga` |
| `ChapterResolution`, `ParsingTables` | `resolve_chapter`, `resolve_chapter_old`, `resolve_chapter_new`, the test tables |
| `ChapterMatching` | `_match_chapters`, `_find_chapter_by_string` |
| `DownloadPaths` | folder and file names of `download_images` |
| `MangaService` | `download_chapter`, `validate_manga_has_chapters`, `download_chapters` |
| `DownloadService` | `download_manga_chapters`, `_download_chapters` |
| `Collector` | `get_all_manga`, `collect_from_manga_list` |

## Model

| member | source | states |
|---|---|---|
| Retry.RetryFrom | python_client/haruneko_manga_service.py:48-84 | the wrapper makes at most `max_retries` calls. Every call but the last failed retryably. The sleep before call k+1 is `initial_delay * 2^k`, with no sleep after the last call. It raises the last failure when that failure is not retryable or the attempts ran out. It falls through to `None` only when no call is made. |
| Retry.RequestWithRetry | python_client/haruneko_manga_service.py:48-84 | the counted loop with a doubling delay produces exactly the trace of the recursive model |
| Retry.RetryCallBound | python_client/haruneko_manga_service.py:51-84 | at most `max_retries` calls. With `max_retries <= 0` there is no call, no sleep and a `None` result. |
| Retry.NonRetryableRaisedAtOnce | python_client/haruneko_manga_service.py:65-80 | a failure outside the retryable set is raised after one call, with no sleep |
| Retry.ExhaustedRaisesLast | python_client/haruneko_manga_service.py:56-77 | when every attempt fails retryably, all `max_retries` calls are made and the last attempt's failure is raised |
| Retry.DoublingSum | python_client/haruneko_manga_service.py:58-61 | delays `d, 2d, 4d, …` add up to `d * (2^n - 1)` |
| Retry.TotalSleep | python_client/haruneko_manga_service.py:58-74 | the total sleep of any run is `initial_delay * (2^s - 1)` for `s` sleeps |
| Retry.ServiceRecoversFromTwo503s | python_client/haruneko_manga_service.py:28-61 | with the manga service's defaults, two 503s and then a success take 3 calls and sleeps of 3 s and 6 s |
| Retry.DownloadServiceDoesNotRetryNetworkErrors | python_client/haruneko_download_service.py:63-88 | the download service retries only 429: a connection error or a 503 is raised after one call |
| Retry.CollectorGivesUpAfterFive | python_client/collect_chapter_patterns.py:20-49 | with the collector's defaults (5 calls, 2 s), constant 502s give 5 calls, sleeps 2, 4, 8, 16, and the 502 raised |
| Retry.Retryable | python_client/haruneko_manga_service.py:54-80 | only HTTP statuses, connection errors and timeouts are retried; 429 is retried by every copy, and the download service retries nothing else |
| Decimals.LeadingDecimal | python_client/haruneko_download_service.py:357-359 | the capture exists exactly when the text starts with a digit; it is greedy, takes the fraction exactly when a dot and a digit follow the digits, and its value is never negative |
| Decimals.ParseFloat | python_client/haruneko_download_service.py:323-324 | an unsigned numeral, after stripping, reads as itself, and a negative result needs a leading `-` |
| Decimals.ParseFloatSigned | python_client/haruneko_download_service.py:323-324 | a numeral behind `+` reads as itself and behind `-` as its negation |
| Decimals.ParseFloatOfNat | python_client/haruneko_download_service.py:323-324 | `float(str(n))` is `n` |
| Titles.Normalize | python_client/haruneko_manga_service.py:111-123 | the normalised title holds only lower-case word characters: no whitespace, punctuation or capitals |
| Titles.NormalizeIsWordFilter | python_client/haruneko_manga_service.py:121-122 | dropping non-word, non-space characters and then whitespace keeps exactly the word characters of the lower-cased title |
| Titles.NormalizeIdempotent | python_client/haruneko_manga_service.py:111-123 | normalising twice gives the same title as normalising once |
| Titles.NormalizeIgnoresCase | python_client/haruneko_manga_service.py:121 | lower-casing first changes nothing |
| Titles.NormalizeIgnoresStrip | python_client/haruneko_manga_service.py:121-122 | surrounding whitespace changes nothing |
| Titles.NormalizeOnePunchMan | python_client/haruneko_manga_service.py:119 | "One-Punch Man" normalises to "onepunchman" |
| Titles.NormalizeNamaikizakari | python_client/haruneko_manga_service.py:117 | "Namaikizakari." normalises to "namaikizakari" |
| MangaResolution.ResolveIndex | python_client/haruneko_manga_service.py:140-159 | the trimmed, case-insensitive exact pass runs over the whole list before the normalised pass. The pick is the first element passing the winning test. There is no pick when neither pass matches. |
| MangaResolution.ResolveMangaId | python_client/haruneko_manga_service.py:140-159 | no manga for empty results. Any manga returned is in the results and matches the query after normalisation. None is returned exactly when no title matches after normalisation. |
| MangaResolution.ExactIsNormalized | python_client/haruneko_manga_service.py:144-156 | an exact (trimmed, lower-case) match is also a normalised match |
| MangaResolution.ShortestPartial | python_client/haruneko_download_service.py:264-279 | the partial pick contains the stripped, lower-cased query and has a minimal title length. Earlier candidates are strictly longer, as the stable sort leaves ties in list order. There is no pick when no title contains the query. |
| MangaResolution.LaterSteps | python_client/haruneko_download_service.py:264-285 | the partial pick's title contains the query. The first result is used only when no title contains it. |
| MangaResolution.FromNormalized | python_client/haruneko_download_service.py:258-285 | a normalised pick is the first normalised match. Later steps are reached only when no title matches after normalisation. |
| MangaResolution.FindMangaIndex | python_client/haruneko_download_service.py:245-285 | a pick exists exactly when the results are non-empty. An exact pick is the first exact title. Any other pick comes from the later steps, which run only when no title is exact. |
| MangaResolution.CascadeOrder | python_client/haruneko_download_service.py:252-285 | exact wins whenever any title is exact. Each strategy's pick passes that strategy's own test, and the last resort is index 0. Each later strategy is used only when every earlier one matches nothing. Exact and normalised picks are the first match. |
| MangaResolution.FindManga | python_client/haruneko_download_service.py:245-285 | with non-empty results a manga from the list is always returned; with empty results none |
| MangaResolution.ServicesAgreeOnExact | python_client/haruneko_download_service.py:252-256 | when some title matches exactly, the two services' cascades return the same manga |
| ChapterResolution.RequestedInt | python_client/haruneko_manga_service.py:207-211 | the request has a number exactly when its trimmed, lower-cased form has a digit (`int('')` raises) |
| ChapterResolution.ByFirstNumber | python_client/haruneko_manga_service.py:213-224 | the first chapter whose title's first digit run has the requested value; none when no chapter has it |
| ChapterResolution.FirstNumber | python_client/haruneko_manga_service.py:216-221 | a title has a first number exactly when its trimmed, lower-cased form has a digit |
| ChapterResolution.FirstNumberOfNat | python_client/haruneko_manga_service.py:216-221 | a title that is `str(n)` has first number `n` |
| ChapterResolution.ResolveChapterIndex | python_client/haruneko_manga_service.py:200-226 | an exact trimmed, lower-case title anywhere in the list wins, and the first such title is chosen. Otherwise the number pass decides. |
| ChapterResolution.ResolveChapter | python_client/haruneko_manga_service.py:185-226 | a chapter found is in the list and either has the request's title or has the request's digits as its first number |
| ChapterResolution.ResolveChapterOld | python_client/test_chapter_parsing.py:9-30 | a chapter found is in the list and its first number is the request's digits |
| ChapterResolution.NoDigitsNoNumber | python_client/test_chapter_parsing.py:13-16 | without digits the old version returns nothing, and `resolve_chapter` can only match a title exactly |
| ChapterResolution.RequestedNumberNeedsDigit | python_client/test_chapter_parsing.py:37-40 | without a digit, the fixed version's `float` fails |
| ChapterResolution.RequestedNumber | python_client/test_chapter_parsing.py:38 | the fixed version never reads a negative request: the filter drops every sign |
| ChapterResolution.NewNoDigitsNoMatch | python_client/test_chapter_parsing.py:35-40 | an input without digits matches nothing in the fixed version |
| ChapterResolution.LabelOfWhole | python_client/test_chapter_parsing.py:46-50 | `ch.` followed by digits and a non-digit, non-dot character captures the whole number |
| ChapterResolution.LabelOfFraction | python_client/test_chapter_parsing.py:46-50 | `ch.` followed by `whole.frac` captures the fractional number |
| ChapterResolution.LabelAfter | python_client/test_chapter_parsing.py:46 | text without a `c` before the label does not change what the search finds |
| ChapterResolution.ChapterLabel | python_client/test_chapter_parsing.py:46 | the search finds a label exactly when one starts somewhere in the title, and then gives the leftmost one |
| ChapterResolution.IntegerBranchRedundant | python_client/test_chapter_parsing.py:52-60 | the integer-match branch fires only when the numbers are already equal |
| ChapterResolution.HasLabelIsEquality | python_client/test_chapter_parsing.py:46-60 | a chapter passes the fixed version's test exactly when its label number equals the request |
| ChapterResolution.ByLabel | python_client/test_chapter_parsing.py:42-64 | the first chapter whose label number is the request; none when no chapter has it |
| ChapterResolution.ResolveChapterNewIndex | python_client/test_chapter_parsing.py:33-64 | the fixed version picks the first chapter by label, and only when the request parses as a number |
| ChapterResolution.ResolveChapterNew | python_client/test_chapter_parsing.py:33-64 | a chapter found is in the list and its label number is the requested number |
| ChapterResolution.RequestedIntOfNat | python_client/haruneko_manga_service.py:487 | `str(n)` of a natural requests the number `n` |
| ChapterResolution.RequestedNumberOfNat | python_client/test_chapter_parsing.py:38 | the fixed version reads `str(n)` as `n` |
| ChapterResolution.RequestedNumberOfDecimal | python_client/test_chapter_parsing.py:38 | the fixed version reads `whole.frac` as that decimal |
| ParsingTables.OnePieceTable | python_client/test_chapter_parsing.py:71-82 | the first table's label numbers are 8, 7, …, 1, 14, 13 and its first numbers (the volumes) are 1 ×8, 2 ×2 |
| ParsingTables.DecimalTable | python_client/test_chapter_parsing.py:127-132 | the second table's label numbers are 132.5, 132, 8.1, 8 and its first numbers 132, 132, 1, 1 |
| ParsingTables.FixedVersionPicks | python_client/test_chapter_parsing.py:42-60 | on such a table the fixed version returns the row at the first occurrence of the request among the label numbers |
| ParsingTables.OldVersionPicks | python_client/test_chapter_parsing.py:18-28 | on such a table the old version returns the row at the first occurrence of the request among the first numbers |
| ParsingTables.OldVersionMisses | python_client/test_chapter_parsing.py:18-30 | the old version returns nothing when no first number is the request |
| ParsingTables.FixedVersionChapterOne | python_client/test_chapter_parsing.py:86 | request "1" gives `c001` |
| ParsingTables.FixedVersionChapterTwo | python_client/test_chapter_parsing.py:87 | request "2" gives `c002` |
| ParsingTables.FixedVersionChapterEight | python_client/test_chapter_parsing.py:88 | request "8" gives `c008` |
| ParsingTables.FixedVersionChapterFourteen | python_client/test_chapter_parsing.py:89 | request "14" gives `c014` |
| ParsingTables.OldVersionChapterOne | python_client/test_chapter_parsing.py:72-86 | the documented defect: request "1" gives `c008`, the first listing of volume 1 |
| ParsingTables.OldVersionChapterTwo | python_client/test_chapter_parsing.py:80-87 | request "2" gives `c014`, the first listing of volume 2 |
| ParsingTables.OldVersionChapterEight | python_client/test_chapter_parsing.py:88 | request "8" finds nothing, as no volume is 8 |
| ParsingTables.OldVersionChapterFourteen | python_client/test_chapter_parsing.py:89 | request "14" finds nothing |
| ParsingTables.DecimalChapterEight | python_client/test_chapter_parsing.py:135 | request "8" gives `c008`, not the earlier `c008.1` |
| ParsingTables.DecimalChapterEightOne | python_client/test_chapter_parsing.py:136 | request "8.1" gives `c008.1` |
| ParsingTables.DecimalChapter132 | python_client/test_chapter_parsing.py:137 | request "132" gives `c132`, not the earlier `c132.5` |
| ParsingTables.DecimalChapter132Five | python_client/test_chapter_parsing.py:138 | request "132.5" gives `c132.5` |
| ChapterMatching.AsNumber | python_client/haruneko_download_service.py:323-325 | a numeric request is its own number. A string parses by `float`; one that does not parse is looked up as text. |
| ChapterMatching.NumberIndex | python_client/haruneko_download_service.py:334-376 | the `number` field is compared on every chapter before any title pattern, and the first chapter with an equal field wins. Otherwise the first chapter with a matching title pattern wins. There is no pick exactly when neither matches. |
| ChapterMatching.TextIndex | python_client/haruneko_download_service.py:385-399 | an exact lower-case, stripped title anywhere in the list beats every substring match. Both passes return the first hit in list order. There is no pick exactly when no title contains the query. |
| ChapterMatching.Resolve | python_client/haruneko_download_service.py:321-381 | numeric requests match by field or title pattern, with no pick exactly when no chapter matches. Other requests match by text in the same way. Any pick is in the list. |
| ChapterMatching.MatchChapters | python_client/haruneko_download_service.py:318-383 | `matched` lists what each request found, in request order. `missing` is the in-order subsequence of requests that found nothing. Their lengths add up to the number of requests. |
| ChapterMatching.NumberFieldFirst | python_client/haruneko_download_service.py:337-346 | when any chapter has the requested `number`, the pick is a chapter with that `number` |
| ChapterMatching.NumberFieldIsExact | python_client/haruneko_download_service.py:342 | the number comparison is exact: 8 matches 8.0 but not 8.1 |
| ChapterMatching.NumeralRequest | python_client/haruneko_download_service.py:323-324 | the string `str(n)` is matched exactly like the number `n` |
| ChapterMatching.LabelAt | python_client/haruneko_download_service.py:357 | a label match starts with `ch` or `ep` in either case and captures a number that is never negative |
| ChapterMatching.LabelNumber | python_client/haruneko_download_service.py:357 | the search finds a label exactly when one starts somewhere in the title, and then gives the leftmost one |
| ChapterMatching.SeparatedNumber | python_client/haruneko_download_service.py:358 | a match starts with a digit and its number is never negative |
| ChapterMatching.SeparatedNumberOf | python_client/haruneko_download_service.py:358 | a title `<digits><spaces>-…` or `<digits><spaces>:…` reads as those digits |
| ChapterMatching.BareNumber | python_client/haruneko_download_service.py:359 | a match starts with a digit, and a title the third pattern reads is one the second pattern rejects |
| ChapterMatching.TitleMatches | python_client/haruneko_download_service.py:356-373 | no title pattern ever matches a negative request, so `-1` can only be found through the `number` field |
| ChapterMatching.LabelNumberSkips | python_client/haruneko_download_service.py:357-363 | text without a `c` or `e` cannot start a label match and is skipped by the search |
| ChapterMatching.LabelAtWhole | python_client/haruneko_download_service.py:357 | `Ch.` followed by digits captures them |
| ChapterMatching.LabelAfterPrefix | python_client/haruneko_download_service.py:356-373 | a title `<prefix>Ch.<n><rest>` matches exactly the request `n` |
| ChapterMatching.VolumeNeverMatches | python_client/haruneko_download_service.py:356-373 | in `Vol.<v> Ch.<n>…` only `n` matches, and the volume number is never used |
| ChapterMatching.BareNumberMatches | python_client/haruneko_download_service.py:359 | a title that is a number and trailing spaces matches that number |
| ChapterMatching.SameTextHasText | python_client/haruneko_download_service.py:387-397 | an exact title match also passes the substring test |
| ChapterMatching.BlankRequestFindsFirst | python_client/haruneko_download_service.py:394-397 | a blank text request that no title equals finds the first chapter, because the empty query is in every title |
| Responses.CollectorItems | python_client/collect_chapter_patterns.py:129-141 | a bare list is returned as it is, and an object whose `success` is true gives its `data`. Anything else, a raised request included, gives `[]`. |
| Responses.ServiceChapters | python_client/haruneko_download_service.py:444-469 | chapters come only from a returned object whose `success` is not false; a missing `success` counts as true |
| Responses.ServiceSearch | python_client/haruneko_download_service.py:422-423 | a search yields a list exactly when it returned an object; everything else raises |
| Responses.ServiceList | python_client/haruneko_manga_service.py:107-108 | the manga service uses the body itself: a bare list gives its items, a falsy scalar gives no results, and anything else raises |
| Responses.FalsyBody | python_client/haruneko_manga_service.py:140-142 | a `null`, `false`, `0` or `""` body is no results for the manga service and is read as nothing, or as an error, by every other reader |
| Responses.PageUrls | python_client/haruneko_manga_service.py:250-259 | a bare list is the URL list and an object gives its `pages`; any other body, and an object without `pages`, is a `ValueError` |
| Responses.PageUrlsShapes | python_client/haruneko_manga_service.py:253-259 | a bare list and an object carrying the same URLs as `pages` read alike; URLs only under `data` are rejected |
| Responses.EnvelopeRoundTrip | python_client/collect_chapter_patterns.py:133-134 | all three object readers return the `data` of a `{success: true, data}` envelope unchanged |
| Responses.ReadersDisagree | python_client/haruneko_download_service.py:456-466 | on an object without `success` only the download service reads the data, and on a bare list only the collector does |
| Responses.FailuresReadEmpty | python_client/collect_chapter_patterns.py:139-141 | a raised request reads as no items in every reader |
| Collector.ReadPage | python_client/collect_chapter_patterns.py:79-90 | a page feeds the loop exactly when it returned an object with `success` true and non-empty `data` |
| Collector.CollectFrom | python_client/collect_chapter_patterns.py:63-116 | the result never exceeds `limit` (unless nothing was added) and extends what was already fetched |
| Collector.GetAllMangaLoop | python_client/collect_chapter_patterns.py:63-116 | the `while True` loop with four exits computes the recursive model and never returns more than `limit` items |
| Collector.FirstPageReachesLimit | python_client/collect_chapter_patterns.py:92-99 | a first page reaching the limit is cut to its first `limit` items |
| Collector.NoMetaStopsAfterFirstPage | python_client/collect_chapter_patterns.py:102-107 | without `meta.totalPages` the loop stops after page 1 |
| Collector.PagesInOrder | python_client/collect_chapter_patterns.py:92-109 | pages are appended in page order |
| Collector.Samples | python_client/collect_chapter_patterns.py:206-224 | the first `chapters_per_manga` chapters, indexed from 1, each with its id and title |
| Collector.CollectOne | python_client/collect_chapter_patterns.py:186-228 | an entry is made only for a manga with an id and at least one chapter |
| Collector.CollectFromMangaList | python_client/collect_chapter_patterns.py:168-237 | at most one entry per manga. Every entry has an id and chapters, and no entry has more than `chapters_per_manga` samples. |
| Collector.CollectedCount | python_client/collect_chapter_patterns.py:180-237 | the count is the number of manga with an id whose chapter list is non-empty |
| DownloadPaths.ReplaceRuns | python_client/haruneko_manga_service.py:281 | after replacing runs of disallowed characters, only `[A-Za-z0-9_.-]` is left |
| DownloadPaths.SanitizedTitle | python_client/haruneko_manga_service.py:281 | the folder title is non-empty, uses only `[A-Za-z0-9_.-]` and neither starts nor ends with `_` |
| DownloadPaths.SanitizedNameKept | python_client/haruneko_manga_service.py:281 | a title that already has the sanitised form is kept unchanged |
| DownloadPaths.SanitizedTitleIdempotent | python_client/haruneko_manga_service.py:281 | sanitising twice gives the same as once |
| DownloadPaths.DotDotTitleKept | python_client/haruneko_manga_service.py:281-290 | a manga titled `..` keeps that name, so its chapter folders are created in the parent of the download root |
| DownloadPaths.NothingAllowedIsManga | python_client/haruneko_manga_service.py:281 | a title with no allowed character other than `_` becomes "manga" |
| DownloadPaths.ChapterFolder | python_client/haruneko_manga_service.py:284-290 | the chapter folder starts with `chapter_` |
| DownloadPaths.ChapterFolderCases | python_client/haruneko_manga_service.py:284-288 | `chapter_unknown` exactly when the title has no digit; otherwise the suffix is digits |
| DownloadPaths.TargetDir | python_client/haruneko_manga_service.py:290 | two components under the root, the first a sanitised title |
| DownloadPaths.Extension | python_client/haruneko_manga_service.py:301 | the extension is a suffix starting with `.` and has no `/` |
| DownloadPaths.ExtensionOf | python_client/haruneko_manga_service.py:301 | `dir/stem.ext` has extension `.ext` |
| DownloadPaths.NoDotIsJpeg | python_client/haruneko_manga_service.py:301 | a URL path without a dot gets ".jpg" |
| DownloadPaths.BeforeQuery | python_client/haruneko_manga_service.py:301 | the longest prefix without `?`: it ends at the end of the URL or just before its first `?` |
| DownloadPaths.PageExtension | python_client/haruneko_manga_service.py:301 | the extension starts with a dot and carries neither a `/` nor a `?`; a URL without one gets `.jpg` |
| DownloadPaths.PageFileName | python_client/haruneko_manga_service.py:301-302 | a page file name starts with a digit and has no `/` or `?`, so every page file stays inside its chapter folder |
| DownloadPaths.PageFileNames | python_client/haruneko_manga_service.py:300-302 | one file name per URL, numbered from 1 |
| DownloadPaths.PageIndexReadBack | python_client/haruneko_manga_service.py:302 | the page index is read back from the file name's leading digits |
| DownloadPaths.PageNamesDistinct | python_client/haruneko_manga_service.py:300-302 | two pages of a chapter never share a file name |
| MangaService.FindTitle | python_client/haruneko_manga_service.py:140-159 | a crash exactly when the search body is neither a list nor a falsy scalar, which `if not results` reads as no results. A manga found is in the results and matches after normalisation. Absent means that no result matches. |
| MangaService.FalsySearchIsAbsent | python_client/haruneko_manga_service.py:140-142 | a `null`, `false`, `0` or `""` search body finds nothing rather than raising, so the title loop goes on |
| MangaService.FirstFound | python_client/haruneko_manga_service.py:351-356 | absent exactly when every title is absent; otherwise the outcome of the first title that is not absent |
| MangaService.TryTitles | python_client/haruneko_manga_service.py:344-356 | titles are tried in order, and the first one found (or the first crash) decides |
| MangaService.TitlesToTry | python_client/haruneko_manga_service.py:344-346 | the main title first, then the alternatives |
| MangaService.MainTitleFirst | python_client/haruneko_manga_service.py:344-356 | a main title that resolves wins over every alternative; otherwise the alternatives decide |
| MangaService.FetchChapters | python_client/haruneko_manga_service.py:162-183 | a failed request propagates and a bare list is the chapter list; an object body is rejected |
| MangaService.SavePages | python_client/haruneko_manga_service.py:300-316 | the page loop runs through exactly when every page's file exists already or its image is returned |
| MangaService.DownloadImages | python_client/haruneko_manga_service.py:262-318 | the returned folder is the target directory. It raises exactly when this is not a dry run and some page neither exists nor downloads. |
| MangaService.ExistingPagesAreKept | python_client/haruneko_manga_service.py:304-306 | when every page file exists, nothing is fetched and the folder is returned |
| MangaService.Available | python_client/haruneko_manga_service.py:388 | at most the first 20 chapter titles, in order |
| MangaService.FetchAndSave | python_client/haruneko_manga_service.py:403-429 | success exactly when there is no error. Success reports the target folder and a positive image count. Failures are "no images" or an exception. |
| MangaService.FromChapterList | python_client/haruneko_manga_service.py:374-429 | the report is coherent and never says the manga was not found |
| MangaService.FromResolved | python_client/haruneko_manga_service.py:386-429 | the report is coherent and never says the manga was not found |
| MangaService.DownloadChapter | python_client/haruneko_manga_service.py:342-438 | the report is coherent. Success exactly when there is no error, with images and a sanitised folder. Available chapters appear only for an unknown chapter. "No manga for any title" exactly when every title is absent. |
| MangaService.DryRunPreviews | python_client/haruneko_manga_service.py:292-296 | when every image download would succeed, a dry run reports exactly what the real run reports |
| MangaService.Validate | python_client/haruneko_manga_service.py:457-516 | success exactly when there is no error, and then nothing is missing. Missing numbers are requested ones, or all of them. A reported manga is the one the title resolves to. A title that does not resolve, or an exception, reports no manga and every requested number missing. |
| MangaService.ValidationIsPerNumber | python_client/haruneko_manga_service.py:484-507 | success exactly when every number resolves. Otherwise `missing_chapters` is the in-order subsequence of numbers that do not resolve. |
| MangaService.NumberRequest | python_client/haruneko_manga_service.py:487 | `str(n)` resolves exactly when some chapter has that title or has `n` as its first number |
| MangaService.StepWith | python_client/haruneko_manga_service.py:611-668 | one chapter of the batch: the outcome keeps its number, succeeds only with images, and fails as "not found" exactly when resolution failed |
| MangaService.ChapterStep | python_client/haruneko_manga_service.py:611-668 | the same for the chapter `resolve_chapter(chapters, str(n))` picks |
| MangaService.Verdict | python_client/haruneko_manga_service.py:670-680 | every requested chapter is counted once. Success exactly when some chapter succeeded (or none was requested). All succeeded means no error, some failed means a partial-success error with the failure count, none succeeded means the all-failed error. |
| MangaService.Tally | python_client/haruneko_manga_service.py:606-682 | each list's length equals its counter, and the counters add up to the number requested. Success exactly when some chapter succeeded (or none was requested). Partial failure and total failure carry their errors. |
| MangaService.FromChapterNumbers | python_client/haruneko_manga_service.py:595-682 | with the manga found, the report names it and has nothing missing. The total is the number requested, the counters match the lists, and a failure has no successes and an error. |
| MangaService.FromFoundManga | python_client/haruneko_manga_service.py:579-682 | the same guarantees with validation first, where missing chapters mean failure |
| MangaService.DownloadChapters | python_client/haruneko_manga_service.py:541-687 | the total is the number requested, and the counters match the lists. Any success makes the batch succeed. A failure has no successes and an error. Missing chapters mean failure. A manga title is reported exactly when a title resolved. |
| MangaService.OutcomesKeepNumbers | python_client/haruneko_manga_service.py:617-668 | every entry carries the number it was made for |
| MangaService.ReportedChaptersWereRequested | python_client/haruneko_manga_service.py:606-668 | every downloaded and failed entry names a requested number |
| MangaService.EmptyBatchSucceeds | python_client/haruneko_manga_service.py:670-672 | an empty request list succeeds without error |
| MangaService.ValidatedChaptersResolve | python_client/haruneko_manga_service.py:580-622 | after a successful validation no chapter fails as "not found" |
| MangaService.ResolvedNeverNotFound | python_client/haruneko_manga_service.py:613-622 | a number that resolves never fails as "not found" |
| DownloadService.HandleAsWritten | python_client/haruneko_download_service.py:518-532 | the handler as written: only an HTTP error without a response escapes |
| DownloadService.Handle | python_client/haruneko_download_service.py:518-532 | the corrected handler keeps the response's own status code and text |
| DownloadService.StatusCodeLost | python_client/haruneko_download_service.py:518-525 | for every 4xx or 5xx status, the handler as written reports `status_code: None` and the exception text. The corrected handler reports the code and the body. |
| DownloadService.ServerErrorExample | python_client/haruneko_download_service.py:518-525 | an HTTP 500 on `POST /downloads` loses its status code |
| DownloadService.HandlersAgreeElsewhere | python_client/haruneko_download_service.py:518-532 | the two handlers differ only on HTTP error statuses |
| DownloadService.Submit | python_client/haruneko_download_service.py:482-532 | accepted exactly when the post with the defaulted options returned. It escapes exactly when the HTTP error has no response. A 4xx or 5xx status is reported with the exception text and `status_code: None`. Any status code reported is the HTTP error's own. |
| DownloadService.SubmitCorrected | python_client/haruneko_download_service.py:482-532 | the same submission with the corrected handler: an HTTP error status is reported with its own code and the server's text |
| DownloadService.SubmissionsDiffer | python_client/haruneko_download_service.py:518-525 | the submission as written and the corrected one agree except on a raised HTTP status, and for a 4xx or 5xx only the corrected one keeps the code |
| DownloadService.FindMangaFrom | python_client/haruneko_download_service.py:239-290 | a manga found is one of the search results, and a non-empty result list always yields one |
| DownloadService.Ids | python_client/haruneko_download_service.py:206 | the ids of the matched chapters, one per chapter, in order |
| DownloadService.FromMatched | python_client/haruneko_download_service.py:193-237 | a validation run succeeds without a download. Otherwise the outcome is the submission's, and success means it was accepted. |
| DownloadService.FromChapters | python_client/haruneko_download_service.py:169-237 | `chapters_found` is what the requests matched, in order. Nothing is missing exactly when every request resolves, and success implies nothing missing. A request that is missing means no download and no success. |
| DownloadService.FromManga | python_client/haruneko_download_service.py:155-237 | the report names the manga. Success means no error, nothing missing and one chapter per request. An empty chapter list reports every request missing. A request that is missing means no download and no success. |
| DownloadService.DownloadMangaChapters | python_client/haruneko_download_service.py:98-237 | success has no error, nothing missing, a manga and one chapter per request. A download happens only without `validate_only`. An unknown manga reports every request missing. A request that is missing means no download and no success. |
| DownloadService.SubmittedJob | python_client/haruneko_download_service.py:199-237 | when everything matches, the job posted carries the matched ids in request order and the default options, and the report's success is the post's |
| DownloadService.ValidationOnly | python_client/haruneko_download_service.py:136-203 | a validation run never posts, and succeeds exactly when the manga, a chapter list and every chapter are found |
| DownloadService.EmptyRequestSubmitsEmptyJob | python_client/haruneko_download_service.py:169-214 | an empty request list is not rejected: it posts a job with no chapter ids |

## Left out

- Strings are ASCII for case: `lower()` folds only `A`–`Z`, and `\w` is `[A-Za-z0-9_]`. Whitespace is Python's `str.isspace` set.
- Digits are ASCII: `\d`, `str.isdigit`, `int()` and `float()` read only `0`–`9`. Python also reads other Unicode digits (full-width `１`, Arabic-Indic `٣`), and `isdigit` also accepts `²`, which `int` then rejects. None of that is modelled.
- ChapterResolution.RequestedInt: the source reads `第１２話` as 12, and for `1²` it has no number because `int` rejects `²`. The model reads no number from the first and 1 from the second.
- ChapterResolution.FirstNumber: `re.findall(r'\d+', …)` also takes non-ASCII digits, so a title whose first digit run holds one has a different first number in the source than in the model.
- ChapterResolution.ByFirstNumber: compares the ASCII first numbers of ChapterResolution.FirstNumber, with the same gap.
- DownloadPaths.ChapterFolder: `re.search(r'\d+', …)` also takes non-ASCII digits, so `第１２話` gives the folder `chapter_１２` in the source and `chapter_unknown` in the model.
- Floating point: chapter numbers and parsed requests are exact decimals. `float()`'s `nan`, `inf`, exponents and underscores are not modelled.
- Retry delays are whole seconds. The collector's fixed `time.sleep(0.3)` and `time.sleep(0.5)` and all printing are not modelled.
- Each remote call is one oracle value. The source may call the same endpoint twice (a title is searched again in validation, chapter lists are fetched twice); the model gives both calls the same answer.
- Percent-encoding of ids (`urllib.parse.quote`, `requests.utils.quote`) is inside the oracle.
- Disk: `mkdir`, `write_bytes` and `Path.resolve()` are not modelled; a folder is its two path components under the root, and existing files are an oracle `files(dir)`.
- Error messages are structured values (`Problem`, `ReportError`, `PostError`) rather than formatted strings, and `str(e)` is one constant.
- Records always carry `id` and `title`; the `KeyError` paths of `chosen_manga["id"]` and `ch["id"]` and the `"Unknown"` default title are not modelled. An empty dict, which Python treats as falsy, is not modelled either.
- Bodies that are `null`, `false`, `0` or `""` are `Falsy`; other numbers, strings and `true` are `Other`. A `data` value that is not a list is not modelled.
- Responses.ServiceList: an empty JSON object `{}` is falsy, so `if not results` in `resolve_manga_id` and `if not chapters` in the chapter fetches read it as nothing found. The model cannot tell `{}` from an object that holds none of the keys it reads, and reads both as a crash, which is right for a non-empty object.
- DownloadService.DownloadMangaChapters: the success branch reads `response.data.id` only to print it; a response that is not a dict would raise there, and the model does not.
- Regular expressions are written as functions for the few patterns used; the greedy capture of `\d+(?:\.\d+)?` is the only match those patterns allow.
- The `main()` functions, `save_results` (JSON file output) and job polling are outside the model.
- The demo and harness scripts (discover_and_download.py, simple_example.py, test_simple.py, test_client.py, test_berserk.py, debug_chapters.py, test_all_manga.py) are not part of this model.

## Findings

| source | as written | input that shows it | evidently intended | confidence | as-written member | corrected member |
|---|---|---|---|---|---|---|
| python_client/haruneko_download_service.py:518-525 | `e.response.text if e.response else str(e)` and `e.response.status_code if e.response else None` test the response's truth value. That is `response.ok`, false for every status `raise_for_status` raises on. | `POST /downloads` answers HTTP 500: the result has `status_code: None` and the exception text in place of the server's error body | `if e.response is not None`, as the retry wrapper at line 68 writes it: keep the status code and the response text | not executed | DownloadService.HandleAsWritten (used by DownloadService.Submit; StatusCodeLost, ServerErrorExample) | DownloadService.Handle (used by DownloadService.SubmitCorrected; SubmissionsDiffer) |
