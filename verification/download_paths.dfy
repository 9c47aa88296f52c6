/** Where the manga service's `download_images` puts a chapter: the folder
    `<root>/<sanitised title>/chapter_<number>` and one file per page image named
    by its 1-based position and the image URL's extension. */
module DownloadPaths {
  import opened Wrappers
  import opened Text
  import opened Decimals

  /** The characters `[A-Za-z0-9_\-\.]` a folder title may keep. */
  predicate Allowed(c: char) {
    IsLetter(c) || IsDigit(c) || c == '_' || c == '-' || c == '.'
  }

  predicate AllAllowed(s: string) {
    forall i :: 0 <= i < |s| ==> Allowed(s[i])
  }

  /** `s` without its leading characters that are not allowed. */
  function SkipDisallowed(s: string): (r: string)
    ensures |r| <= |s| && r == s[|s| - |r|..]
    ensures |r| > 0 ==> Allowed(r[0])
  {
    if |s| > 0 && !Allowed(s[0]) then SkipDisallowed(s[1..]) else s
  }

  /** `re.sub(r"[^A-Za-z0-9_\-\.]+", "_", s)`: every maximal run of
      characters that are not allowed becomes one underscore. */
  function ReplaceRuns(s: string): (r: string)
    ensures AllAllowed(r)
    ensures |r| <= |s|
    decreases |s|
  {
    if |s| == 0 then []
    else if Allowed(s[0]) then [s[0]] + ReplaceRuns(s[1..])
    else ['_'] + ReplaceRuns(SkipDisallowed(s[1..]))
  }

  /** `s.lstrip("_")`. */
  function TrimLeft(s: string): (r: string)
    ensures |r| <= |s| && r == s[|s| - |r|..]
    ensures |r| > 0 ==> r[0] != '_'
    ensures AllAllowed(s) ==> AllAllowed(r)
  {
    if |s| > 0 && s[0] == '_' then TrimLeft(s[1..]) else s
  }

  /** `s.rstrip("_")`. */
  function TrimRight(s: string): (r: string)
    ensures |r| <= |s| && r == s[..|r|]
    ensures |r| > 0 ==> r[|r| - 1] != '_'
    ensures AllAllowed(s) ==> AllAllowed(r)
  {
    if |s| > 0 && s[|s| - 1] == '_' then TrimRight(s[..|s| - 1]) else s
  }

  /** `s.strip("_")`. */
  function TrimUnderscores(s: string): (r: string)
    ensures |r| > 0 ==> r[0] != '_' && r[|r| - 1] != '_'
    ensures AllAllowed(s) ==> AllAllowed(r)
  {
    var l := TrimLeft(s);
    var r := TrimRight(l);
    if |r| > 0 then
      assert r[0] == l[0];
      r
    else r
  }

  /** A folder title: letters, digits and `_-.`, not starting or ending
      with an underscore, and never empty. Dots are allowed, so `..` is
      such a name (see `DotDotTitleKept`). */
  predicate SanitizedName(s: string) {
    |s| > 0 && AllAllowed(s) && s[0] != '_' && s[|s| - 1] != '_'
  }

  /** The manga folder name: sanitised title, or "manga" when nothing is
      left of it. */
  function SanitizedTitle(title: string): (r: string)
    ensures SanitizedName(r)
  {
    var t := TrimUnderscores(ReplaceRuns(title));
    if |t| == 0 then FallbackIsSanitized(); "manga" else t
  }

  lemma FallbackIsSanitized()
    ensures SanitizedName("manga")
  {
  }

  lemma {:induction false} ReplaceRunsKeeps(s: string)
    requires AllAllowed(s)
    ensures ReplaceRuns(s) == s
    decreases |s|
  {
    if |s| > 0 {
      ReplaceRunsKeeps(s[1..]);
      assert [s[0]] + s[1..] == s;
    }
  }

  lemma TrimKeeps(s: string)
    requires |s| > 0 && s[0] != '_' && s[|s| - 1] != '_'
    ensures TrimUnderscores(s) == s
  {
  }

  /** A title that is already a sanitised name is kept as it is. */
  lemma SanitizedNameKept(title: string)
    requires SanitizedName(title)
    ensures SanitizedTitle(title) == title
  {
    ReplaceRunsKeeps(title);
    TrimKeeps(title);
  }

  /** The title `..` passes sanitising unchanged, so its chapter folders
      land in the parent of the download root. */
  lemma DotDotTitleKept(chapterTitle: string)
    ensures SanitizedTitle("..") == ".."
    ensures TargetDir("..", chapterTitle)[0] == ".."
  {
    SanitizedNameKept("..");
  }

  /** Sanitising twice changes nothing more. */
  lemma SanitizedTitleIdempotent(title: string)
    ensures SanitizedTitle(SanitizedTitle(title)) == SanitizedTitle(title)
  {
    SanitizedNameKept(SanitizedTitle(title));
  }

  /** Titles made only of characters that are not allowed (and of
      underscores) fall back to "manga". */
  lemma {:induction false} NothingAllowedIsManga(title: string)
    requires forall i :: 0 <= i < |title| ==> !Allowed(title[i]) || title[i] == '_'
    ensures SanitizedTitle(title) == "manga"
  {
    UnderscoresOnly(title);
    AllUnderscoresTrim(ReplaceRuns(title));
  }

  lemma {:induction false} UnderscoresOnly(s: string)
    requires forall i :: 0 <= i < |s| ==> !Allowed(s[i]) || s[i] == '_'
    ensures forall i :: 0 <= i < |ReplaceRuns(s)| ==> ReplaceRuns(s)[i] == '_'
    decreases |s|
  {
    if |s| > 0 {
      if Allowed(s[0]) {
        UnderscoresOnly(s[1..]);
      } else {
        var t := SkipDisallowed(s[1..]);
        assert forall i :: 0 <= i < |t| ==> t[i] == s[1..][|s[1..]| - |t| + i];
        UnderscoresOnly(t);
      }
    }
  }

  lemma {:induction false} AllUnderscoresTrim(s: string)
    requires forall i :: 0 <= i < |s| ==> s[i] == '_'
    ensures TrimUnderscores(s) == []
  {
    assert |TrimLeft(s)| == 0;
  }

  /** The chapter folder: `chapter_` and the first run of digits of the
      chapter title, or `chapter_unknown` when it has none. */
  function ChapterFolder(chapterTitle: string): (r: string)
    ensures |r| > 8 && r[..8] == "chapter_"
  {
    match FirstDigitRun(chapterTitle)
    case Some(d) => "chapter_" + d
    case None => "chapter_unknown"
  }

  /** The folder of a chapter, as path components under the download root. */
  function TargetDir(mangaTitle: string, chapterTitle: string): (r: seq<string>)
    ensures |r| == 2 && SanitizedName(r[0])
  {
    [SanitizedTitle(mangaTitle), ChapterFolder(chapterTitle)]
  }

  /** A chapter title with no digit goes to `chapter_unknown`, one with
      digits to the folder named after the first of them. */
  lemma ChapterFolderCases(chapterTitle: string)
    ensures (forall i :: 0 <= i < |chapterTitle| ==> !IsDigit(chapterTitle[i])) <==>
              ChapterFolder(chapterTitle) == "chapter_unknown"
    ensures AllDigits(ChapterFolder(chapterTitle)[8..]) <==>
              exists i :: 0 <= i < |chapterTitle| && IsDigit(chapterTitle[i])
  {
    var r := ChapterFolder(chapterTitle);
    if FirstDigitRun(chapterTitle).None? {
      assert r[8..] == "unknown";
      assert !IsDigit(r[8..][0]);
    } else {
      var d := FirstDigitRun(chapterTitle).value;
      assert r[8..] == d;
      assert IsDigit(r[8]);
    }
  }

  // ---------------------------------------------------------------------
  // Page file names.
  // ---------------------------------------------------------------------

  /** `url.split("?")[0]`: everything before the first question mark. */
  function BeforeQuery(url: string): (r: string)
    ensures |r| <= |url| && r == url[..|r|]
    ensures forall i :: 0 <= i < |r| ==> r[i] != '?'
    // it stops only at the end or at the first question mark
    ensures |r| == |url| || url[|r|] == '?'
  {
    if |url| == 0 || url[0] == '?' then [] else [url[0]] + BeforeQuery(url[1..])
  }

  /** The position of the last `c` in `s`, if any. */
  function LastIndex(s: string, c: char): (r: Option<nat>)
    ensures r.Some? ==> r.value < |s| && s[r.value] == c
    ensures r.Some? ==> forall i :: r.value < i < |s| ==> s[i] != c
    ensures r.None? <==> forall i :: 0 <= i < |s| ==> s[i] != c
  {
    if |s| == 0 then None
    else if s[|s| - 1] == c then Some(|s| - 1)
    else LastIndex(s[..|s| - 1], c)
  }

  /** `os.path.splitext(path)[1]` on a POSIX path: from the last dot of the
      last component, unless that component holds only dots before it. */
  function Extension(path: string): (r: string)
    ensures |r| <= |path| && r == path[|path| - |r|..]
    ensures |r| > 0 ==> r[0] == '.'
    ensures forall i :: 0 <= i < |r| ==> r[i] != '/'
  {
    match LastIndex(path, '.')
    case None => []
    case Some(dot) =>
      var start := match LastIndex(path, '/') case Some(k) => k + 1 case None => 0;
      if start <= dot && exists i :: start <= i < dot && path[i] != '.' then path[dot..] else []
  }

  lemma LastIndexIs(s: string, c: char, k: nat)
    requires k < |s| && s[k] == c
    requires forall i :: k < i < |s| ==> s[i] != c
    ensures LastIndex(s, c) == Some(k)
  {
  }

  /** A file name with a dot and no slash after it: the extension is the
      dot and what follows, provided the name does not start with a dot. */
  lemma ExtensionOf(dir: string, stem: string, ext: string)
    requires |stem| > 0 && stem[0] != '.'
    requires forall i :: 0 <= i < |stem| ==> stem[i] != '/'
    requires forall i :: 0 <= i < |ext| ==> ext[i] != '/' && ext[i] != '.'
    ensures Extension((dir + "/") + (stem + ("." + ext))) == "." + ext
  {
    var p := (dir + "/") + (stem + ("." + ext));
    var dot := |dir| + 1 + |stem|;
    assert p[dot..] == "." + ext;
    LastIndexIs(p, '.', dot);
    LastIndexIs(p, '/', |dir|);
    assert p[|dir| + 1] == stem[0];
  }

  /** A URL whose last path component has no dot gets ".jpg". */
  lemma NoDotIsJpeg(url: string)
    requires forall i :: 0 <= i < |BeforeQuery(url)| ==> BeforeQuery(url)[i] != '.'
    ensures PageExtension(url) == ".jpg"
  {
  }

  /** The extension a page file gets: the URL's, or ".jpg". */
  function PageExtension(url: string): (r: string)
    ensures |r| > 0 && r[0] == '.'
    // neither a query nor a directory leaks into the extension
    ensures forall i :: 0 <= i < |r| ==> r[i] != '/' && r[i] != '?'
  {
    var path := BeforeQuery(url);
    var ext := Extension(path);
    if |ext| == 0 then ".jpg"
    else
      assert forall i :: 0 <= i < |ext| ==> ext[i] == path[|path| - |ext| + i];
      ext
  }

  /** The file of the `idx`-th page (from 1): `f"{idx:03d}{ext}"`. */
  function PageFileName(idx: nat, url: string): (r: string)
    ensures |r| > 3 && IsDigit(r[0])
    // the file stays inside the chapter folder
    ensures forall i :: 0 <= i < |r| ==> r[i] != '/' && r[i] != '?'
  {
    ZeroPad(idx, 3) + PageExtension(url)
  }

  /** The page files of a chapter, one per image URL, numbered from 1. */
  function PageFileNames(urls: seq<string>): (r: seq<string>)
    ensures |r| == |urls|
    ensures forall i :: 0 <= i < |r| ==> r[i] == PageFileName(i + 1, urls[i])
  {
    seq(|urls|, i requires 0 <= i < |urls| => PageFileName(i + 1, urls[i]))
  }

  /** The index can be read back from the file name: its leading digits. */
  lemma PageIndexReadBack(idx: nat, url: string)
    ensures var name := PageFileName(idx, url);
      DigitRun(name) == |ZeroPad(idx, 3)| && DigitsValue(name[..DigitRun(name)]) == idx
  {
    var z := ZeroPad(idx, 3);
    var ext := PageExtension(url);
    DigitRunOf(z, ext);
    assert (z + ext)[..|z|] == z;
    ZeroPadValue(idx, 3);
  }

  /** Different pages never share a file name, whatever their URLs. */
  lemma PageNamesDistinct(urls: seq<string>, i: nat, j: nat)
    requires i < |urls| && j < |urls| && i != j
    ensures PageFileNames(urls)[i] != PageFileNames(urls)[j]
  {
    var a := PageFileNames(urls)[i];
    var b := PageFileNames(urls)[j];
    PageIndexReadBack(i + 1, urls[i]);
    PageIndexReadBack(j + 1, urls[j]);
    assert DigitsValue(a[..DigitRun(a)]) == i + 1;
    assert DigitsValue(b[..DigitRun(b)]) == j + 1;
  }
}
