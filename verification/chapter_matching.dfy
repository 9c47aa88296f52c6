/** The download service's chapter matcher (`_match_chapters` and
    `_find_chapter_by_string`). A request that reads as a number is looked up
    in the chapters' `number` field over the whole list first, and only then
    in their titles through three patterns; a request that does not read as a
    number is looked up by title text. */
module ChapterMatching {
  import opened Wrappers
  import opened Text
  import opened Decimals
  import opened Records
  import opened Search

  /** A requested chapter as callers pass it: a number, or a string. */
  datatype Request = Number(value: real) | Label(text: string)

  /** `float(requested_num)`: numbers as they are, strings through `float`. */
  function AsNumber(q: Request): (r: Option<real>)
    ensures q.Number? ==> r == Some(q.value)
  {
    match q
    case Number(v) => Some(v)
    case Label(s) => ParseFloat(s)
  }

  // ---------------------------------------------------------------------
  // The three title patterns, each searched with re.IGNORECASE.
  // ---------------------------------------------------------------------

  /** `s` starts with `word` (written in lower case) when letters are
      compared without regard to case. */
  predicate StartsFolded(s: string, word: string) {
    |word| <= |s| && forall i :: 0 <= i < |word| ==> LowerChar(s[i]) == word[i]
  }

  /** `\s*(\d+(?:\.\d+)?)` at the start of `s`: the captured number. The
      whitespace run is greedy, and a digit is never whitespace, so giving
      back whitespace cannot produce another match. */
  function SpacedNumber(s: string): (r: Option<real>)
    ensures r.Some? ==> r.value >= 0.0
  {
    match LeadingDecimal(StripLeft(s))
    case None => None
    case Some(c) => Some(c.value)
  }

  /** `\.?\s*(\d+(?:\.\d+)?)` at the start of `s`. The dot is taken when
      present; without it the number would have to start at the dot, which
      never matches. */
  function DottedNumber(s: string): (r: Option<real>)
    ensures r.Some? ==> r.value >= 0.0
  {
    if |s| > 0 && s[0] == '.' && SpacedNumber(s[1..]).Some? then SpacedNumber(s[1..])
    else SpacedNumber(s)
  }

  /** `(?:Chapter|Ch\.?|Episode|Ep\.?)\s*(\d+(?:\.\d+)?)` matched at the
      start of `s`. The alternatives are tried in order: `Chapter` before
      `Ch`, `Episode` before `Ep`, the first that completes wins. */
  function LabelAt(s: string): (r: Option<real>)
    ensures r.Some? ==> |s| >= 2 && LabelStart(s[0], s[1])
    ensures r.Some? ==> r.value >= 0.0
  {
    if |s| < 2 then None
    else if LowerChar(s[0]) == 'c' && LowerChar(s[1]) == 'h' then
      var chapter := if StartsFolded(s[2..], "apter") then SpacedNumber(s[7..]) else None;
      if chapter.Some? then chapter else DottedNumber(s[2..])
    else if LowerChar(s[0]) == 'e' && LowerChar(s[1]) == 'p' then
      var episode := if StartsFolded(s[2..], "isode") then SpacedNumber(s[7..]) else None;
      if episode.Some? then episode else DottedNumber(s[2..])
    else None
  }

  /** `Ch` or `Ep` in either case: the two letters every label starts with. */
  predicate LabelStart(a: char, b: char) {
    || (LowerChar(a) == 'c' && LowerChar(b) == 'h')
    || (LowerChar(a) == 'e' && LowerChar(b) == 'p')
  }

  /** The label pattern matched at position `k` of `title`. */
  function LabelFrom(title: string, k: nat): Option<real>
    requires k <= |title|
  {
    LabelAt(title[k..])
  }

  /** No label starts in `title` before position `k`. */
  predicate LeftmostLabel(title: string, k: nat)
    requires k <= |title|
  {
    forall j :: 0 <= j < k ==> LabelFrom(title, j).None?
  }

  /** The first pattern, searched: the match at the leftmost position. */
  function LabelNumber(title: string): (r: Option<real>)
    ensures r.None? <==> LeftmostLabel(title, |title|)
    ensures r.Some? ==> exists k :: 0 <= k < |title| && LabelFrom(title, k) == r && LeftmostLabel(title, k)
    decreases |title|
  {
    if |title| == 0 then None
    else if LabelAt(title).Some? then
      assert LabelFrom(title, 0) == LabelAt(title) by {
        assert title[0..] == title;
      }
      LabelAt(title)
    else
      var r := LabelNumber(title[1..]);
      LabelSearchStep(title, r);
      r
  }

  /** The search moves past a position where no label starts. */
  lemma LabelSearchStep(title: string, r: Option<real>)
    requires |title| > 0 && LabelAt(title).None?
    requires r.None? <==> LeftmostLabel(title[1..], |title| - 1)
    requires r.Some? ==> exists k :: 0 <= k < |title| - 1 && LabelFrom(title[1..], k) == r && LeftmostLabel(title[1..], k)
    ensures r.None? <==> LeftmostLabel(title, |title|)
    ensures r.Some? ==> exists k :: 0 <= k < |title| && LabelFrom(title, k) == r && LeftmostLabel(title, k)
  {
    assert LabelFrom(title, 0).None? by {
      assert title[0..] == title;
    }
    forall k | 0 <= k < |title| - 1
      ensures LabelFrom(title[1..], k) == LabelFrom(title, k + 1)
    {
      assert title[1..][k..] == title[k + 1..];
    }
    assert LeftmostLabel(title[1..], |title| - 1) <==> LeftmostLabel(title, |title|) by {
      if LeftmostLabel(title[1..], |title| - 1) {
        forall j | 0 <= j < |title| ensures LabelFrom(title, j).None? {
          if j > 0 {
            assert LabelFrom(title[1..], j - 1).None?;
          }
        }
      }
    }
    if r.Some? {
      var k :| 0 <= k < |title| - 1 && LabelFrom(title[1..], k) == r && LeftmostLabel(title[1..], k);
      assert LabelFrom(title, k + 1) == r;
      forall j | 0 <= j < k + 1 ensures LabelFrom(title, j).None? {
        if j > 0 {
          assert LabelFrom(title[1..], j - 1).None?;
        }
      }
    }
  }

  /** The second pattern, `^(\d+(?:\.\d+)?)\s*[-:]`. A shorter capture would
      leave a digit or a dot where the separator must stand. */
  function SeparatedNumber(title: string): (r: Option<real>)
    ensures r.Some? ==> |title| > 0 && IsDigit(title[0])
    ensures r.Some? ==> r.value >= 0.0
  {
    match LeadingDecimal(title)
    case None => None
    case Some(c) =>
      var rest := StripLeft(title[c.length..]);
      if |rest| > 0 && (rest[0] == '-' || rest[0] == ':') then Some(c.value) else None
  }

  /** The third pattern, `^(\d+(?:\.\d+)?)\s*$`: a number followed by
      nothing but whitespace. (`$` may also match before a final newline,
      which `\s*` has already consumed.) */
  function BareNumber(title: string): (r: Option<real>)
    ensures r.Some? ==> |title| > 0 && IsDigit(title[0])
    ensures r.Some? ==> r.value >= 0.0
    // a bare number has no separator after it
    ensures r.Some? ==> SeparatedNumber(title).None?
  {
    match LeadingDecimal(title)
    case None => None
    case Some(c) =>
      if AllSpace(title[c.length..]) then
        assert |StripLeft(title[c.length..])| == 0;
        Some(c.value)
      else None
  }

  /** Some pattern matches the title and its number equals `x`. A pattern
      that matches with another number does not stop the later ones. */
  predicate TitleMatches(title: string, x: real)
    // every pattern captures digits, so a negative request never matches
    ensures TitleMatches(title, x) ==> x >= 0.0
  {
    LabelNumber(title) == Some(x) || SeparatedNumber(title) == Some(x) || BareNumber(title) == Some(x)
  }

  // ---------------------------------------------------------------------
  // Lookup of one request.
  // ---------------------------------------------------------------------

  function NumberFieldTest(x: real): Chapter -> bool {
    (c: Chapter) => c.number == Some(x)
  }

  function TitleTest(x: real): Chapter -> bool {
    (c: Chapter) => TitleMatches(c.title, x)
  }

  /** The position chosen for a numeric request. */
  function NumberIndex(chapters: seq<Chapter>, x: real): (r: Option<nat>)
    ensures r.Some? ==> r.value < |chapters|
    // the number field is compared on every chapter before any title
    ensures (exists j :: 0 <= j < |chapters| && chapters[j].number == Some(x)) ==>
              r.Some? && chapters[r.value].number == Some(x)
              && forall j :: 0 <= j < r.value ==> chapters[j].number != Some(x)
    ensures (forall j :: 0 <= j < |chapters| ==> chapters[j].number != Some(x)) ==>
              && (r.Some? ==> TitleMatches(chapters[r.value].title, x)
                              && forall j :: 0 <= j < r.value ==> !TitleMatches(chapters[j].title, x))
              && (r.None? <==> forall j :: 0 <= j < |chapters| ==> !TitleMatches(chapters[j].title, x))
  {
    match FirstIndex(chapters, NumberFieldTest(x))
    case Some(i) => Some(i)
    case None => FirstIndex(chapters, TitleTest(x))
  }

  /** `title.lower().strip() == query.lower().strip()`. */
  predicate SameText(query: string, title: string) {
    Strip(Lower(title)) == Strip(Lower(query))
  }

  /** `query.lower().strip() in title.lower()`; the title is not stripped. */
  predicate HasText(query: string, title: string) {
    Contains(Lower(title), Strip(Lower(query)))
  }

  function SameTextTest(query: string): Chapter -> bool {
    (c: Chapter) => SameText(query, c.title)
  }

  function HasTextTest(query: string): Chapter -> bool {
    (c: Chapter) => HasText(query, c.title)
  }

  /** The position `_find_chapter_by_string` picks. */
  function TextIndex(chapters: seq<Chapter>, query: string): (r: Option<nat>)
    ensures r.Some? ==> r.value < |chapters|
    // an exact title anywhere in the list beats every substring match
    ensures (exists j :: 0 <= j < |chapters| && SameText(query, chapters[j].title)) ==>
              r.Some? && SameText(query, chapters[r.value].title)
              && forall j :: 0 <= j < r.value ==> !SameText(query, chapters[j].title)
    ensures (forall j :: 0 <= j < |chapters| ==> !SameText(query, chapters[j].title)) ==>
              && (r.Some? ==> HasText(query, chapters[r.value].title)
                              && forall j :: 0 <= j < r.value ==> !HasText(query, chapters[j].title))
              && (r.None? <==> forall j :: 0 <= j < |chapters| ==> !HasText(query, chapters[j].title))
  {
    match FirstIndex(chapters, SameTextTest(query))
    case Some(i) => Some(i)
    case None => FirstIndex(chapters, HasTextTest(query))
  }

  /** A stripped string occurs in the string it was stripped from. */
  lemma ContainsStripped(s: string)
    ensures Contains(s, Strip(s))
  {
    var pre, post := StripParts(s);
    MiddleSlice(pre, Strip(s), post);
    ContainsAt(s, Strip(s), |pre|);
  }

  /** An exact title is also a substring match. */
  lemma SameTextHasText(query: string, title: string)
    requires SameText(query, title)
    ensures HasText(query, title)
  {
    ContainsStripped(Lower(title));
  }

  /** A chapter matches a numeric request by its number field or by a title
      pattern. */
  predicate NumberMatches(c: Chapter, x: real) {
    c.number == Some(x) || TitleMatches(c.title, x)
  }

  /** One iteration of `_match_chapters`: the chapter found for a request. */
  function Resolve(chapters: seq<Chapter>, q: Request): (r: Option<Chapter>)
    ensures r.Some? ==> r.value in chapters
    ensures AsNumber(q).Some? ==>
              && (r.Some? ==> NumberMatches(r.value, AsNumber(q).value))
              && (r.None? <==> forall j :: 0 <= j < |chapters| ==> !NumberMatches(chapters[j], AsNumber(q).value))
    ensures AsNumber(q).None? ==>
              && q.Label?
              && (r.Some? ==> HasText(q.text, r.value.title))
              && (r.None? <==> forall j :: 0 <= j < |chapters| ==> !HasText(q.text, chapters[j].title))
  {
    match AsNumber(q)
    case Some(x) => ResolveNumber(chapters, x)
    case None => ResolveText(chapters, q.text)
  }

  /** The numeric branch: by `number` field, then by title pattern. */
  function ResolveNumber(chapters: seq<Chapter>, x: real): (r: Option<Chapter>)
    ensures r.Some? ==> r.value in chapters && NumberMatches(r.value, x)
    ensures r.None? <==> forall j :: 0 <= j < |chapters| ==> !NumberMatches(chapters[j], x)
  {
    match NumberIndex(chapters, x)
    case Some(i) => Some(chapters[i])
    case None => None
  }

  /** The text branch: an exact title, then a substring. */
  function ResolveText(chapters: seq<Chapter>, query: string): (r: Option<Chapter>)
    ensures r.Some? ==> r.value in chapters && HasText(query, r.value.title)
    ensures r.None? <==> forall j :: 0 <= j < |chapters| ==> !HasText(query, chapters[j].title)
  {
    match TextIndex(chapters, query)
    case Some(i) =>
      assert HasText(query, chapters[i].title) by {
        if SameText(query, chapters[i].title) {
          SameTextHasText(query, chapters[i].title);
        }
      }
      Some(chapters[i])
    case None => None
  }

  function Resolver(chapters: seq<Chapter>): Request -> Option<Chapter> {
    (q: Request) => Resolve(chapters, q)
  }

  // ---------------------------------------------------------------------
  // The batch.
  // ---------------------------------------------------------------------

  /** `_match_chapters`: the chapters found, in request order, and the
      requests nothing was found for, in request order. */
  method MatchChapters(chapters: seq<Chapter>, requests: seq<Request>)
    returns (matched: seq<Chapter>, missing: seq<Request>)
    ensures matched == Hits(requests, Resolver(chapters))
    ensures missing == Filter(requests, Misses(Resolver(chapters)))
    ensures |matched| + |missing| == |requests|
    ensures forall k :: 0 <= k < |matched| ==> matched[k] in chapters
  {
    var f := Resolver(chapters);
    matched, missing := LookUpAll(requests, f);
    forall k | 0 <= k < |matched| ensures matched[k] in chapters {
      HitsFound(requests, f, k);
      var j :| 0 <= j < |requests| && f(requests[j]) == Some(matched[k]);
      assert Resolve(chapters, requests[j]) == Some(matched[k]);
    }
  }

  // ---------------------------------------------------------------------
  // Properties.
  // ---------------------------------------------------------------------

  /** A chapter whose number field equals the request wins over every
      chapter whose title matches, wherever the two stand in the list. */
  lemma NumberFieldFirst(chapters: seq<Chapter>, x: real, k: nat)
    requires k < |chapters| && chapters[k].number == Some(x)
    ensures Resolve(chapters, Number(x)).Some?
    ensures Resolve(chapters, Number(x)).value.number == Some(x)
  {
  }

  /** The number field is compared for equality: 8 finds a chapter numbered
      8.0, and a chapter numbered 8.1 is not found by it. */
  lemma NumberFieldIsExact(id: string, title: string)
    requires forall x: real :: !TitleMatches(title, x)
    ensures Resolve([Chapter(id, title, Some(8.0))], Number(8.0)) == Some(Chapter(id, title, Some(8.0)))
    ensures Resolve([Chapter(id, title, Some(8.1))], Number(8.0)) == None
  {
    var c := Chapter(id, title, Some(8.1));
    assert !NumberMatches(c, 8.0);
  }

  /** The string "n" is looked up exactly like the number n. */
  lemma NumeralRequest(chapters: seq<Chapter>, n: nat)
    ensures Resolve(chapters, Label(NatToString(n))) == Resolve(chapters, Number(n as real))
  {
    ParseFloatOfNat(n);
  }

  /** No letter of `pre` can begin a label. */
  predicate NoLabelStart(pre: string) {
    forall i :: 0 <= i < |pre| ==> LowerChar(pre[i]) != 'c' && LowerChar(pre[i]) != 'e'
  }

  lemma {:induction false} LabelNumberSkips(pre: string, s: string)
    requires NoLabelStart(pre)
    ensures LabelNumber(pre + s) == LabelNumber(s)
    decreases |pre|
  {
    if |pre| > 0 {
      var t := pre + s;
      assert t[0] == pre[0];
      assert t[1..] == pre[1..] + s;
      LabelNumberSkips(pre[1..], s);
    } else {
      assert pre + s == s;
    }
  }

  /** A whole number at the start, with nothing continuing it. */
  lemma SpacedWhole(d: string, tail: string)
    requires |d| > 0 && AllDigits(d)
    requires |tail| == 0 || !IsDigit(tail[0])
    requires !StartsWithFraction(tail)
    ensures SpacedNumber(d + tail) == Some(DigitsValue(d) as real)
  {
    assert (d + tail)[0] == d[0];
    StripLeftUnchanged(d + tail);
    LeadingWhole(d, tail);
  }

  /** `Ch.` and a number: the `Chapter` alternative fails at the dot and
      the `Ch\.?` alternative reads the number. */
  lemma LabelAtChDot(s: string, v: real)
    requires |s| >= 3 && s[0] == 'C' && s[1] == 'h' && s[2] == '.'
    requires SpacedNumber(s[3..]) == Some(v)
    ensures LabelAt(s) == Some(v)
  {
    assert LowerChar(s[0]) == 'c' && LowerChar(s[1]) == 'h';
    assert !StartsFolded(s[2..], "apter") by {
      assert LowerChar(s[2..][0]) != "apter"[0];
    }
    assert s[2..][1..] == s[3..];
  }

  /** `Ch.` followed by a whole number and a tail that does not continue
      it: the label pattern reads that number. */
  lemma LabelAtWhole(d: string, tail: string)
    requires |d| > 0 && AllDigits(d)
    requires |tail| == 0 || !IsDigit(tail[0])
    requires !StartsWithFraction(tail)
    ensures LabelAt("Ch." + (d + tail)) == Some(DigitsValue(d) as real)
  {
    var s := "Ch." + (d + tail);
    assert s[0] == 'C' && s[1] == 'h' && s[2] == '.' && s[3..] == d + tail;
    SpacedWhole(d, tail);
    LabelAtChDot(s, DigitsValue(d) as real);
  }

  lemma NoLabelStartAppend(a: string, b: string)
    requires NoLabelStart(a) && NoLabelStart(b)
    ensures NoLabelStart(a + b)
  {
    forall i | 0 <= i < |a + b| ensures LowerChar((a + b)[i]) != 'c' && LowerChar((a + b)[i]) != 'e' {
      if i < |a| {
        assert (a + b)[i] == a[i];
      } else {
        assert (a + b)[i] == b[i - |a|];
      }
    }
  }

  /** A label at the very start is the leftmost one. */
  lemma LabelNumberAtStart(s: string)
    requires LabelAt(s).Some?
    ensures LabelNumber(s) == LabelAt(s)
  {
  }

  /** A prefix no label can start in, and which does not start with a
      digit, leaves the title's number to the first label after it. */
  lemma LabelAfterPrefix(pre: string, d: string, tail: string, x: real)
    requires NoLabelStart(pre) && |pre| > 0 && !IsDigit(pre[0])
    requires |d| > 0 && AllDigits(d)
    requires |tail| == 0 || !IsDigit(tail[0])
    requires !StartsWithFraction(tail)
    ensures TitleMatches(pre + ("Ch." + (d + tail)), x) <==> x == DigitsValue(d) as real
  {
    var s := "Ch." + (d + tail);
    LabelNumberSkips(pre, s);
    LabelAtWhole(d, tail);
    LabelNumberAtStart(s);
    assert (pre + s)[0] == pre[0];
  }

  /** In "Vol.NN Ch.MMM - ..." the label pattern reads MMM and the two
      anchored patterns do not match, so the volume number never selects a
      chapter. */
  lemma VolumeNeverMatches(vol: string, d: string, tail: string, x: real)
    requires |vol| > 0 && AllDigits(vol)
    requires |d| > 0 && AllDigits(d)
    requires |tail| == 0 || !IsDigit(tail[0])
    requires !StartsWithFraction(tail)
    ensures TitleMatches(("Vol." + (vol + " ")) + ("Ch." + (d + tail)), x) <==> x == DigitsValue(d) as real
  {
    VolumePrefix(vol);
    LabelAfterPrefix("Vol." + (vol + " "), d, tail, x);
  }

  /** "Vol.NN " starts with a letter and holds no 'c' or 'e'. */
  lemma VolumePrefix(vol: string)
    requires AllDigits(vol)
    ensures NoLabelStart("Vol." + (vol + " ")) && ("Vol." + (vol + " "))[0] == 'V'
  {
    assert NoLabelStart("Vol.") by {
      assert forall i :: 0 <= i < 4 ==> "Vol."[i] in {'V', 'o', 'l', '.'};
    }
    assert NoLabelStart(vol) by {
      forall i | 0 <= i < |vol| ensures LowerChar(vol[i]) != 'c' && LowerChar(vol[i]) != 'e' {
        assert IsDigit(vol[i]);
      }
    }
    NoLabelStartAppend(vol, " ");
    NoLabelStartAppend("Vol.", vol + " ");
  }

  /** A title that is only a number, perhaps with trailing whitespace, is
      found by that number. */
  lemma BareNumberMatches(d: string, spaces: string)
    requires |d| > 0 && AllDigits(d)
    requires AllSpace(spaces)
    requires |spaces| == 0 || !IsDigit(spaces[0])
    ensures TitleMatches(d + spaces, DigitsValue(d) as real)
  {
    assert !StartsWithFraction(spaces);
    LeadingWhole(d, spaces);
    assert (d + spaces)[|d|..] == spaces;
  }

  /** A whole number, optional whitespace and a `-` or `:` separator
      start a title the second pattern reads as that number. */
  lemma SeparatedNumberOf(d: string, spaces: string, sep: char, rest: string)
    requires |d| > 0 && AllDigits(d)
    requires AllSpace(spaces)
    requires sep == '-' || sep == ':'
    ensures SeparatedNumber(d + (spaces + ([sep] + rest))) == Some(DigitsValue(d) as real)
  {
    var tail := spaces + ([sep] + rest);
    assert tail[0] == (if |spaces| > 0 then spaces[0] else sep);
    assert !StartsWithFraction(tail);
    LeadingWhole(d, tail);
    assert (d + tail)[|d|..] == tail;
    StripLeftSpaces(spaces, [sep] + rest);
  }

  /** A blank request that is no number matches every title as a substring,
      so it finds the first chapter unless some title is itself blank. */
  lemma BlankRequestFindsFirst(chapters: seq<Chapter>, s: string)
    requires |chapters| > 0
    requires AllSpace(s)
    requires forall j :: 0 <= j < |chapters| ==> !SameText(s, chapters[j].title)
    ensures Resolve(chapters, Label(s)) == Some(chapters[0])
  {
    StripBlank(s);
    ContainsEmpty(Lower(chapters[0].title));
    assert HasTextTest(s)(chapters[0]);
    assert AsNumber(Label(s)) == None;
  }
}
