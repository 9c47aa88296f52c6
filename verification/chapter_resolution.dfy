/** Chapter lookup by user input in the manga service (`resolve_chapter`) and
    the two versions kept side by side in the chapter-parsing script:
    `resolve_chapter_old`, which compares against the first number of a
    title, and `resolve_chapter_new`, which compares against the number after
    "ch". */
module ChapterResolution {
  import opened Wrappers
  import opened Text
  import opened Decimals
  import opened Records
  import opened Search

  /** `s.strip().lower()`, applied to the input and to every title. */
  function Folded(s: string): string {
    Lower(Strip(s))
  }

  // ---------------------------------------------------------------------
  // The first-digit-run matcher.
  // ---------------------------------------------------------------------

  /** `int(''.join(filter(str.isdigit, normalized)))`; `int('')` raises, so
      an input without digits has no number. */
  function RequestedInt(input: string): (r: Option<nat>)
    ensures r.None? <==> forall i :: 0 <= i < |Folded(input)| ==> !IsDigit(Folded(input)[i])
  {
    var digits := Filter(Folded(input), IsDigit);
    if |digits| == 0 then None else Some(DigitsValue(digits))
  }

  /** `int(re.findall(r'\d+', title)[0])` on the folded title. */
  function FirstNumber(title: string): (r: Option<nat>)
    // `[0]` of an empty findall raises, which the callers treat as no match
    ensures r.None? <==> forall i :: 0 <= i < |Folded(title)| ==> !IsDigit(Folded(title)[i])
  {
    match FirstDigitRun(Folded(title))
    case None => None
    case Some(d) => Some(DigitsValue(d))
  }

  function ExactTest(input: string): Chapter -> bool {
    (c: Chapter) => Folded(c.title) == Folded(input)
  }

  predicate HasFirstNumber(c: Chapter, n: nat) {
    FirstNumber(c.title) == Some(n)
  }

  function FirstNumberTest(n: nat): Chapter -> bool {
    (c: Chapter) => HasFirstNumber(c, n)
  }

  /** The number pass shared by `resolve_chapter` and `resolve_chapter_old`:
      the first chapter whose first number is `n`. */
  function ByFirstNumber(chapters: seq<Chapter>, n: nat): (r: Option<nat>)
    ensures r.Some? ==> r.value < |chapters| && HasFirstNumber(chapters[r.value], n)
    ensures r.Some? ==> forall j :: 0 <= j < r.value ==> !HasFirstNumber(chapters[j], n)
    ensures r.None? <==> forall j :: 0 <= j < |chapters| ==> !HasFirstNumber(chapters[j], n)
  {
    FirstIndex(chapters, FirstNumberTest(n))
  }

  /** The number pass applied to the number read from the input. */
  function NumberPass(chapters: seq<Chapter>, input: string): (r: Option<nat>)
    ensures r.Some? ==> RequestedInt(input).Some?
  {
    match RequestedInt(input)
    case None => None
    case Some(n) => ByFirstNumber(chapters, n)
  }

  /** `resolve_chapter` of the manga service, as a position in the list. */
  function ResolveChapterIndex(chapters: seq<Chapter>, input: string): (r: Option<nat>)
    ensures r.Some? ==> r.value < |chapters|
    // an exact title wins, the first one in the list
    ensures (exists j :: 0 <= j < |chapters| && Folded(chapters[j].title) == Folded(input)) ==>
              r.Some? && Folded(chapters[r.value].title) == Folded(input)
              && forall j :: 0 <= j < r.value ==> Folded(chapters[j].title) != Folded(input)
    // otherwise the first chapter whose first number is the requested one
    ensures (forall j :: 0 <= j < |chapters| ==> Folded(chapters[j].title) != Folded(input)) ==>
              r == NumberPass(chapters, input)
  {
    match FirstIndex(chapters, ExactTest(input))
    case Some(i) => Some(i)
    case None =>
      assert forall j :: 0 <= j < |chapters| ==> (ExactTest(input)(chapters[j]) <==> Folded(chapters[j].title) == Folded(input));
      NumberPass(chapters, input)
  }

  function ResolveChapter(chapters: seq<Chapter>, input: string): (r: Option<Chapter>)
    ensures r.Some? ==> r.value in chapters
    ensures r.Some? ==> Folded(r.value.title) == Folded(input)
                        || FirstNumber(r.value.title) == RequestedInt(input)
  {
    match ResolveChapterIndex(chapters, input)
    case None => None
    case Some(i) => Some(chapters[i])
  }

  /** `resolve_chapter_old`: the number pass alone. */
  function ResolveChapterOld(chapters: seq<Chapter>, input: string): (r: Option<Chapter>)
    ensures r.Some? ==> r.value in chapters && FirstNumber(r.value.title) == RequestedInt(input)
  {
    match NumberPass(chapters, input)
    case None => None
    case Some(i) => Some(chapters[i])
  }

  /** An input without digits finds nothing by number: the old version finds
      nothing at all and the service version only an exact title. */
  lemma NoDigitsNoNumber(chapters: seq<Chapter>, input: string)
    requires forall i :: 0 <= i < |input| ==> !IsDigit(input[i])
    ensures ResolveChapterOld(chapters, input).None?
    ensures ResolveChapter(chapters, input).Some? ==>
              Folded(ResolveChapter(chapters, input).value.title) == Folded(input)
  {
    FoldedKeepsDigits(input);
  }

  /** Folding neither adds nor removes digits at any position it keeps. */
  lemma FoldedKeepsDigits(s: string)
    ensures (forall i :: 0 <= i < |s| ==> !IsDigit(s[i])) ==>
              forall i :: 0 <= i < |Folded(s)| ==> !IsDigit(Folded(s)[i])
  {
    var pre, post := StripParts(s);
    var t := Strip(s);
    if forall i :: 0 <= i < |s| ==> !IsDigit(s[i]) {
      assert forall i :: 0 <= i < |t| ==> t[i] == s[|pre| + i];
    }
  }

  // ---------------------------------------------------------------------
  // The "ch"-anchored matcher of the fixed version.
  // ---------------------------------------------------------------------

  predicate IsNumeralChar(c: char) { IsDigit(c) || c == '.' }

  /** `float(''.join(filter(lambda c: c.isdigit() or c == '.', normalized)))`.
      The filtered string has no sign and no space, so `float` accepts it
      exactly when it is an unsigned numeral. */
  function RequestedNumber(input: string): (r: Option<real>)
    // the filter drops every sign
    ensures r.Some? ==> r.value >= 0.0
  {
    ParseUnsigned(Filter(Folded(input), IsNumeralChar))
  }

  /** Dots alone are no number: the fixed version needs a digit too. */
  lemma RequestedNumberNeedsDigit(input: string)
    ensures (forall i :: 0 <= i < |Folded(input)| ==> !IsDigit(Folded(input)[i])) ==> RequestedNumber(input).None?
  {
    var numeral := Filter(Folded(input), IsNumeralChar);
    if RequestedNumber(input).Some? {
      var k :| 0 <= k < |numeral| && IsDigit(numeral[k]);
      assert numeral[k] in Folded(input);
    }
  }

  /** `re.match(r'ch\.?(\d+(?:\.\d+)?)', s)`: the number captured at the very
      start of `s`. The optional dot is tried first; without it the number
      would have to start at the dot, which never matches. */
  function ChAt(s: string): (r: Option<real>)
    ensures r.Some? ==> |s| >= 2 && s[0] == 'c' && s[1] == 'h'
    ensures r.Some? ==> r.value >= 0.0
  {
    if |s| >= 2 && s[0] == 'c' && s[1] == 'h' then
      if |s| >= 3 && s[2] == '.' && LeadingDecimal(s[3..]).Some? then
        Some(LeadingDecimal(s[3..]).value.value)
      else
        match LeadingDecimal(s[2..])
        case None => None
        case Some(c) => Some(c.value)
    else None
  }

  /** The `ch` pattern matched at position `k` of `s`. */
  function ChFrom(s: string, k: nat): Option<real>
    requires k <= |s|
  {
    ChAt(s[k..])
  }

  /** No `ch` label starts in `s` before position `k`. */
  predicate LeftmostCh(s: string, k: nat)
    requires k <= |s|
  {
    forall j :: 0 <= j < k ==> ChFrom(s, j).None?
  }

  /** `re.search(r'ch\.?(\d+(?:\.\d+)?)', s)`: the leftmost match. */
  function ChapterLabel(s: string): (r: Option<real>)
    ensures r.None? <==> LeftmostCh(s, |s|)
    ensures r.Some? ==> exists k :: 0 <= k < |s| && ChFrom(s, k) == r && LeftmostCh(s, k)
    decreases |s|
  {
    if |s| == 0 then None
    else if ChAt(s).Some? then
      assert ChFrom(s, 0) == ChAt(s) by {
        assert s[0..] == s;
      }
      ChAt(s)
    else
      var r := ChapterLabel(s[1..]);
      ChSearchStep(s, r);
      r
  }

  /** The search moves past a position where no label starts. */
  lemma ChSearchStep(s: string, r: Option<real>)
    requires |s| > 0 && ChAt(s).None?
    requires r.None? <==> LeftmostCh(s[1..], |s| - 1)
    requires r.Some? ==> exists k :: 0 <= k < |s| - 1 && ChFrom(s[1..], k) == r && LeftmostCh(s[1..], k)
    ensures r.None? <==> LeftmostCh(s, |s|)
    ensures r.Some? ==> exists k :: 0 <= k < |s| && ChFrom(s, k) == r && LeftmostCh(s, k)
  {
    assert ChFrom(s, 0).None? by {
      assert s[0..] == s;
    }
    forall k | 0 <= k < |s| - 1
      ensures ChFrom(s[1..], k) == ChFrom(s, k + 1)
    {
      assert s[1..][k..] == s[k + 1..];
    }
    assert LeftmostCh(s[1..], |s| - 1) <==> LeftmostCh(s, |s|) by {
      if LeftmostCh(s[1..], |s| - 1) {
        forall j | 0 <= j < |s| ensures ChFrom(s, j).None? {
          if j > 0 {
            assert ChFrom(s[1..], j - 1).None?;
          }
        }
      }
    }
    if r.Some? {
      var k :| 0 <= k < |s| - 1 && ChFrom(s[1..], k) == r && LeftmostCh(s[1..], k);
      assert ChFrom(s, k + 1) == r;
      forall j | 0 <= j < k + 1 ensures ChFrom(s, j).None? {
        if j > 0 {
          assert ChFrom(s[1..], j - 1).None?;
        }
      }
    }
  }

  /** Text without a 'c' in front of the label is skipped. */
  lemma {:induction false} LabelAfter(pre: string, s: string)
    requires forall i :: 0 <= i < |pre| ==> pre[i] != 'c'
    ensures ChapterLabel(pre + s) == ChapterLabel(s)
  {
    if |pre| > 0 {
      assert (pre + s)[0] == pre[0];
      assert (pre + s)[1..] == pre[1..] + s;
      LabelAfter(pre[1..], s);
    } else {
      assert pre + s == s;
    }
  }

  /** "ch." followed by a whole number and a non-numeral tail. */
  lemma LabelOfWhole(d: string, tail: string)
    requires |d| > 0 && AllDigits(d)
    requires |tail| > 0 && !IsDigit(tail[0]) && tail[0] != '.'
    ensures ChapterLabel("ch." + (d + tail)) == Some(DigitsValue(d) as real)
  {
    var s := "ch." + (d + tail);
    assert s[3..] == d + tail;
    LeadingWhole(d, tail);
    LabelAtStart(s);
  }

  /** "ch." followed by `whole.frac` and a non-numeral tail. */
  lemma LabelOfFraction(whole: string, frac: string, tail: string)
    requires |whole| > 0 && AllDigits(whole)
    requires |frac| > 0 && AllDigits(frac)
    requires |tail| > 0 && !IsDigit(tail[0])
    ensures ChapterLabel("ch." + (whole + ("." + (frac + tail)))) == Some(DecimalValue(whole, frac))
  {
    var s := "ch." + (whole + ("." + (frac + tail)));
    assert s[3..] == whole + ("." + (frac + tail));
    LeadingFraction(whole, frac, tail);
    LabelAtStart(s);
  }

  /** A label at the very start is the leftmost one. */
  lemma LabelAtStart(s: string)
    requires ChAt(s).Some?
    ensures ChapterLabel(s) == ChAt(s)
  {
  }

  /** The fixed version's comparison as written: equality, or both numbers
      integral with equal integer parts. */
  predicate NewMatches(user: real, chapter: real) {
    || user == chapter
    || (user == user.Floor as real && chapter == chapter.Floor as real && user.Floor == chapter.Floor)
  }

  /** The integer branch never fires on its own: whenever it holds, the
      numbers are already equal. */
  lemma IntegerBranchRedundant(user: real, chapter: real)
    ensures NewMatches(user, chapter) <==> user == chapter
  {
    if user == user.Floor as real && chapter == chapter.Floor as real && user.Floor == chapter.Floor {
      calc {
        user;
        user.Floor as real;
        chapter.Floor as real;
        chapter;
      }
    }
  }

  predicate HasLabel(c: Chapter, user: real) {
    ChapterLabel(Folded(c.title)).Some? && NewMatches(user, ChapterLabel(Folded(c.title)).value)
  }

  function LabelTest(user: real): Chapter -> bool {
    (c: Chapter) => HasLabel(c, user)
  }

  /** Because of the redundant branch, a chapter passes the fixed version's
      test exactly when its label number equals the request. */
  lemma HasLabelIsEquality(c: Chapter, user: real)
    ensures HasLabel(c, user) <==> ChapterLabel(Folded(c.title)) == Some(user)
  {
    var l := ChapterLabel(Folded(c.title));
    if l.Some? {
      IntegerBranchRedundant(user, l.value);
    }
  }

  /** The label pass of `resolve_chapter_new` for the number `user`. */
  function ByLabel(chapters: seq<Chapter>, user: real): (r: Option<nat>)
    ensures r.Some? ==> r.value < |chapters| && ChapterLabel(Folded(chapters[r.value].title)) == Some(user)
    ensures r.Some? ==> forall j :: 0 <= j < r.value ==> ChapterLabel(Folded(chapters[j].title)) != Some(user)
    ensures r.None? <==> forall j :: 0 <= j < |chapters| ==> ChapterLabel(Folded(chapters[j].title)) != Some(user)
  {
    var r := FirstIndex(chapters, LabelTest(user));
    forall j | 0 <= j < |chapters| {
      HasLabelIsEquality(chapters[j], user);
    }
    r
  }

  /** `resolve_chapter_new`, as a position in the list. */
  function ResolveChapterNewIndex(chapters: seq<Chapter>, input: string): (r: Option<nat>)
    ensures r.Some? ==> RequestedNumber(input).Some?
    ensures RequestedNumber(input).Some? ==> r == ByLabel(chapters, RequestedNumber(input).value)
  {
    match RequestedNumber(input)
    case None => None
    case Some(u) => ByLabel(chapters, u)
  }

  function ResolveChapterNew(chapters: seq<Chapter>, input: string): (r: Option<Chapter>)
    ensures r.Some? ==> r.value in chapters && ChapterLabel(Folded(r.value.title)) == RequestedNumber(input)
  {
    match ResolveChapterNewIndex(chapters, input)
    case None => None
    case Some(i) => Some(chapters[i])
  }

  /** An input without digits finds nothing in the fixed version either. */
  lemma NewNoDigitsNoMatch(chapters: seq<Chapter>, input: string)
    requires forall i :: 0 <= i < |input| ==> !IsDigit(input[i])
    ensures ResolveChapterNew(chapters, input).None?
  {
    FoldedKeepsDigits(input);
    RequestedNumberNeedsDigit(input);
  }

  // ---------------------------------------------------------------------
  // Reading plain numerals.
  // ---------------------------------------------------------------------

  lemma FoldedNumeral(s: string)
    requires |s| > 0 && IsDigit(s[0]) && IsDigit(s[|s| - 1])
    requires forall i :: 0 <= i < |s| ==> IsNumeralChar(s[i])
    ensures Folded(s) == s
  {
    StripUnchanged(s);
    LowerOfNonUpper(s);
  }

  lemma FilterNumeral(s: string)
    requires forall i :: 0 <= i < |s| ==> IsNumeralChar(s[i])
    ensures Filter(s, IsNumeralChar) == s
  {
    FilterAll(s, IsNumeralChar);
  }

  lemma FilterDigits(s: string)
    requires AllDigits(s)
    ensures Filter(s, IsDigit) == s
  {
    FilterAll(s, IsDigit);
  }

  lemma ParseUnsignedOfDigits(s: string)
    requires |s| > 0 && AllDigits(s)
    ensures ParseUnsigned(s) == Some(DigitsValue(s) as real)
  {
    DigitRunOf(s, "");
    assert s + "" == s;
  }

  lemma ParseUnsignedOfDecimal(whole: string, frac: string)
    requires |whole| > 0 && AllDigits(whole)
    requires |frac| > 0 && AllDigits(frac)
    ensures ParseUnsigned(whole + ("." + frac)) == Some(DecimalValue(whole, frac))
  {
    var s := whole + ("." + frac);
    DigitRunOf(whole, "." + frac);
    assert s[..|whole|] == whole && s[|whole|] == '.' && s[|whole| + 1..] == frac;
  }

  /** A title that is the decimal form of `n` has first number `n`. */
  lemma FirstNumberOfNat(n: nat)
    ensures FirstNumber(NatToString(n)) == Some(n)
  {
    var s := NatToString(n);
    FoldedNumeral(s);
    FirstRunOfDigits(s);
    DigitsValueOfNatToString(n);
  }

  lemma FirstRunOfDigits(s: string)
    requires |s| > 0 && AllDigits(s)
    ensures FirstDigitRun(s) == Some(s)
  {
    DigitRunOf(s, "");
    assert s + "" == s;
    assert s[..|s|] == s;
  }

  /** An input that is the decimal form of `n` requests chapter `n` in the
      first-digit-run matcher. */
  lemma RequestedIntOfNat(n: nat)
    ensures RequestedInt(NatToString(n)) == Some(n)
  {
    var s := NatToString(n);
    FoldedNumeral(s);
    assert Folded(s) == s;
    FilterDigits(s);
    assert Filter(Folded(s), IsDigit) == s;
    DigitsValueOfNatToString(n);
  }

  /** A plain numeral reaches `float` unchanged. */
  lemma RequestedNumeral(s: string)
    requires |s| > 0 && IsDigit(s[0]) && IsDigit(s[|s| - 1])
    requires forall i :: 0 <= i < |s| ==> IsNumeralChar(s[i])
    ensures RequestedNumber(s) == ParseUnsigned(s)
  {
    var folded := Folded(s);
    FoldedNumeral(s);
    FilterNumeral(s);
    assert Filter(folded, IsNumeralChar) == s;
  }

  /** ... and in the fixed version. */
  lemma RequestedNumberOfNat(n: nat)
    ensures RequestedNumber(NatToString(n)) == Some(n as real)
  {
    var s := NatToString(n);
    RequestedNumeral(s);
    DigitsValueOfNatToString(n);
    ParseUnsignedOfDigits(s);
  }

  /** An input `whole.frac` requests exactly that decimal in the fixed
      version. */
  lemma RequestedNumberOfDecimal(whole: string, frac: string)
    requires |whole| > 0 && AllDigits(whole)
    requires |frac| > 0 && AllDigits(frac)
    ensures RequestedNumber(whole + ("." + frac)) == Some(DecimalValue(whole, frac))
  {
    var s := whole + ("." + frac);
    assert s[0] == whole[0] && s[|s| - 1] == frac[|frac| - 1];
    assert forall i :: 0 <= i < |s| ==> IsNumeralChar(s[i]);
    RequestedNumeral(s);
    ParseUnsignedOfDecimal(whole, frac);
  }
}
