/** The two tables of the chapter-parsing script: ten One Piece listings
    whose titles all start with a volume number, and four listings mixing
    whole and fractional chapter numbers. Each title is the listing head,
    32 spaces and the upload date, as the source site prints it. */
module ParsingTables {
  import opened Wrappers
  import opened Text
  import opened Decimals
  import opened Records
  import opened ChapterResolution

  const Gap: string := "                                "

  /** The numeral `whole` or `whole.frac`. */
  function Numeral(whole: string, frac: string): string {
    if frac == "" then whole else whole + ("." + frac)
  }

  /** "Vol.<volume> " when there is a volume. */
  function VolumePart(volume: string): string {
    if volume == "" then "" else "Vol." + (volume + " ")
  }

  /** " - <name>" when there is a name, then the gap and the date. */
  function TailPart(name: string, date: string): string {
    (if name == "" then "" else " - " + name) + (Gap + date)
  }

  /** A listing title: "[Vol.<volume> ]Ch.<number>[ - <name>]", the gap and
      the date. */
  function Listing(volume: string, whole: string, frac: string, name: string, date: string): string {
    VolumePart(volume) + ("Ch." + (Numeral(whole, frac) + TailPart(name, date)))
  }

  /** The conditions every listing in the tables meets. */
  predicate WellFormed(volume: string, whole: string, frac: string, date: string) {
    && AllDigits(volume) && |whole| > 0 && AllDigits(whole) && AllDigits(frac)
    && |date| > 0 && !IsSpace(date[|date| - 1])
  }

  lemma NoLetterC(s: string)
    requires forall i :: 0 <= i < |s| ==> s[i] != 'c' && s[i] != 'C'
    ensures forall i :: 0 <= i < |Lower(s)| ==> Lower(s)[i] != 'c'
  {
  }

  lemma NumeralLower(whole: string, frac: string)
    requires AllDigits(whole) && AllDigits(frac)
    ensures Lower(Numeral(whole, frac)) == Numeral(whole, frac)
  {
    var n := Numeral(whole, frac);
    assert forall i :: 0 <= i < |n| ==> IsDigit(n[i]) || n[i] == '.';
    LowerOfNonUpper(n);
  }

  lemma LastOfAppend(a: string, b: string)
    requires |b| > 0
    ensures (a + b)[|a + b| - 1] == b[|b| - 1]
  {
  }

  /** A listing has no surrounding whitespace. */
  lemma ListingStripped(volume: string, whole: string, frac: string, name: string, date: string)
    requires WellFormed(volume, whole, frac, date)
    ensures Strip(Listing(volume, whole, frac, name, date)) == Listing(volume, whole, frac, name, date)
  {
    var v, n, t := VolumePart(volume), Numeral(whole, frac), TailPart(name, date);
    var title := v + ("Ch." + (n + t));
    assert title[0] == (if v == "" then 'C' else 'V');
    LastOfAppend(Gap, date);
    LastOfAppend(if name == "" then "" else " - " + name, Gap + date);
    LastOfAppend(n, t);
    LastOfAppend("Ch.", n + t);
    LastOfAppend(v, "Ch." + (n + t));
    StripUnchanged(title);
  }

  lemma LowerLabel(v: string, n: string, t: string)
    requires Lower(n) == n
    ensures Lower(v + ("Ch." + (n + t))) == Lower(v) + ("ch." + (n + Lower(t)))
  {
    LowerAppend(v, "Ch." + (n + t));
    LowerAppend("Ch.", n + t);
    LowerAppend(n, t);
    assert Lower("Ch.") == "ch.";
  }

  /** The folded listing, in three pieces: the lower-cased volume part, the
      label with its numeral, and the lower-cased tail. */
  lemma FoldedListing(volume: string, whole: string, frac: string, name: string, date: string)
    requires WellFormed(volume, whole, frac, date)
    ensures Folded(Listing(volume, whole, frac, name, date))
         == Lower(VolumePart(volume)) + ("ch." + (Numeral(whole, frac) + Lower(TailPart(name, date))))
  {
    ListingStripped(volume, whole, frac, name, date);
    NumeralLower(whole, frac);
    LowerLabel(VolumePart(volume), Numeral(whole, frac), TailPart(name, date));
  }

  lemma VolumeHasNoC(volume: string)
    requires AllDigits(volume)
    ensures forall i :: 0 <= i < |Lower(VolumePart(volume))| ==> Lower(VolumePart(volume))[i] != 'c'
  {
    var v := VolumePart(volume);
    if volume != "" {
      assert forall i :: 0 <= i < |v| ==> v[i] in "Vol. " || IsDigit(v[i]) by {
        forall i | 0 <= i < |v| ensures v[i] in "Vol. " || IsDigit(v[i]) {
          if 4 <= i < 4 + |volume| {
            assert v[i] == volume[i - 4];
          }
        }
      }
    }
    NoLetterC(v);
  }

  lemma TailStartsWithSpace(name: string, date: string)
    ensures |Lower(TailPart(name, date))| > 0 && Lower(TailPart(name, date))[0] == ' '
  {
    var t := TailPart(name, date);
    assert t[0] == ' ';
  }

  /** The number after "ch" in a listing is its chapter number. */
  lemma ListingLabel(volume: string, whole: string, frac: string, name: string, date: string)
    requires WellFormed(volume, whole, frac, date)
    ensures ChapterLabel(Folded(Listing(volume, whole, frac, name, date))) == Some(DecimalValue(whole, frac))
  {
    var v, t := VolumePart(volume), Lower(TailPart(name, date));
    FoldedListing(volume, whole, frac, name, date);
    VolumeHasNoC(volume);
    LabelAfter(Lower(v), "ch." + (Numeral(whole, frac) + t));
    TailStartsWithSpace(name, date);
    LabelOfNumeral(whole, frac, t);
  }

  lemma LabelOfNumeral(whole: string, frac: string, t: string)
    requires |whole| > 0 && AllDigits(whole) && AllDigits(frac)
    requires |t| > 0 && t[0] == ' '
    ensures ChapterLabel("ch." + (Numeral(whole, frac) + t)) == Some(DecimalValue(whole, frac))
  {
    if frac == "" {
      WholeValue(whole, frac);
      LabelOfWhole(whole, t);
    } else {
      FractionNumeral(whole, frac, t);
      LabelOfFraction(whole, frac, t);
    }
  }

  lemma WholeValue(whole: string, frac: string)
    requires AllDigits(whole) && frac == ""
    ensures Numeral(whole, frac) == whole
    ensures DecimalValue(whole, frac) == DigitsValue(whole) as real
  {
  }

  lemma FractionNumeral(whole: string, frac: string, t: string)
    requires frac != ""
    ensures "ch." + (Numeral(whole, frac) + t) == "ch." + (whole + ("." + (frac + t)))
  {
  }

  lemma LowerVolumePart(volume: string, x: string)
    requires volume != "" && AllDigits(volume)
    ensures Lower(VolumePart(volume)) + x == "vol." + (volume + (" " + x))
  {
    LowerAppend("Vol.", volume + " ");
    LowerAppend(volume, " ");
    LowerOfNonUpper(volume);
    assert Lower("Vol.") == "vol.";
  }

  lemma NumeralThen(whole: string, frac: string, t: string)
    requires |t| > 0 && t[0] == ' '
    ensures exists rest: string :: Numeral(whole, frac) + t == whole + rest && |rest| > 0 && !IsDigit(rest[0])
  {
    if frac == "" {
      assert Numeral(whole, frac) + t == whole + t;
    } else {
      var rest := "." + (frac + t);
      assert Numeral(whole, frac) + t == whole + rest;
    }
  }

  /** The first number in a listing is its volume when it has one, and its
      chapter number's whole part otherwise. */
  lemma ListingFirstNumber(volume: string, whole: string, frac: string, name: string, date: string)
    requires WellFormed(volume, whole, frac, date)
    ensures FirstNumber(Listing(volume, whole, frac, name, date))
         == Some(DigitsValue(if volume == "" then whole else volume))
  {
    var t := Lower(TailPart(name, date));
    var x := "ch." + (Numeral(whole, frac) + t);
    FoldedListing(volume, whole, frac, name, date);
    TailStartsWithSpace(name, date);
    if volume == "" {
      FirstRunWithoutVolume(whole, frac, t);
    } else {
      FirstRunWithVolume(volume, x);
    }
  }

  lemma FirstRunWithoutVolume(whole: string, frac: string, t: string)
    requires |whole| > 0 && AllDigits(whole)
    requires |t| > 0 && t[0] == ' '
    ensures FirstDigitRun(Lower(VolumePart("")) + ("ch." + (Numeral(whole, frac) + t))) == Some(whole)
  {
    var x := "ch." + (Numeral(whole, frac) + t);
    assert Lower(VolumePart("")) + x == x;
    NumeralThen(whole, frac, t);
    var rest: string :| Numeral(whole, frac) + t == whole + rest && |rest| > 0 && !IsDigit(rest[0]);
    FirstDigitRunOf("ch.", whole, rest);
  }

  lemma FirstRunWithVolume(volume: string, x: string)
    requires volume != "" && AllDigits(volume)
    ensures FirstDigitRun(Lower(VolumePart(volume)) + x) == Some(volume)
  {
    LowerVolumePart(volume, x);
    assert (" " + x)[0] == ' ';
    FirstDigitRunOf("vol.", volume, " " + x);
  }

  // ---------------------------------------------------------------------
  // The tables.
  // ---------------------------------------------------------------------

  /** One row of a test table: the chapter id and the pieces of its title.
      The site pads volumes to two digits and chapters to three; a part
      chapter carries one fraction digit. */
  datatype Row = Row(id: string, volume: Option<nat>, chapter: nat, part: Option<nat>, name: string, date: string)

  function VolumeDigits(volume: Option<nat>): string {
    match volume
    case None => ""
    case Some(n) => ZeroPad(n, 2)
  }

  function PartDigits(part: Option<nat>): string {
    match part
    case None => ""
    case Some(n) => NatToString(n)
  }

  /** The record the API returns for a row; the tables have no `number`. */
  function Entry(r: Row): Chapter {
    Chapter(r.id, Listing(VolumeDigits(r.volume), ZeroPad(r.chapter, 3), PartDigits(r.part), r.name, r.date), None)
  }

  function Entries(rows: seq<Row>): (cs: seq<Chapter>)
    ensures |cs| == |rows|
  {
    seq(|rows|, k requires 0 <= k < |rows| => Entry(rows[k]))
  }

  /** The chapter number a row stands for. */
  function RowNumber(r: Row): real {
    r.chapter as real + match r.part case None => 0.0 case Some(n) => n as real / 10.0
  }

  /** The numbers of a table's rows, in order. */
  function Numbers(rows: seq<Row>): (ns: seq<real>)
    ensures |ns| == |rows|
    ensures forall k :: 0 <= k < |rows| ==> ns[k] == RowNumber(rows[k])
  {
    seq(|rows|, k requires 0 <= k < |rows| => RowNumber(rows[k]))
  }

  /** The first number printed in each of a table's rows, in order. */
  function Leading(rows: seq<Row>): (ns: seq<nat>)
    ensures |ns| == |rows|
    ensures forall k :: 0 <= k < |rows| ==> ns[k] == rows[k].volume.GetOr(rows[k].chapter)
  {
    seq(|rows|, k requires 0 <= k < |rows| => rows[k].volume.GetOr(rows[k].chapter))
  }

  predicate Printable(r: Row) {
    && (r.part.Some? ==> r.part.value < 10)
    && |r.date| > 0 && !IsSpace(r.date[|r.date| - 1])
  }

  lemma OneDigitFraction(w: string, n: nat)
    requires AllDigits(w) && n < 10
    ensures DecimalValue(w, NatToString(n)) == DigitsValue(w) as real + n as real / 10.0
  {
    DigitsValueOfNatToString(n);
    assert Pow10(|NatToString(n)|) == 10;
  }

  lemma RowValue(r: Row)
    requires Printable(r)
    ensures DecimalValue(ZeroPad(r.chapter, 3), PartDigits(r.part)) == RowNumber(r)
  {
    ZeroPadValue(r.chapter, 3);
    if r.part.Some? {
      OneDigitFraction(ZeroPad(r.chapter, 3), r.part.value);
    }
  }

  /** The chapter number after "Ch." in a row's title is the row's number. */
  lemma RowLabel(r: Row)
    requires Printable(r)
    ensures ChapterLabel(Folded(Entry(r).title)) == Some(RowNumber(r))
  {
    var v, w, f := VolumeDigits(r.volume), ZeroPad(r.chapter, 3), PartDigits(r.part);
    assert AllDigits(v) && AllDigits(f);
    ListingLabel(v, w, f, r.name, r.date);
    RowValue(r);
  }

  /** The first number of a row's title is its volume when it has one. */
  lemma RowFirstNumber(r: Row)
    requires Printable(r)
    ensures FirstNumber(Entry(r).title) == Some(r.volume.GetOr(r.chapter))
  {
    var v, w, f := VolumeDigits(r.volume), ZeroPad(r.chapter, 3), PartDigits(r.part);
    assert AllDigits(v) && AllDigits(f);
    ListingFirstNumber(v, w, f, r.name, r.date);
    ZeroPadValue(r.chapter, 3);
    if r.volume.Some? {
      ZeroPadValue(r.volume.value, 2);
    }
  }

  lemma TableNumbers(rows: seq<Row>)
    requires forall k :: 0 <= k < |rows| ==> Printable(rows[k])
    ensures forall k :: 0 <= k < |rows| ==> ChapterLabel(Folded(Entries(rows)[k].title)) == Some(RowNumber(rows[k]))
    ensures forall k :: 0 <= k < |rows| ==> FirstNumber(Entries(rows)[k].title) == Some(rows[k].volume.GetOr(rows[k].chapter))
  {
    forall k | 0 <= k < |rows|
      ensures ChapterLabel(Folded(Entries(rows)[k].title)) == Some(RowNumber(rows[k]))
      ensures FirstNumber(Entries(rows)[k].title) == Some(rows[k].volume.GetOr(rows[k].chapter))
    {
      RowLabel(rows[k]);
      RowFirstNumber(rows[k]);
    }
  }

  function OnePieceRows(): seq<Row> {
    [ Row("/manga/one_piece/v01/c008/1.html", Some(1), 8, None, "Nami", "Aug 01,2016"),
      Row("/manga/one_piece/v01/c007/1.html", Some(1), 7, None, "", "Jun 08,2008"),
      Row("/manga/one_piece/v01/c006/1.html", Some(1), 6, None, "", "Jun 08,2008"),
      Row("/manga/one_piece/v01/c005/1.html", Some(1), 5, None, "", "Jun 08,2008"),
      Row("/manga/one_piece/v01/c004/1.html", Some(1), 4, None, "", "Jun 08,2008"),
      Row("/manga/one_piece/v01/c003/1.html", Some(1), 3, None, "", "Jun 08,2008"),
      Row("/manga/one_piece/v01/c002/1.html", Some(1), 2, None, "", "Jun 08,2008"),
      Row("/manga/one_piece/v01/c001/1.html", Some(1), 1, None, "Romance Dawn", "Jun 08,2008"),
      Row("/manga/one_piece/v02/c014/1.html", Some(2), 14, None, "Reckless", "Oct 18,2007"),
      Row("/manga/one_piece/v02/c013/1.html", Some(2), 13, None, "", "Oct 18,2007") ]
  }

  function DecimalRows(): seq<Row> {
    [ Row("/manga/ana_satsujin/c132.5/1.html", None, 132, Some(5), "", "Mar 16,2022"),
      Row("/manga/ana_satsujin/c132/1.html", None, 132, None, "", "Sep 14,2016"),
      Row("/manga/69/v01/c008.1/1.html", Some(1), 8, Some(1), "extra", "Jun 08,2008"),
      Row("/manga/69/v01/c008/1.html", Some(1), 8, None, "", "Jun 08,2008") ]
  }

  // ---------------------------------------------------------------------
  // The expected outcomes.
  // ---------------------------------------------------------------------

  /** The id of the chapter a resolver returned, as the script compares it. */
  function IdOf(r: Option<Chapter>): Option<string> {
    match r
    case None => None
    case Some(c) => Some(c.id)
  }

  /** On printable rows the fixed version returns the first row whose number is the request. */
  lemma LabelIndex(rows: seq<Row>, u: real, k: nat)
    requires forall j :: 0 <= j < |rows| ==> Printable(rows[j])
    requires k < |rows| && RowNumber(rows[k]) == u
    requires forall j :: 0 <= j < k ==> RowNumber(rows[j]) != u
    ensures ByLabel(Entries(rows), u) == Some(k)
  {
    var cs := Entries(rows);
    forall j | 0 <= j <= k
      ensures ChapterLabel(Folded(cs[j].title)) == Some(RowNumber(rows[j]))
    {
      RowLabel(rows[j]);
    }
  }

  /** The position of the first `u` in `ns` at or after `i`, or `|ns|` when there is none. */
  function IndexFrom<T(==)>(ns: seq<T>, u: T, i: nat): (r: nat)
    requires i <= |ns|
    ensures i <= r <= |ns|
    decreases |ns| - i
  {
    if i == |ns| then i else if ns[i] == u then i else IndexFrom(ns, u, i + 1)
  }

  lemma {:induction false} IndexFromFinds<T>(ns: seq<T>, u: T, i: nat)
    requires i <= |ns|
    ensures IndexFrom(ns, u, i) < |ns| ==> ns[IndexFrom(ns, u, i)] == u
    ensures forall j :: i <= j < IndexFrom(ns, u, i) ==> ns[j] != u
    decreases |ns| - i
  {
    if i < |ns| && ns[i] != u {
      IndexFromFinds(ns, u, i + 1);
    }
  }

  /** A printable table whose numbers and first numbers are `ns` and `ls`. */
  predicate Tabulated(rows: seq<Row>, ns: seq<real>, ls: seq<nat>) {
    && (forall j :: 0 <= j < |rows| ==> Printable(rows[j]))
    && Numbers(rows) == ns
    && Leading(rows) == ls
  }

  lemma FixedVersionPicks(rows: seq<Row>, input: string, ns: seq<real>, ls: seq<nat>, u: real, k: nat)
    requires Tabulated(rows, ns, ls)
    requires RequestedNumber(input) == Some(u) && IndexFrom(ns, u, 0) == k < |ns|
    ensures IdOf(ResolveChapterNew(Entries(rows), input)) == Some(rows[k].id)
  {
    FirstRowNumbered(rows, ns, u, k);
    PickedByLabel(rows, input, u, k);
  }

  /** The first `u` among the numbers is the first row numbered `u`. */
  lemma FirstRowNumbered(rows: seq<Row>, ns: seq<real>, u: real, k: nat)
    requires Numbers(rows) == ns
    requires IndexFrom(ns, u, 0) == k < |ns|
    ensures k < |rows| && RowNumber(rows[k]) == u
    ensures forall j :: 0 <= j < k ==> RowNumber(rows[j]) != u
  {
    IndexFromFinds(ns, u, 0);
    forall j | 0 <= j < k
      ensures RowNumber(rows[j]) != u
    {
      assert Numbers(rows)[j] == ns[j];
    }
    assert Numbers(rows)[k] == u;
  }

  lemma PickedByLabel(rows: seq<Row>, input: string, u: real, k: nat)
    requires forall j :: 0 <= j < |rows| ==> Printable(rows[j])
    requires RequestedNumber(input) == Some(u)
    requires k < |rows| && RowNumber(rows[k]) == u
    requires forall j :: 0 <= j < k ==> RowNumber(rows[j]) != u
    ensures IdOf(ResolveChapterNew(Entries(rows), input)) == Some(rows[k].id)
  {
    var cs := Entries(rows);
    LabelIndex(rows, u, k);
    assert ResolveChapterNewIndex(cs, input) == Some(k);
    assert ResolveChapterNew(cs, input) == Some(cs[k]);
  }

  lemma LeadingIndex(rows: seq<Row>, n: nat, k: nat)
    requires forall j :: 0 <= j < |rows| ==> Printable(rows[j])
    requires k < |rows| && rows[k].volume.GetOr(rows[k].chapter) == n
    requires forall j :: 0 <= j < k ==> rows[j].volume.GetOr(rows[j].chapter) != n
    ensures ByFirstNumber(Entries(rows), n) == Some(k)
  {
    var cs := Entries(rows);
    forall j | 0 <= j <= k
      ensures FirstNumber(cs[j].title) == Some(rows[j].volume.GetOr(rows[j].chapter))
    {
      RowFirstNumber(rows[j]);
    }
    assert HasFirstNumber(cs[k], n);
  }

  /** On printable rows the old version returns the first row whose first number is the request. */
  lemma OldVersionPicks(rows: seq<Row>, input: string, ms: seq<real>, ns: seq<nat>, n: nat, k: nat)
    requires Tabulated(rows, ms, ns)
    requires RequestedInt(input) == Some(n) && IndexFrom(ns, n, 0) == k < |ns|
    ensures IdOf(ResolveChapterOld(Entries(rows), input)) == Some(rows[k].id)
  {
    IndexFromFinds(ns, n, 0);
    forall j | 0 <= j < k
      ensures rows[j].volume.GetOr(rows[j].chapter) != n
    {
      assert Leading(rows)[j] == ns[j];
    }
    assert Leading(rows)[k] == n;
    LeadingIndex(rows, n, k);
    assert NumberPass(Entries(rows), input) == Some(k);
  }

  /** The old version finds nothing when no row's first number is the request. */
  lemma OldVersionMisses(rows: seq<Row>, input: string, ms: seq<real>, ns: seq<nat>, n: nat)
    requires Tabulated(rows, ms, ns)
    requires RequestedInt(input) == Some(n) && IndexFrom(ns, n, 0) == |ns|
    ensures ResolveChapterOld(Entries(rows), input) == None
  {
    IndexFromFinds(ns, n, 0);
    var cs := Entries(rows);
    forall j | 0 <= j < |rows|
      ensures !HasFirstNumber(cs[j], n)
    {
      assert Leading(rows)[j] == ns[j];
      RowFirstNumber(rows[j]);
    }
    assert NumberPass(cs, input) == None;
  }

  lemma OnePiecePrintable(rows: seq<Row>)
    requires rows == OnePieceRows()
    ensures forall j :: 0 <= j < |rows| ==> Printable(rows[j])
  {
  }

  lemma OnePieceTable(rows: seq<Row>)
    requires rows == OnePieceRows()
    ensures Tabulated(rows, [8.0, 7.0, 6.0, 5.0, 4.0, 3.0, 2.0, 1.0, 14.0, 13.0], [1, 1, 1, 1, 1, 1, 1, 1, 2, 2])
  {
    OnePiecePrintable(rows);
  }

  lemma DecimalTable(rows: seq<Row>)
    requires rows == DecimalRows()
    ensures Tabulated(rows, [132.5, 132.0, 8.1, 8.0], [132, 132, 1, 1])
  {
  }

  lemma OnePieceIds(rows: seq<Row>)
    requires rows == OnePieceRows()
    ensures rows[0].id == "/manga/one_piece/v01/c008/1.html"
    ensures rows[1].id == "/manga/one_piece/v01/c007/1.html"
    ensures rows[2].id == "/manga/one_piece/v01/c006/1.html"
    ensures rows[3].id == "/manga/one_piece/v01/c005/1.html"
    ensures rows[4].id == "/manga/one_piece/v01/c004/1.html"
    ensures rows[5].id == "/manga/one_piece/v01/c003/1.html"
    ensures rows[6].id == "/manga/one_piece/v01/c002/1.html"
    ensures rows[7].id == "/manga/one_piece/v01/c001/1.html"
    ensures rows[8].id == "/manga/one_piece/v02/c014/1.html"
    ensures rows[9].id == "/manga/one_piece/v02/c013/1.html"
  {
  }

  lemma DecimalIds(rows: seq<Row>)
    requires rows == DecimalRows()
    ensures rows[0].id == "/manga/ana_satsujin/c132.5/1.html"
    ensures rows[1].id == "/manga/ana_satsujin/c132/1.html"
    ensures rows[2].id == "/manga/69/v01/c008.1/1.html"
    ensures rows[3].id == "/manga/69/v01/c008/1.html"
  {
  }

  // The requests the script makes.

  lemma RequestOfNat(input: string, n: nat)
    requires input == NatToString(n)
    ensures RequestedNumber(input) == Some(n as real)
    ensures RequestedInt(input) == Some(n)
  {
    RequestedNumberOfNat(n);
    RequestedIntOfNat(n);
  }

  lemma RequestOne(input: string)
    requires input == "1"
    ensures RequestedNumber(input) == Some(1.0) && RequestedInt(input) == Some(1)
  {
    RequestOfNat(input, 1);
  }

  lemma RequestTwo(input: string)
    requires input == "2"
    ensures RequestedNumber(input) == Some(2.0) && RequestedInt(input) == Some(2)
  {
    RequestOfNat(input, 2);
  }

  lemma RequestEight(input: string)
    requires input == "8"
    ensures RequestedNumber(input) == Some(8.0) && RequestedInt(input) == Some(8)
  {
    RequestOfNat(input, 8);
  }

  lemma RequestFourteen(input: string)
    requires input == "14"
    ensures RequestedNumber(input) == Some(14.0) && RequestedInt(input) == Some(14)
  {
    assert NatToString(1) == "1";
    RequestOfNat(input, 14);
  }

  lemma Request132(input: string)
    requires input == "132"
    ensures RequestedNumber(input) == Some(132.0)
  {
    assert NatToString(13) == "13";
    RequestOfNat(input, 132);
  }

  lemma RequestEightOne(input: string)
    requires input == "8.1"
    ensures RequestedNumber(input) == Some(8.1)
  {
    var w, f := NatToString(8), NatToString(1);
    assert input == w + ("." + f);
    RequestedNumberOfDecimal(w, f);
    DigitsValueOfNatToString(8);
    OneDigitFraction(w, 1);
  }

  lemma Request132Five(input: string)
    requires input == "132.5"
    ensures RequestedNumber(input) == Some(132.5)
  {
    assert NatToString(13) == "13";
    var w, f := NatToString(132), NatToString(5);
    assert input == w + ("." + f);
    RequestedNumberOfDecimal(w, f);
    DigitsValueOfNatToString(132);
    OneDigitFraction(w, 5);
  }

  /** Where each request first occurs among the first table's chapter numbers. */
  lemma ChapterIndices()
    ensures IndexFrom([8.0, 7.0, 6.0, 5.0, 4.0, 3.0, 2.0, 1.0, 14.0, 13.0], 1.0, 0) == 7
    ensures IndexFrom([8.0, 7.0, 6.0, 5.0, 4.0, 3.0, 2.0, 1.0, 14.0, 13.0], 2.0, 0) == 6
    ensures IndexFrom([8.0, 7.0, 6.0, 5.0, 4.0, 3.0, 2.0, 1.0, 14.0, 13.0], 8.0, 0) == 0
    ensures IndexFrom([8.0, 7.0, 6.0, 5.0, 4.0, 3.0, 2.0, 1.0, 14.0, 13.0], 14.0, 0) == 8
  {
  }

  /** Where each request first occurs among the first table's volume numbers. */
  lemma VolumeIndices()
    ensures IndexFrom<nat>([1, 1, 1, 1, 1, 1, 1, 1, 2, 2], 1, 0) == 0
    ensures IndexFrom<nat>([1, 1, 1, 1, 1, 1, 1, 1, 2, 2], 2, 0) == 8
    ensures IndexFrom<nat>([1, 1, 1, 1, 1, 1, 1, 1, 2, 2], 8, 0) == 10
    ensures IndexFrom<nat>([1, 1, 1, 1, 1, 1, 1, 1, 2, 2], 14, 0) == 10
  {
  }

  /** Where each request first occurs among the second table's numbers. */
  lemma DecimalIndices()
    ensures IndexFrom([132.5, 132.0, 8.1, 8.0], 8.0, 0) == 3
    ensures IndexFrom([132.5, 132.0, 8.1, 8.0], 8.1, 0) == 2
    ensures IndexFrom([132.5, 132.0, 8.1, 8.0], 132.0, 0) == 1
    ensures IndexFrom([132.5, 132.0, 8.1, 8.0], 132.5, 0) == 0
  {
  }

  // The first table under the fixed version: every request finds its chapter.

  lemma FixedVersionRequestOne(rows: seq<Row>, input: string)
    requires Tabulated(rows, [8.0, 7.0, 6.0, 5.0, 4.0, 3.0, 2.0, 1.0, 14.0, 13.0], [1, 1, 1, 1, 1, 1, 1, 1, 2, 2]) && RequestedNumber(input) == Some(1.0)
    ensures IdOf(ResolveChapterNew(Entries(rows), input)) == Some(rows[7].id)
  {
    ChapterIndices();
    FixedVersionPicks(rows, input, [8.0, 7.0, 6.0, 5.0, 4.0, 3.0, 2.0, 1.0, 14.0, 13.0], [1, 1, 1, 1, 1, 1, 1, 1, 2, 2], 1.0, 7);
  }

  lemma FixedVersionChapterOne(rows: seq<Row>, input: string)
    requires rows == OnePieceRows() && input == "1"
    ensures IdOf(ResolveChapterNew(Entries(rows), input)) == Some("/manga/one_piece/v01/c001/1.html")
  {
    OnePieceTable(rows);
    OnePieceIds(rows);
    RequestOne(input);
    FixedVersionRequestOne(rows, input);
  }

  lemma FixedVersionRequestTwo(rows: seq<Row>, input: string)
    requires Tabulated(rows, [8.0, 7.0, 6.0, 5.0, 4.0, 3.0, 2.0, 1.0, 14.0, 13.0], [1, 1, 1, 1, 1, 1, 1, 1, 2, 2]) && RequestedNumber(input) == Some(2.0)
    ensures IdOf(ResolveChapterNew(Entries(rows), input)) == Some(rows[6].id)
  {
    ChapterIndices();
    FixedVersionPicks(rows, input, [8.0, 7.0, 6.0, 5.0, 4.0, 3.0, 2.0, 1.0, 14.0, 13.0], [1, 1, 1, 1, 1, 1, 1, 1, 2, 2], 2.0, 6);
  }

  lemma FixedVersionChapterTwo(rows: seq<Row>, input: string)
    requires rows == OnePieceRows() && input == "2"
    ensures IdOf(ResolveChapterNew(Entries(rows), input)) == Some("/manga/one_piece/v01/c002/1.html")
  {
    OnePieceTable(rows);
    OnePieceIds(rows);
    RequestTwo(input);
    FixedVersionRequestTwo(rows, input);
  }

  lemma FixedVersionRequestEight(rows: seq<Row>, input: string)
    requires Tabulated(rows, [8.0, 7.0, 6.0, 5.0, 4.0, 3.0, 2.0, 1.0, 14.0, 13.0], [1, 1, 1, 1, 1, 1, 1, 1, 2, 2]) && RequestedNumber(input) == Some(8.0)
    ensures IdOf(ResolveChapterNew(Entries(rows), input)) == Some(rows[0].id)
  {
    ChapterIndices();
    FixedVersionPicks(rows, input, [8.0, 7.0, 6.0, 5.0, 4.0, 3.0, 2.0, 1.0, 14.0, 13.0], [1, 1, 1, 1, 1, 1, 1, 1, 2, 2], 8.0, 0);
  }

  lemma FixedVersionChapterEight(rows: seq<Row>, input: string)
    requires rows == OnePieceRows() && input == "8"
    ensures IdOf(ResolveChapterNew(Entries(rows), input)) == Some("/manga/one_piece/v01/c008/1.html")
  {
    OnePieceTable(rows);
    OnePieceIds(rows);
    RequestEight(input);
    FixedVersionRequestEight(rows, input);
  }

  lemma FixedVersionRequestFourteen(rows: seq<Row>, input: string)
    requires Tabulated(rows, [8.0, 7.0, 6.0, 5.0, 4.0, 3.0, 2.0, 1.0, 14.0, 13.0], [1, 1, 1, 1, 1, 1, 1, 1, 2, 2]) && RequestedNumber(input) == Some(14.0)
    ensures IdOf(ResolveChapterNew(Entries(rows), input)) == Some(rows[8].id)
  {
    ChapterIndices();
    FixedVersionPicks(rows, input, [8.0, 7.0, 6.0, 5.0, 4.0, 3.0, 2.0, 1.0, 14.0, 13.0], [1, 1, 1, 1, 1, 1, 1, 1, 2, 2], 14.0, 8);
  }

  lemma FixedVersionChapterFourteen(rows: seq<Row>, input: string)
    requires rows == OnePieceRows() && input == "14"
    ensures IdOf(ResolveChapterNew(Entries(rows), input)) == Some("/manga/one_piece/v02/c014/1.html")
  {
    OnePieceTable(rows);
    OnePieceIds(rows);
    RequestFourteen(input);
    FixedVersionRequestFourteen(rows, input);
  }

  // The first table under the old version: the volume number is taken for the chapter.

  lemma OldVersionRequestOne(rows: seq<Row>, input: string)
    requires Tabulated(rows, [8.0, 7.0, 6.0, 5.0, 4.0, 3.0, 2.0, 1.0, 14.0, 13.0], [1, 1, 1, 1, 1, 1, 1, 1, 2, 2]) && RequestedInt(input) == Some(1)
    ensures IdOf(ResolveChapterOld(Entries(rows), input)) == Some(rows[0].id)
  {
    VolumeIndices();
    OldVersionPicks(rows, input, [8.0, 7.0, 6.0, 5.0, 4.0, 3.0, 2.0, 1.0, 14.0, 13.0], [1, 1, 1, 1, 1, 1, 1, 1, 2, 2], 1, 0);
  }

  /** Request "1" returns chapter 8, the first row of volume 1. */
  lemma OldVersionChapterOne(rows: seq<Row>, input: string)
    requires rows == OnePieceRows() && input == "1"
    ensures IdOf(ResolveChapterOld(Entries(rows), input)) == Some("/manga/one_piece/v01/c008/1.html")
  {
    OnePieceTable(rows);
    OnePieceIds(rows);
    RequestOne(input);
    OldVersionRequestOne(rows, input);
  }

  lemma OldVersionRequestTwo(rows: seq<Row>, input: string)
    requires Tabulated(rows, [8.0, 7.0, 6.0, 5.0, 4.0, 3.0, 2.0, 1.0, 14.0, 13.0], [1, 1, 1, 1, 1, 1, 1, 1, 2, 2]) && RequestedInt(input) == Some(2)
    ensures IdOf(ResolveChapterOld(Entries(rows), input)) == Some(rows[8].id)
  {
    VolumeIndices();
    OldVersionPicks(rows, input, [8.0, 7.0, 6.0, 5.0, 4.0, 3.0, 2.0, 1.0, 14.0, 13.0], [1, 1, 1, 1, 1, 1, 1, 1, 2, 2], 2, 8);
  }

  /** Request "2" returns chapter 14, the first row of volume 2. */
  lemma OldVersionChapterTwo(rows: seq<Row>, input: string)
    requires rows == OnePieceRows() && input == "2"
    ensures IdOf(ResolveChapterOld(Entries(rows), input)) == Some("/manga/one_piece/v02/c014/1.html")
  {
    OnePieceTable(rows);
    OnePieceIds(rows);
    RequestTwo(input);
    OldVersionRequestTwo(rows, input);
  }

  lemma OldVersionRequestEight(rows: seq<Row>, input: string)
    requires Tabulated(rows, [8.0, 7.0, 6.0, 5.0, 4.0, 3.0, 2.0, 1.0, 14.0, 13.0], [1, 1, 1, 1, 1, 1, 1, 1, 2, 2]) && RequestedInt(input) == Some(8)
    ensures ResolveChapterOld(Entries(rows), input) == None
  {
    VolumeIndices();
    OldVersionMisses(rows, input, [8.0, 7.0, 6.0, 5.0, 4.0, 3.0, 2.0, 1.0, 14.0, 13.0], [1, 1, 1, 1, 1, 1, 1, 1, 2, 2], 8);
  }

  /** Request "8" finds nothing: no row is in volume 8. */
  lemma OldVersionChapterEight(rows: seq<Row>, input: string)
    requires rows == OnePieceRows() && input == "8"
    ensures ResolveChapterOld(Entries(rows), input) == None
  {
    OnePieceTable(rows);
    OnePieceIds(rows);
    RequestEight(input);
    OldVersionRequestEight(rows, input);
  }

  lemma OldVersionRequestFourteen(rows: seq<Row>, input: string)
    requires Tabulated(rows, [8.0, 7.0, 6.0, 5.0, 4.0, 3.0, 2.0, 1.0, 14.0, 13.0], [1, 1, 1, 1, 1, 1, 1, 1, 2, 2]) && RequestedInt(input) == Some(14)
    ensures ResolveChapterOld(Entries(rows), input) == None
  {
    VolumeIndices();
    OldVersionMisses(rows, input, [8.0, 7.0, 6.0, 5.0, 4.0, 3.0, 2.0, 1.0, 14.0, 13.0], [1, 1, 1, 1, 1, 1, 1, 1, 2, 2], 14);
  }

  /** Request "14" finds nothing: no row is in volume 14. */
  lemma OldVersionChapterFourteen(rows: seq<Row>, input: string)
    requires rows == OnePieceRows() && input == "14"
    ensures ResolveChapterOld(Entries(rows), input) == None
  {
    OnePieceTable(rows);
    OnePieceIds(rows);
    RequestFourteen(input);
    OldVersionRequestFourteen(rows, input);
  }

  // The second table under the fixed version: whole and part chapters are told apart.

  lemma DecimalRequestEight(rows: seq<Row>, input: string)
    requires Tabulated(rows, [132.5, 132.0, 8.1, 8.0], [132, 132, 1, 1]) && RequestedNumber(input) == Some(8.0)
    ensures IdOf(ResolveChapterNew(Entries(rows), input)) == Some(rows[3].id)
  {
    DecimalIndices();
    FixedVersionPicks(rows, input, [132.5, 132.0, 8.1, 8.0], [132, 132, 1, 1], 8.0, 3);
  }

  /** Request "8" skips chapter 8.1 and returns chapter 8. */
  lemma DecimalChapterEight(rows: seq<Row>, input: string)
    requires rows == DecimalRows() && input == "8"
    ensures IdOf(ResolveChapterNew(Entries(rows), input)) == Some("/manga/69/v01/c008/1.html")
  {
    DecimalTable(rows);
    DecimalIds(rows);
    RequestEight(input);
    DecimalRequestEight(rows, input);
  }

  lemma DecimalRequestEightOne(rows: seq<Row>, input: string)
    requires Tabulated(rows, [132.5, 132.0, 8.1, 8.0], [132, 132, 1, 1]) && RequestedNumber(input) == Some(8.1)
    ensures IdOf(ResolveChapterNew(Entries(rows), input)) == Some(rows[2].id)
  {
    DecimalIndices();
    FixedVersionPicks(rows, input, [132.5, 132.0, 8.1, 8.0], [132, 132, 1, 1], 8.1, 2);
  }

  lemma DecimalChapterEightOne(rows: seq<Row>, input: string)
    requires rows == DecimalRows() && input == "8.1"
    ensures IdOf(ResolveChapterNew(Entries(rows), input)) == Some("/manga/69/v01/c008.1/1.html")
  {
    DecimalTable(rows);
    DecimalIds(rows);
    RequestEightOne(input);
    DecimalRequestEightOne(rows, input);
  }

  lemma DecimalRequest132(rows: seq<Row>, input: string)
    requires Tabulated(rows, [132.5, 132.0, 8.1, 8.0], [132, 132, 1, 1]) && RequestedNumber(input) == Some(132.0)
    ensures IdOf(ResolveChapterNew(Entries(rows), input)) == Some(rows[1].id)
  {
    DecimalIndices();
    FixedVersionPicks(rows, input, [132.5, 132.0, 8.1, 8.0], [132, 132, 1, 1], 132.0, 1);
  }

  /** Request "132" skips chapter 132.5 and returns chapter 132. */
  lemma DecimalChapter132(rows: seq<Row>, input: string)
    requires rows == DecimalRows() && input == "132"
    ensures IdOf(ResolveChapterNew(Entries(rows), input)) == Some("/manga/ana_satsujin/c132/1.html")
  {
    DecimalTable(rows);
    DecimalIds(rows);
    Request132(input);
    DecimalRequest132(rows, input);
  }

  lemma DecimalRequest132Five(rows: seq<Row>, input: string)
    requires Tabulated(rows, [132.5, 132.0, 8.1, 8.0], [132, 132, 1, 1]) && RequestedNumber(input) == Some(132.5)
    ensures IdOf(ResolveChapterNew(Entries(rows), input)) == Some(rows[0].id)
  {
    DecimalIndices();
    FixedVersionPicks(rows, input, [132.5, 132.0, 8.1, 8.0], [132, 132, 1, 1], 132.5, 0);
  }

  lemma DecimalChapter132Five(rows: seq<Row>, input: string)
    requires rows == DecimalRows() && input == "132.5"
    ensures IdOf(ResolveChapterNew(Entries(rows), input)) == Some("/manga/ana_satsujin/c132.5/1.html")
  {
    DecimalTable(rows);
    DecimalIds(rows);
    Request132Five(input);
    DecimalRequest132Five(rows, input);
  }
}
