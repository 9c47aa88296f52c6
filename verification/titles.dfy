/** `_normalize_title`, identical in both services: lower-case, remove every
    character that is neither a word character nor whitespace, then remove
    the whitespace. Used only to compare titles. */
module Titles {
  import opened Text

  /** `re.sub(r'[^\w\s]', '', s)`. */
  function DropPunctuation(s: string): string {
    if |s| == 0 then []
    else (if IsWordChar(s[0]) || IsSpace(s[0]) then [s[0]] else []) + DropPunctuation(s[1..])
  }

  /** `re.sub(r'\s+', '', s)`. */
  function DropSpace(s: string): string {
    if |s| == 0 then []
    else (if IsSpace(s[0]) then [] else [s[0]]) + DropSpace(s[1..])
  }

  function Normalize(title: string): (r: string)
    ensures forall i :: 0 <= i < |r| ==> IsWordChar(r[i]) && !IsUpper(r[i])
  {
    NormalizedChars(Lower(title));
    DropSpace(DropPunctuation(Lower(title)))
  }

  /** The word characters of `s`, in order. */
  function WordChars(s: string): string {
    if |s| == 0 then [] else (if IsWordChar(s[0]) then [s[0]] else []) + WordChars(s[1..])
  }

  lemma {:induction false} WordCharsAppend(a: string, b: string)
    ensures WordChars(a + b) == WordChars(a) + WordChars(b)
  {
    if |a| > 0 {
      assert (a + b)[0] == a[0];
      assert (a + b)[1..] == a[1..] + b;
      WordCharsAppend(a[1..], b);
      var h := if IsWordChar(a[0]) then [a[0]] else [];
      assert WordChars(a + b) == h + WordChars(a[1..] + b);
      assert WordChars(a) == h + WordChars(a[1..]);
    } else {
      assert a + b == b;
    }
  }

  lemma {:induction false} DropBoth(s: string)
    ensures DropSpace(DropPunctuation(s)) == WordChars(s)
  {
    if |s| > 0 {
      DropBoth(s[1..]);
      var head := if IsWordChar(s[0]) || IsSpace(s[0]) then [s[0]] else [];
      DropSpaceAppend(head, DropPunctuation(s[1..]));
    }
  }

  lemma {:induction false} DropSpaceAppend(a: string, b: string)
    ensures DropSpace(a + b) == DropSpace(a) + DropSpace(b)
  {
    if |a| > 0 {
      assert (a + b)[0] == a[0];
      assert (a + b)[1..] == a[1..] + b;
      DropSpaceAppend(a[1..], b);
      var h := if IsSpace(a[0]) then [] else [a[0]];
      assert DropSpace(a + b) == h + DropSpace(a[1..] + b);
      assert DropSpace(a) == h + DropSpace(a[1..]);
    } else {
      assert a + b == b;
    }
  }

  lemma {:induction false} WordCharsAreWordChars(s: string)
    ensures forall i :: 0 <= i < |WordChars(s)| ==> IsWordChar(WordChars(s)[i])
  {
    if |s| > 0 {
      WordCharsAreWordChars(s[1..]);
    }
  }

  lemma NormalizedChars(s: string)
    requires forall i :: 0 <= i < |s| ==> !IsUpper(s[i])
    ensures forall i :: 0 <= i < |DropSpace(DropPunctuation(s))| ==>
              IsWordChar(DropSpace(DropPunctuation(s))[i]) && !IsUpper(DropSpace(DropPunctuation(s))[i])
  {
    DropBoth(s);
    WordCharsAreWordChars(s);
    WordCharsOfLower(s);
  }

  lemma {:induction false} WordCharsOfLower(s: string)
    requires forall i :: 0 <= i < |s| ==> !IsUpper(s[i])
    ensures forall i :: 0 <= i < |WordChars(s)| ==> !IsUpper(WordChars(s)[i])
  {
    if |s| > 0 {
      WordCharsOfLower(s[1..]);
    }
  }

  /** The two-step normalisation is the same as keeping the word characters
      of the lower-cased title. */
  lemma NormalizeIsWordFilter(title: string)
    ensures Normalize(title) == WordChars(Lower(title))
  {
    DropBoth(Lower(title));
  }

  lemma {:induction false} WordCharsUnchanged(s: string)
    requires forall i :: 0 <= i < |s| ==> IsWordChar(s[i])
    ensures WordChars(s) == s
  {
    if |s| > 0 {
      WordCharsUnchanged(s[1..]);
    }
  }

  /** Normalising twice is normalising once. */
  lemma NormalizeIdempotent(title: string)
    ensures Normalize(Normalize(title)) == Normalize(title)
  {
    var r := Normalize(title);
    NormalizeIsWordFilter(r);
    LowerOfNonUpper(r);
    WordCharsUnchanged(r);
  }

  lemma {:induction false} WordCharsOfSpace(s: string)
    requires AllSpace(s)
    ensures WordChars(Lower(s)) == []
  {
    if |s| > 0 {
      assert Lower(s)[1..] == Lower(s[1..]);
      WordCharsOfSpace(s[1..]);
    }
  }

  /** Letter case does not change the normalised title. */
  lemma NormalizeIgnoresCase(title: string)
    ensures Normalize(Lower(title)) == Normalize(title)
  {
    assert Lower(Lower(title)) == Lower(title);
  }

  lemma WordCharsBetweenSpace(pre: string, m: string, post: string)
    requires AllSpace(pre) && AllSpace(post)
    ensures WordChars(Lower(pre + (m + post))) == WordChars(Lower(m))
  {
    LowerAppend(pre, m + post);
    LowerAppend(m, post);
    WordCharsAppend(Lower(pre), Lower(m) + Lower(post));
    WordCharsAppend(Lower(m), Lower(post));
    WordCharsOfSpace(pre);
    WordCharsOfSpace(post);
  }

  lemma WordCharsIgnoreStrip(title: string)
    ensures WordChars(Lower(Strip(title))) == WordChars(Lower(title))
  {
    var pre, post := StripParts(title);
    WordCharsBetweenSpace(pre, Strip(title), post);
  }

  /** Surrounding whitespace does not change the normalised title. */
  lemma NormalizeIgnoresStrip(title: string)
    ensures Normalize(Strip(title)) == Normalize(title)
  {
    WordCharsIgnoreStrip(title);
    NormalizeIsWordFilter(title);
    NormalizeIsWordFilter(Strip(title));
  }

  /** A character that is not a word character disappears from the
      normalised form without disturbing its neighbours. */
  lemma WordCharsSkip(a: string, c: char, b: string)
    requires forall i :: 0 <= i < |a| ==> IsWordChar(a[i])
    requires !IsWordChar(c)
    ensures WordChars(a + ([c] + b)) == a + WordChars(b)
  {
    var t := [c] + b;
    assert t[0] == c && t[1..] == b;
    assert WordChars(t) == WordChars(b);
    WordCharsAppend(a, t);
    WordCharsUnchanged(a);
  }

  /** The first documented example: the hyphen and the space go. */
  lemma NormalizeOnePunchMan(title: string)
    requires title == "One-Punch Man"
    ensures Normalize(title) == "onepunchman"
  {
    var lowered := Lower(title);
    assert lowered == "one" + (['-'] + ("punch" + ([' '] + "man")));
    NormalizeIsWordFilter(title);
    WordCharsSkip("one", '-', "punch" + ([' '] + "man"));
    WordCharsSkip("punch", ' ', "man");
    WordCharsUnchanged("man");
  }

  /** The second documented example: the trailing full stop goes. */
  lemma NormalizeNamaikizakari(title: string)
    requires title == "Namaikizakari."
    ensures Normalize(title) == "namaikizakari"
  {
    var lowered := Lower(title);
    assert lowered == "namaikizakari" + (['.'] + []);
    NormalizeIsWordFilter(title);
    WordCharsSkip("namaikizakari", '.', []);
  }
}
