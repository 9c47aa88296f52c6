/** Character classes and string helpers standing in for the few Python
    string operations the clients use (`str.lower`, `str.strip`, `in`,
    `str.isdigit`, `\d`, `\w`, `\s`, `int(...)`, `str(int)`, `f"{i:03d}"`).
    Letters, digits and word characters are the ASCII ones; whitespace is the
    complete set Python's `str.isspace` accepts. */
module Text {
  import opened Wrappers

  predicate IsDigit(c: char) { '0' <= c <= '9' }

  predicate IsUpper(c: char) { 'A' <= c <= 'Z' }

  predicate IsLetter(c: char) { IsUpper(c) || 'a' <= c <= 'z' }

  /** `\w`: letters, digits and the underscore. */
  predicate IsWordChar(c: char) { IsLetter(c) || IsDigit(c) || c == '_' }

  /** `str.isspace` and `\s`: the Unicode whitespace characters. */
  predicate IsSpace(c: char) {
    || '\t' <= c <= '\r'
    || '\U{1C}' <= c <= '\U{1F}'
    || c == ' ' || c == '\U{85}' || c == '\U{A0}' || c == '\U{1680}'
    || '\U{2000}' <= c <= '\U{200A}'
    || c == '\U{2028}' || c == '\U{2029}' || c == '\U{202F}' || c == '\U{205F}' || c == '\U{3000}'
  }

  predicate AllDigits(s: string) { forall i :: 0 <= i < |s| ==> IsDigit(s[i]) }

  predicate AllSpace(s: string) { forall i :: 0 <= i < |s| ==> IsSpace(s[i]) }

  function LowerChar(c: char): char {
    if IsUpper(c) then (c as int - 'A' as int + 'a' as int) as char else c
  }

  /** `str.lower()`. */
  function Lower(s: string): (r: string)
    ensures |r| == |s|
  {
    seq(|s|, i requires 0 <= i < |s| => LowerChar(s[i]))
  }

  lemma LowerAppend(a: string, b: string)
    ensures Lower(a + b) == Lower(a) + Lower(b)
  {
  }

  lemma LowerOfNonUpper(s: string)
    requires forall i :: 0 <= i < |s| ==> !IsUpper(s[i])
    ensures Lower(s) == s
  {
  }

  /** `str.lstrip()`: drops the leading whitespace. */
  function StripLeft(s: string): (r: string)
    ensures |r| <= |s| && r == s[|s| - |r|..]
    ensures |r| > 0 ==> !IsSpace(r[0])
    ensures AllSpace(s[..|s| - |r|])
  {
    if |s| > 0 && IsSpace(s[0]) then StripLeft(s[1..]) else s
  }

  lemma StripLeftUnchanged(s: string)
    requires |s| == 0 || !IsSpace(s[0])
    ensures StripLeft(s) == s
  {
  }

  /** `lstrip` drops exactly a leading whitespace run. */
  lemma {:induction false} StripLeftSpaces(spaces: string, s: string)
    requires AllSpace(spaces)
    requires |s| == 0 || !IsSpace(s[0])
    ensures StripLeft(spaces + s) == s
    decreases |spaces|
  {
    if |spaces| == 0 {
      assert spaces + s == s;
      StripLeftUnchanged(s);
    } else {
      assert (spaces + s)[1..] == spaces[1..] + s;
      StripLeftSpaces(spaces[1..], s);
    }
  }

  /** `str.rstrip()`: drops the trailing whitespace. */
  function StripRight(s: string): (r: string)
    ensures |r| <= |s| && r == s[..|r|]
    ensures |r| > 0 ==> !IsSpace(r[|r| - 1])
    ensures AllSpace(s[|r|..])
  {
    if |s| > 0 && IsSpace(s[|s| - 1]) then StripRight(s[..|s| - 1]) else s
  }

  /** `str.strip()`. */
  function Strip(s: string): string {
    StripRight(StripLeft(s))
  }

  /** `s` is its stripped form between two runs of whitespace. */
  lemma StripParts(s: string) returns (pre: string, post: string)
    ensures s == pre + (Strip(s) + post)
    ensures AllSpace(pre) && AllSpace(post)
  {
    var l := StripLeft(s);
    var m := StripRight(l);
    pre := s[..|s| - |l|];
    post := l[|m|..];
    SplitRight(s, l);
    SplitLeft(l, m);
  }

  lemma SplitRight(s: string, l: string)
    requires |l| <= |s| && l == s[|s| - |l|..]
    ensures s == s[..|s| - |l|] + l
  {
  }

  lemma SplitLeft(l: string, m: string)
    requires |m| <= |l| && m == l[..|m|]
    ensures l == m + l[|m|..]
  {
  }

  /** A blank string strips to nothing, in either case. */
  lemma StripBlank(s: string)
    requires AllSpace(s)
    ensures Strip(s) == [] && Strip(Lower(s)) == []
  {
    assert AllSpace(Lower(s));
    assert |StripLeft(s)| == 0 && |StripLeft(Lower(s))| == 0;
  }

  lemma ContainsEmpty(s: string)
    ensures Contains(s, [])
  {
    assert s[..0] == [];
  }

  lemma StripUnchanged(s: string)
    requires |s| > 0 && !IsSpace(s[0]) && !IsSpace(s[|s| - 1])
    ensures Strip(s) == s
  {
  }

  /** Python's `sub in s`. */
  predicate Contains(s: string, sub: string)
    decreases |s|
  {
    || (|sub| <= |s| && s[..|sub|] == sub)
    || (|s| > 0 && Contains(s[1..], sub))
  }

  lemma ContainsAt(s: string, sub: string, i: nat)
    requires i + |sub| <= |s| && s[i..i + |sub|] == sub
    ensures Contains(s, sub)
    decreases i
  {
    if i > 0 {
      assert s[1..][i - 1..i - 1 + |sub|] == sub;
      ContainsAt(s[1..], sub, i - 1);
    }
  }

  lemma MiddleSlice(a: string, b: string, c: string)
    ensures (a + (b + c))[|a|..|a| + |b|] == b
  {
    assert forall i :: 0 <= i < |b| ==> (a + (b + c))[|a| + i] == b[i];
  }

  /** The value of a string of decimal digits, as `int(...)` reads it. */
  function DigitsValue(s: string): nat
    requires AllDigits(s)
  {
    if |s| == 0 then 0
    else DigitsValue(s[..|s| - 1]) * 10 + (s[|s| - 1] as int - '0' as int)
  }

  /** The number of leading digits of `s`. */
  function DigitRun(s: string): (n: nat)
    ensures n <= |s|
    ensures AllDigits(s[..n])
    ensures n < |s| ==> !IsDigit(s[n])
  {
    if |s| > 0 && IsDigit(s[0]) then 1 + DigitRun(s[1..]) else 0
  }

  /** `str(n)` for a natural number. */
  function NatToString(n: nat): (s: string)
    ensures |s| > 0 && AllDigits(s)
  {
    if n < 10 then [('0' as int + n) as char]
    else NatToString(n / 10) + [('0' as int + n % 10) as char]
  }

  /** `f"{n:0<width>d}"`: `n` in decimal, padded on the left with zeros to
      at least `width` characters. */
  function ZeroPad(n: nat, width: nat): (s: string)
    ensures |s| > 0 && |s| >= width && AllDigits(s)
  {
    var d := NatToString(n);
    if |d| >= width then d else seq(width - |d|, _ => '0') + d
  }

  /** `str(n)` for an integer. */
  function IntToString(n: int): string {
    if n < 0 then "-" + NatToString(-n) else NatToString(n)
  }

  /** The leftmost maximal run of digits, `re.search(r'\d+', s)`, which is
      also the first element of `re.findall(r'\d+', s)`. */
  function FirstDigitRun(s: string): (r: Option<string>)
    ensures r.Some? ==> |r.value| > 0 && AllDigits(r.value)
    ensures r.None? <==> forall i :: 0 <= i < |s| ==> !IsDigit(s[i])
  {
    if |s| == 0 then None
    else if IsDigit(s[0]) then Some(s[..DigitRun(s)])
    else
      assert forall i :: 1 <= i < |s| ==> s[i] == s[1..][i - 1];
      FirstDigitRun(s[1..])
  }

  lemma {:induction false} DigitRunOf(d: string, tail: string)
    requires AllDigits(d)
    requires |tail| == 0 || !IsDigit(tail[0])
    ensures DigitRun(d + tail) == |d|
  {
    if |d| > 0 {
      assert (d + tail)[1..] == d[1..] + tail;
      DigitRunOf(d[1..], tail);
    } else {
      assert d + tail == tail;
    }
  }

  /** Digits preceded only by non-digits and followed by a non-digit form
      the first digit run. */
  lemma {:induction false} FirstDigitRunOf(pre: string, d: string, tail: string)
    requires forall i :: 0 <= i < |pre| ==> !IsDigit(pre[i])
    requires |d| > 0 && AllDigits(d)
    requires |tail| == 0 || !IsDigit(tail[0])
    ensures FirstDigitRun(pre + (d + tail)) == Some(d)
  {
    if |pre| > 0 {
      assert (pre + (d + tail))[0] == pre[0];
      assert (pre + (d + tail))[1..] == pre[1..] + (d + tail);
      FirstDigitRunOf(pre[1..], d, tail);
    } else {
      assert pre + (d + tail) == d + tail;
      DigitRunOf(d, tail);
      assert (d + tail)[..|d|] == d;
    }
  }
}
