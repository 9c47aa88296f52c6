/** Linear searches over lists, in list order: the `for x in xs: if p(x):
    return x` loops that every resolver in the clients is built from. */
module Search {
  import opened Wrappers

  /** The position of the first element satisfying `p`. */
  function FirstIndex<T>(s: seq<T>, p: T -> bool): (r: Option<nat>)
    ensures r.Some? ==> r.value < |s| && p(s[r.value])
    ensures r.Some? ==> forall j :: 0 <= j < r.value ==> !p(s[j])
    ensures r.None? <==> forall j :: 0 <= j < |s| ==> !p(s[j])
  {
    if |s| == 0 then None
    else if p(s[0]) then Some(0)
    else
      match FirstIndex(s[1..], p)
      case None => None
      case Some(i) => Some(i + 1)
  }

  /** The first element satisfying `p`. */
  function FindFirst<T>(s: seq<T>, p: T -> bool): (r: Option<T>)
    ensures r.Some? ==> r.value in s && p(r.value)
    ensures r.None? <==> forall j :: 0 <= j < |s| ==> !p(s[j])
  {
    match FirstIndex(s, p)
    case None => None
    case Some(i) => Some(s[i])
  }

  /** Python's `s[:n]`: the first `n` elements, or for a negative `n` all
      but the last `-n`. */
  function Take<T>(s: seq<T>, n: int): (r: seq<T>)
    ensures r <= s
    ensures 0 <= n ==> |r| == if n <= |s| then n else |s|
    ensures n < 0 ==> |r| == if -n <= |s| then |s| + n else 0
  {
    if 0 <= n then (if n <= |s| then s[..n] else s)
    else if -n <= |s| then s[..|s| + n]
    else []
  }

  /** The elements satisfying `p`, in order. */
  function Filter<T>(s: seq<T>, p: T -> bool): (r: seq<T>)
    ensures |r| <= |s|
    ensures forall j :: 0 <= j < |r| ==> p(r[j]) && r[j] in s
    ensures |r| == 0 <==> forall j :: 0 <= j < |s| ==> !p(s[j])
  {
    assert forall j :: 1 <= j < |s| ==> s[j] == s[1..][j - 1];
    if |s| == 0 then []
    else (if p(s[0]) then [s[0]] else []) + Filter(s[1..], p)
  }

  lemma {:induction false} FilterAppend<T>(a: seq<T>, b: seq<T>, p: T -> bool)
    ensures Filter(a + b, p) == Filter(a, p) + Filter(b, p)
  {
    if |a| > 0 {
      assert (a + b)[0] == a[0];
      assert (a + b)[1..] == a[1..] + b;
      FilterAppend(a[1..], b, p);
      var h := if p(a[0]) then [a[0]] else [];
      assert Filter(a + b, p) == h + Filter(a[1..] + b, p);
      assert Filter(a, p) == h + Filter(a[1..], p);
    } else {
      assert a + b == b;
    }
  }

  /** An element is kept exactly when it satisfies `p`. */
  lemma {:induction false} FilterKeeps<T>(s: seq<T>, p: T -> bool, x: T)
    ensures x in Filter(s, p) <==> x in s && p(x)
  {
    if |s| > 0 {
      FilterKeeps(s[1..], p, x);
      assert x in s <==> x == s[0] || x in s[1..];
    }
  }

  /** Nothing is dropped when every element satisfies `p`. */
  lemma {:induction false} FilterAll<T>(s: seq<T>, p: T -> bool)
    requires forall j :: 0 <= j < |s| ==> p(s[j])
    ensures Filter(s, p) == s
  {
    if |s| > 0 {
      assert forall j :: 0 <= j < |s[1..]| ==> s[1..][j] == s[j + 1];
      FilterAll(s[1..], p);
      assert [s[0]] + s[1..] == s;
    }
  }

  /** The requests `f` finds nothing for. */
  function Misses<Q, R>(f: Q -> Option<R>): Q -> bool {
    (q: Q) => f(q).None?
  }

  /** What `f` finds for each request, in request order, skipping the
      requests it finds nothing for: the `matched` list of a batch lookup
      whose `missing` list is `Filter(qs, Misses(f))`. */
  function Hits<Q, R>(qs: seq<Q>, f: Q -> Option<R>): (r: seq<R>)
    ensures |r| <= |qs|
  {
    if |qs| == 0 then []
    else
      var rest := Hits(qs[1..], f);
      match f(qs[0])
      case Some(c) => [c] + rest
      case None => rest
  }

  /** Every hit is what `f` found for some request. */
  lemma {:induction false} HitsFound<Q, R>(qs: seq<Q>, f: Q -> Option<R>, k: nat)
    requires k < |Hits(qs, f)|
    ensures exists j :: 0 <= j < |qs| && f(qs[j]) == Some(Hits(qs, f)[k])
  {
    var rest := Hits(qs[1..], f);
    if f(qs[0]).Some? && k == 0 {
      assert f(qs[0]) == Some(Hits(qs, f)[k]);
    } else {
      var k' := if f(qs[0]).Some? then k - 1 else k;
      assert Hits(qs, f)[k] == rest[k'];
      HitsFound(qs[1..], f, k');
      var j :| 0 <= j < |qs[1..]| && f(qs[1..][j]) == Some(rest[k']);
      assert f(qs[j + 1]) == Some(Hits(qs, f)[k]);
    }
  }

  lemma {:induction false} HitsAppend<Q, R>(a: seq<Q>, b: seq<Q>, f: Q -> Option<R>)
    ensures Hits(a + b, f) == Hits(a, f) + Hits(b, f)
  {
    if |a| > 0 {
      assert (a + b)[0] == a[0];
      assert (a + b)[1..] == a[1..] + b;
      HitsAppend(a[1..], b, f);
    } else {
      assert a + b == b;
    }
  }

  lemma HitsOne<Q, R>(q: Q, f: Q -> Option<R>)
    ensures Hits([q], f) == if f(q).Some? then [f(q).value] else []
  {
    assert [q][1..] == [];
  }

  lemma FilterOne<T>(x: T, p: T -> bool)
    ensures Filter([x], p) == if p(x) then [x] else []
  {
    assert [x][1..] == [];
  }

  /** Looks every request up with `f`, in order, collecting what is found
      and, separately, the requests nothing is found for. */
  method LookUpAll<Q, R>(qs: seq<Q>, f: Q -> Option<R>) returns (hits: seq<R>, misses: seq<Q>)
    ensures hits == Hits(qs, f)
    ensures misses == Filter(qs, Misses(f))
    ensures |hits| + |misses| == |qs|
  {
    hits, misses := [], [];
    var i := 0;
    while i < |qs|
      invariant i <= |qs|
      invariant |hits| + |misses| == i
      invariant hits == Hits(qs[..i], f)
      invariant misses == Filter(qs[..i], Misses(f))
    {
      assert qs[..i + 1] == qs[..i] + [qs[i]];
      HitsAppend(qs[..i], [qs[i]], f);
      FilterAppend(qs[..i], [qs[i]], Misses(f));
      HitsOne(qs[i], f);
      FilterOne(qs[i], Misses(f));
      match f(qs[i]) {
        case Some(r) => hits := hits + [r];
        case None => misses := misses + [qs[i]];
      }
      i := i + 1;
    }
    assert qs[..i] == qs;
  }

  /** Each request is either a hit or a miss. */
  lemma {:induction false} HitsCount<Q, R>(qs: seq<Q>, f: Q -> Option<R>)
    ensures |Hits(qs, f)| + |Filter(qs, Misses(f))| == |qs|
  {
    if |qs| > 0 {
      HitsCount(qs[1..], f);
    }
  }

  /** Nothing is missing exactly when every request is found, and then
      there is one hit per request. */
  lemma NoMisses<Q, R>(qs: seq<Q>, f: Q -> Option<R>)
    ensures |Filter(qs, Misses(f))| == 0 <==> forall j :: 0 <= j < |qs| ==> f(qs[j]).Some?
    ensures |Filter(qs, Misses(f))| == 0 <==> |Hits(qs, f)| == |qs|
  {
    HitsCount(qs, f);
  }

  /** Two lookups that never both find something, nor both miss, split the
      requests between them. */
  lemma {:induction false} HitsPartition<Q, R, S>(qs: seq<Q>, f: Q -> Option<R>, g: Q -> Option<S>)
    requires forall j :: 0 <= j < |qs| ==> f(qs[j]).Some? != g(qs[j]).Some?
    ensures |Hits(qs, f)| + |Hits(qs, g)| == |qs|
  {
    if |qs| > 0 {
      assert forall j :: 0 <= j < |qs[1..]| ==> qs[1..][j] == qs[j + 1];
      HitsPartition(qs[1..], f, g);
    }
  }

  /** A property every found value has is shared by all the hits. */
  lemma {:induction false} HitsAll<Q, R>(qs: seq<Q>, f: Q -> Option<R>, p: R -> bool)
    requires forall j :: 0 <= j < |qs| ==> f(qs[j]).Some? ==> p(f(qs[j]).value)
    ensures forall k :: 0 <= k < |Hits(qs, f)| ==> p(Hits(qs, f)[k])
  {
    if |qs| > 0 {
      assert forall j :: 0 <= j < |qs[1..]| ==> qs[1..][j] == qs[j + 1];
      HitsAll(qs[1..], f, p);
    }
  }
}
