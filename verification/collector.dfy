/** The chapter-pattern collector: paging through a source's manga list up
    to a limit (`get_all_manga`), and sampling the first chapters of each
    manga (`collect_from_manga_list`). The API is an oracle: `pages(p)` is
    how the retried request for page `p` ended, `fetch(id)` how the retried
    chapter-list request for manga `id` ended. */
module Collector {
  import opened Wrappers
  import opened Records
  import opened Search
  import opened Retry
  import opened Responses

  // ---------------------------------------------------------------------
  // get_all_manga
  // ---------------------------------------------------------------------

  /** What one page contributes: the loop stops, or it receives a
      non-empty page and the `meta.totalPages` that came with it. */
  datatype Page<T> = Halt | Items(items: seq<T>, totalPages: int)

  /** One page: an object whose `success` is true and whose `data` is not
      empty feeds the loop; a missing `success` key, `success: false`, an
      empty page, a body without `.get` and a failed request all stop it.
      A missing `meta.totalPages` reads as 0. */
  function ReadPage<T>(reply: Final<Body<T>>): (p: Page<T>)
    ensures p.Items? ==> |p.items| > 0
    ensures p.Items? <==> reply.Returned? && reply.value.Object? && reply.value.success == Some(true)
                          && |reply.value.data.GetOr([])| > 0
  {
    match reply
    case Returned(body) =>
      (match body
       case Object(success, data, _, total) =>
         if success == Some(true) && |data.GetOr([])| > 0 then Items(data.GetOr([]), total.GetOr(0)) else Halt
       case _ => Halt)
    case _ => Halt
  }

  /** Room left under the limit; it shrinks with every page that lets the
      loop go on. */
  function Room(limit: int, n: nat): nat {
    if limit > n then limit - n else 0
  }

  /** The loop of `get_all_manga` from page `page` on, with `acc` fetched
      so far: a page that reaches the limit ends it with the first `limit`
      items, and so does reaching `totalPages`. */
  function CollectFrom<T>(pages: nat -> Final<Body<T>>, limit: int, page: nat, acc: seq<T>): (r: seq<T>)
    ensures 0 <= limit ==> |r| <= limit || r == acc
    ensures |acc| <= limit ==> acc <= r
    decreases Room(limit, |acc|)
  {
    match ReadPage(pages(page))
    case Halt => acc
    case Items(items, total) =>
      var all := acc + items;
      if |all| >= limit then Take(all, limit)
      else if page >= total then all
      else
        var r := CollectFrom(pages, limit, page + 1, all);
        assert acc <= all;
        r
  }

  /** `get_all_manga(source, limit)`. */
  function GetAllManga<T>(pages: nat -> Final<Body<T>>, limit: int): seq<T> {
    CollectFrom(pages, limit, 1, [])
  }

  /** Never more than `limit` manga. */
  lemma AtMostLimit<T>(pages: nat -> Final<Body<T>>, limit: int)
    requires 0 <= limit
    ensures |GetAllManga(pages, limit)| <= limit
  {
  }

  /** A first page that already reaches the limit is cut to its first
      `limit` items, and nothing more is asked for. */
  lemma FirstPageReachesLimit<T>(pages: nat -> Final<Body<T>>, limit: int, items: seq<T>, total: int)
    requires ReadPage(pages(1)) == Items(items, total)
    requires limit <= |items|
    ensures GetAllManga(pages, limit) == Take(items, limit)
  {
    assert [] + items == items;
  }

  /** Without `meta.totalPages` the loop stops after the first page. */
  lemma NoMetaStopsAfterFirstPage<T>(pages: nat -> Final<Body<T>>, limit: int, items: seq<T>)
    requires ReadPage(pages(1)) == Items(items, 0)
    ensures GetAllManga(pages, limit) == if |items| >= limit then Take(items, limit) else items
  {
    assert [] + items == items;
  }

  /** An example of the page order: two full pages under the limit, with a
      third that stops the loop, give the first page's items followed by
      the second's. In general every page read extends what was fetched
      before it (`CollectFrom`'s second postcondition). */
  lemma PagesInOrder<T>(pages: nat -> Final<Body<T>>, limit: int, a: seq<T>, b: seq<T>, total: int)
    requires ReadPage(pages(1)) == Items(a, total) && ReadPage(pages(2)) == Items(b, total)
    requires 2 < total && |a| + |b| < limit
    requires ReadPage(pages(3)) == Halt
    ensures GetAllManga(pages, limit) == a + b
  {
    assert [] + a == a;
    calc {
      GetAllManga(pages, limit);
      CollectFrom(pages, limit, 2, a);
      CollectFrom(pages, limit, 3, a + b);
    }
  }

  /** The loop as the source writes it: `while True` with four exits. */
  method GetAllMangaLoop<T>(pages: nat -> Final<Body<T>>, limit: int) returns (all: seq<T>)
    ensures all == GetAllManga(pages, limit)
    ensures 0 <= limit ==> |all| <= limit
  {
    all := [];
    var page: nat := 1;
    while true
      invariant CollectFrom(pages, limit, page, all) == GetAllManga(pages, limit)
      invariant page == 1 || |all| < limit
      decreases Room(limit, |all|)
    {
      var p := ReadPage(pages(page));
      if p.Halt? {
        break;
      }
      all := all + p.items;
      if |all| >= limit {
        all := Take(all, limit);
        break;
      }
      if page >= p.totalPages {
        break;
      }
      page := page + 1;
    }
  }

  // ---------------------------------------------------------------------
  // collect_from_manga_list
  // ---------------------------------------------------------------------

  /** One sampled chapter: its 1-based position and its `id` and `title`. */
  datatype Sample = Sample(index: nat, id: string, title: string)

  /** What is appended to `collected_data` for one manga. */
  datatype Entry = Entry(source: string, mangaId: string, mangaTitle: string, totalChapters: nat, samples: seq<Sample>)

  /** The first `n` chapters, numbered from 1. */
  function Samples(chapters: seq<Chapter>, n: int): (r: seq<Sample>)
    ensures |r| == |Take(chapters, n)|
    ensures forall i :: 0 <= i < |r| ==>
              r[i] == Sample(i + 1, chapters[i].id, chapters[i].title)
  {
    var sample := Take(chapters, n);
    seq(|sample|, i requires 0 <= i < |sample| => Sample(i + 1, sample[i].id, sample[i].title))
  }

  /** The entry for one manga, or nothing when it has no id or no
      chapters. */
  function CollectOne(source: string, m: Manga, fetch: string -> Final<Body<Chapter>>, n: int): (r: Option<Entry>)
    ensures r.Some? ==> r.value.mangaId == m.id && m.id != [] && r.value.totalChapters > 0
  {
    if m.id == [] then None
    else
      var chapters := CollectorItems(fetch(m.id));
      if |chapters| == 0 then None
      else Some(Entry(source, m.id, m.title, |chapters|, Samples(chapters, n)))
  }

  /** `collect_from_manga_list`: the entries it appends, in list order. The
      count it returns is their number. */
  function CollectFromMangaList(source: string, mangaList: seq<Manga>, fetch: string -> Final<Body<Chapter>>, n: int): (r: seq<Entry>)
    ensures |r| <= |mangaList|
    ensures forall k :: 0 <= k < |r| ==> r[k].mangaId != [] && r[k].totalChapters > 0
    ensures 0 <= n ==> forall k :: 0 <= k < |r| ==> |r[k].samples| <= n
  {
    if |mangaList| == 0 then []
    else
      var rest := CollectFromMangaList(source, mangaList[1..], fetch, n);
      match CollectOne(source, mangaList[0], fetch, n)
      case Some(e) => [e] + rest
      case None => rest
  }

  /** Every manga with an id whose chapter list comes back non-empty is
      collected, and only those. */
  lemma {:induction false} CollectedCount(source: string, mangaList: seq<Manga>, fetch: string -> Final<Body<Chapter>>, n: int)
    ensures |CollectFromMangaList(source, mangaList, fetch, n)|
            == |Filter(mangaList, (m: Manga) => m.id != [] && |CollectorItems(fetch(m.id))| > 0)|
  {
    if |mangaList| > 0 {
      CollectedCount(source, mangaList[1..], fetch, n);
    }
  }
}
