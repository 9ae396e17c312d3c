/**
 * The `/news` route: a process-wide cache of the last article list with the time it
 * was built, served while it is younger than ten minutes; otherwise every feed is
 * read in turn, the articles are sorted newest first and the cache is overwritten.
 * The clock, the feed parser and the page fetcher are parameters.
 */
module NewsRoute {
  import opened JsValues
  import opened ImageScrape
  import opened Articles

  /** How long a stored list is served, in milliseconds (10 minutes). */
  const CACHE_DURATION: int := 10 * 60 * 1000

  /** The JSON body of a successful response. */
  datatype Response = Response(cached: bool, total: int, articles: seq<Article>)

  /** Non-increasing by the timestamp `key` (the parsed `pubDate`). */
  predicate NewestFirst(s: seq<Article>, key: Article -> int)
  {
    forall i, j :: 0 <= i < j < |s| ==> key(s[i]) >= key(s[j])
  }

  /** `articles.sort((a, b) => key(b) - key(a))`, in place: an insertion sort that
      moves each article left past the older ones. */
  method SortNewestFirst(a: array<Article>, key: Article -> int)
    modifies a
    ensures NewestFirst(a[..], key)
    ensures multiset(a[..]) == multiset(old(a[..]))
  {
    var i := 0;
    while i < a.Length
      invariant 0 <= i <= a.Length
      invariant NewestFirst(a[..i], key)
      invariant multiset(a[..]) == multiset(old(a[..]))
    {
      InsertLeft(a, i, key);
      i := i + 1;
    }
    assert a[..] == a[..a.Length];
  }

  /** Non-increasing by `key` except possibly at position `j`, which may be newer than
      the article before it. */
  predicate NewestFirstBut(s: seq<Article>, j: int, key: Article -> int)
  {
    forall p, q :: 0 <= p < q < |s| && q != j ==> key(s[p]) >= key(s[q])
  }

  /** Swapping the out-of-place article with the older one before it moves the gap
      one place left. */
  lemma SwapLeft(s: seq<Article>, j: nat, key: Article -> int)
    requires 0 < j < |s| && NewestFirstBut(s, j, key) && key(s[j - 1]) < key(s[j])
    ensures NewestFirstBut(s[j - 1 := s[j]][j := s[j - 1]], j - 1, key)
  {
  }

  /** Once the out-of-place article is no newer than the one before it (or is
      first), the whole sequence is newest first. */
  lemma GapClosed(s: seq<Article>, j: nat, key: Article -> int)
    requires j < |s| && NewestFirstBut(s, j, key)
    requires j > 0 ==> key(s[j - 1]) >= key(s[j])
    ensures NewestFirst(s, key)
  {
  }

  /** Swapping two entries keeps the multiset. */
  lemma SwapPerm(s: seq<Article>, p: nat, q: nat)
    requires p < q < |s|
    ensures multiset(s[p := s[q]][q := s[p]]) == multiset(s)
  {
  }

  /** Two sequences that agree after position `n` and hold the same multiset before
      it hold the same multiset. */
  lemma PermPrefix(s: seq<Article>, t: seq<Article>, n: nat)
    requires n <= |s| == |t| && multiset(s[..n]) == multiset(t[..n]) && s[n..] == t[n..]
    ensures multiset(s) == multiset(t)
  {
    assert s == s[..n] + s[n..];
    assert t == t[..n] + t[n..];
  }

  /** Swaps the out-of-place article at `j` with the older one before it, inside the
      first `i + 1` entries. */
  method SwapDown(a: array<Article>, i: nat, j: nat, key: Article -> int)
    requires 0 < j <= i < a.Length
    requires NewestFirstBut(a[..i + 1], j, key) && key(a[j - 1]) < key(a[j])
    modifies a
    ensures NewestFirstBut(a[..i + 1], j - 1, key)
    ensures multiset(a[..i + 1]) == multiset(old(a[..i + 1]))
    ensures a[i + 1..] == old(a[i + 1..])
  {
    ghost var s := a[..i + 1];
    SwapLeft(s, j, key);
    SwapPerm(s, j - 1, j);
    a[j - 1], a[j] := a[j], a[j - 1];
    assert a[..i + 1] == s[j - 1 := s[j]][j := s[j - 1]];
  }

  /** One step of the sort: `a[i]` moves left past every older article, so the first
      `i + 1` articles end up newest first. */
  method InsertLeft(a: array<Article>, i: nat, key: Article -> int)
    requires i < a.Length && NewestFirst(a[..i], key)
    modifies a
    ensures NewestFirst(a[..i + 1], key)
    ensures multiset(a[..i + 1]) == multiset(old(a[..i + 1]))
    ensures a[i + 1..] == old(a[i + 1..])
    ensures multiset(a[..]) == multiset(old(a[..]))
  {
    var j := i;
    while j > 0 && key(a[j - 1]) < key(a[j])
      invariant 0 <= j <= i
      invariant NewestFirstBut(a[..i + 1], j, key)
      invariant multiset(a[..i + 1]) == multiset(old(a[..i + 1]))
      invariant a[i + 1..] == old(a[i + 1..])
    {
      SwapDown(a, i, j, key);
      j := j - 1;
    }
    GapClosed(a[..i + 1], j, key);
    PermPrefix(a[..], old(a[..]), i + 1);
  }

  /** The fan-out over the feeds, one feed after another: each feed that parsed
      appends its articles, a feed whose parse threw appends nothing. */
  method CollectArticles(fetched: seq<Fetched>, fetch: string -> Page)
      returns (articles: seq<Article>)
    ensures articles == Gather(fetched, fetch)
  {
    articles := [];
    var i := 0;
    while i < |fetched|
      invariant 0 <= i <= |fetched|
      invariant articles == Gather(fetched[..i], fetch)
    {
      GatherStep(fetched, i, fetch);
      match fetched[i].outcome {
        case Fail =>
          assert Contribution(fetched[i], fetch) == [];
        case Items(items) =>
          articles := articles + FeedArticles(fetched[i].feed, items, fetch);
      }
      i := i + 1;
    }
    assert fetched[..i] == fetched;
  }

  /** The module-level `CACHE` object. */
  class NewsCache {
    /** `CACHE.data`: `null` until the first refresh, then the last list built. */
    var data: Option<seq<Article>>
    /** `CACHE.time`: when that list was stored, in milliseconds. */
    var time: int

    constructor ()
      ensures data == None && time == 0
    {
      data := None;
      time := 0;
    }

    /** `CACHE.data && Date.now() - CACHE.time < CACHE_DURATION`; an empty list is
        still a stored list, since `[]` is truthy. */
    predicate IsFresh(now: int)
      reads this
    {
      data.Some? && now - time < CACHE_DURATION
    }

    /** The handler. `now` is the clock read for the freshness test, `doneAt` the one
        read when the new list is stored; `fetched` pairs each configured feed with the
        outcome of parsing it, in the order the handler appends them. */
    method Handle(now: int, doneAt: int, fetched: seq<Fetched>, fetch: string -> Page,
                  key: Article -> int) returns (res: Response)
      modifies this
      ensures old(IsFresh(now)) ==>
        && res == Response(true, |old(data).value|, old(data).value)
        && data == old(data) && time == old(time)
      ensures !old(IsFresh(now)) ==>
        && !res.cached && res.total == |res.articles| == Count(fetched)
        && multiset(res.articles) == multiset(Gather(fetched, fetch))
        && NewestFirst(res.articles, key)
        && data == Some(res.articles) && time == doneAt
    {
      if IsFresh(now) {
        return Response(true, |data.value|, data.value);
      }
      var articles := CollectArticles(fetched, fetch);
      GatherLength(fetched, fetch);
      var sorted := new Article[|articles|](k requires 0 <= k < |articles| => articles[k]);
      assert sorted[..] == articles;
      SortNewestFirst(sorted, key);
      data := Some(sorted[..]);
      time := doneAt;
      res := Response(false, sorted.Length, sorted[..]);
    }
  }

  /** Three requests on a fresh process: the first builds the list, the second, less
      than ten minutes after that list was stored, is served the same list from the
      cache, and the third, ten minutes or more after, builds the list again. */
  method CacheScenario(t1: int, t1Done: int, t2: int, t3: int, t3Done: int,
                       fetched: seq<Fetched>, later: seq<Fetched>,
                       fetch: string -> Page, key: Article -> int)
      returns (first: Response, second: Response, third: Response)
    requires t2 - t1Done < CACHE_DURATION <= t3 - t1Done
    ensures !first.cached && multiset(first.articles) == multiset(Gather(fetched, fetch))
    ensures second.cached && second.articles == first.articles && second.total == first.total
    ensures !third.cached && multiset(third.articles) == multiset(Gather(later, fetch))
  {
    var cache := new NewsCache();
    first := cache.Handle(t1, t1Done, fetched, fetch, key);
    second := cache.Handle(t2, t2, later, fetch, key);
    third := cache.Handle(t3, t3Done, later, fetch, key);
  }
}
