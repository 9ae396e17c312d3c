/**
 * What the `/news` handler does with each parsed feed: cap it at 20 items, resolve each
 * item's image and category, build the article record, and append the feed's articles
 * to the running list. A feed whose parse threw contributes nothing.
 */
module Articles {
  import opened JsValues
  import opened TextClean
  import opened ImageScrape

  /** A feed of the configuration list: its name, its URL and its logo (`profile`). */
  datatype Feed = Feed(name: string, url: string, profile: string)

  /** The fields of one parsed feed item that the handler reads; each may be `undefined`. */
  datatype Item = Item(
    title: Option<string>,
    link: Option<string>,
    pubDate: Option<string>,
    contentSnippet: Option<string>,
    content: Option<string>,
    enclosureUrl: Option<string>,       // item.enclosure?.url
    mediaContentUrl: Option<string>,    // item["media:content"]?.url
    categories: Option<seq<string>>)    // item.categories

  /** The record the handler emits for one item. */
  datatype Article = Article(
    source: string,
    category: string,
    title: string,
    link: Option<string>,
    description: string,
    image: string,
    pubDate: string,
    profile: string)

  /** The result of `parser.parseURL(feed.url)`: it threw, or it gave these items. */
  datatype FeedOutcome = Fail | Items(items: seq<Item>)

  /** One configured feed with the outcome of fetching it. */
  datatype Fetched = Fetched(feed: Feed, outcome: FeedOutcome)

  /** At most this many items are taken from each feed. */
  const ITEM_LIMIT: nat := 20

  /** The category used when neither the item nor the feed gives one. */
  const DEFAULT_CATEGORY: string := "समाचार"

  /** Categories for feeds whose items often carry none. */
  const SOURCE_CATEGORY: map<string, string> := map[
    "Techpana" := "प्रविधि",
    "BizMandu" := "अर्थ",
    "SwasthyaKhabar" := "स्वास्थ्य",
    "BBC Nepali" := "अन्तर्राष्ट्रिय"]

  function Min(a: nat, b: nat): nat
  {
    if a <= b then a else b
  }

  // ---------------------------------------------------------------- image

  /** The chosen image and the URL scraped for it, if a scrape happened. */
  datatype ImageChoice = ImageChoice(image: string, scraped: Option<string>)

  /** `item.enclosure?.url || item["media:content"]?.url || ""`, then a scrape of
      `item.link` when that is empty and the link is truthy. `fetch` stands for
      requesting and loading a page. */
  function ResolveImage(item: Item, fetch: string -> Page): (r: ImageChoice)
    ensures Truthy(item.enclosureUrl) ==> r == ImageChoice(item.enclosureUrl.value, None)
    ensures !Truthy(item.enclosureUrl) && Truthy(item.mediaContentUrl)
      ==> r == ImageChoice(item.mediaContentUrl.value, None)
    ensures r.scraped.Some?
      <==> !Truthy(item.enclosureUrl) && !Truthy(item.mediaContentUrl) && Truthy(item.link)
    ensures r.scraped.Some? ==> r.scraped == item.link && r.image == ScrapeImage(fetch(item.link.value))
    ensures (!Truthy(item.enclosureUrl) && !Truthy(item.mediaContentUrl) && !Truthy(item.link))
      ==> r.image == ""
  {
    var embedded := OrEmpty(Or(Or(item.enclosureUrl, item.mediaContentUrl), Some("")));
    if embedded == "" && Truthy(item.link) then
      ImageChoice(ScrapeImage(fetch(item.link.value)), item.link)
    else
      ImageChoice(embedded, None)
  }

  /** The whole image chain is one fallback chain: enclosure, media content, then the
      scrape's four selectors, the scrape counting only when the item has a link. */
  lemma ImageChain(item: Item, fetch: string -> Page)
    ensures Truthy(item.link) && fetch(item.link.value).Loaded? ==>
      ResolveImage(item, fetch).image
        == FirstTruthy([item.enclosureUrl, item.mediaContentUrl] + Candidates(fetch(item.link.value)))
    ensures !Truthy(item.link) || fetch(item.link.value).Fail? ==>
      ResolveImage(item, fetch).image == FirstTruthy([item.enclosureUrl, item.mediaContentUrl])
  {
  }

  // ---------------------------------------------------------------- category

  /** `item.categories?.[0] || SOURCE_CATEGORY[feed.name] || "समाचार"`. */
  function ResolveCategory(categories: Option<seq<string>>, feedName: string): (r: string)
    ensures r != ""
    ensures categories.Some? && |categories.value| > 0 && categories.value[0] != ""
      ==> r == categories.value[0]
    ensures !(categories.Some? && |categories.value| > 0 && categories.value[0] != "")
      ==> r == (if feedName in SOURCE_CATEGORY then SOURCE_CATEGORY[feedName] else DEFAULT_CATEGORY)
  {
    var first := match categories
      case Some(cs) => if |cs| > 0 then Some(cs[0]) else None
      case None => None;
    var configured := if feedName in SOURCE_CATEGORY then Some(SOURCE_CATEGORY[feedName]) else None;
    OrEmpty(Or(Or(first, configured), Some(DEFAULT_CATEGORY)))
  }

  // ---------------------------------------------------------------- article record

  /** The record built for one item of `feed`. */
  function BuildArticle(feed: Feed, item: Item, fetch: string -> Page): (a: Article)
    ensures a.source == feed.name && a.profile == feed.profile
  {
    Article(
      feed.name,
      ResolveCategory(item.categories, feed.name),
      CleanText(item.title),
      item.link,
      CleanText(Some(OrEmpty(Or(Or(item.contentSnippet, item.content), Some(""))))),
      ResolveImage(item, fetch).image,
      CleanPubDate(item.pubDate),
      feed.profile)
  }

  /** What every record promises: it is tagged with its feed, keeps the item's link,
      has a non-empty category and the resolved image, and its text fields are in the
      normal forms of `cleanText` and `cleanPubDate`. */
  lemma BuildArticleShape(feed: Feed, item: Item, fetch: string -> Page)
    ensures var a := BuildArticle(feed, item, fetch);
      && a.source == feed.name && a.profile == feed.profile && a.link == item.link
      && a.category == ResolveCategory(item.categories, feed.name) && a.category != ""
      && a.image == ResolveImage(item, fetch).image && a.pubDate == CleanPubDate(item.pubDate)
      && a.title == CleanText(item.title)
      && Trimmed(a.title) && NoDoubleWs(a.title) && WsIsSpace(a.title) && NoTag(a.title)
      && NoNbsp(a.title)
      && Trimmed(a.description) && NoDoubleWs(a.description) && WsIsSpace(a.description)
      && NoTag(a.description) && NoNbsp(a.description)
      && Trimmed(a.pubDate) && NoCtl(a.pubDate)
  {
    CleanTextNormalForm(item.title);
    CleanTextNormalForm(Some(OrEmpty(Or(Or(item.contentSnippet, item.content), Some("")))));
  }

  /** The description is the cleaned `contentSnippet` when that is truthy, else the
      cleaned `content` when that is, else empty. */
  lemma DescriptionSource(feed: Feed, item: Item, fetch: string -> Page)
    ensures var d := BuildArticle(feed, item, fetch).description;
      && (Truthy(item.contentSnippet) ==> d == CleanText(item.contentSnippet))
      && (!Truthy(item.contentSnippet) && Truthy(item.content) ==> d == CleanText(item.content))
      && (!Truthy(item.contentSnippet) && !Truthy(item.content) ==> d == "")
  {
  }

  /** The articles of one feed that parsed: `items.slice(0, 20).map(...)`, one record
      per item among the first 20, in item order. */
  function FeedArticles(feed: Feed, items: seq<Item>, fetch: string -> Page): (r: seq<Article>)
    ensures |r| == Min(ITEM_LIMIT, |items|)
    ensures forall i :: 0 <= i < |r| ==> r[i] == BuildArticle(feed, items[i], fetch)
    ensures forall a :: a in r ==> a.source == feed.name && a.profile == feed.profile
  {
    seq(Min(ITEM_LIMIT, |items|), i requires 0 <= i < Min(ITEM_LIMIT, |items|) =>
      BuildArticle(feed, items[i], fetch))
  }

  // ---------------------------------------------------------------- accumulation

  /** What one feed adds to the list: nothing when its parse threw. */
  function Contribution(f: Fetched, fetch: string -> Page): (r: seq<Article>)
    ensures f.outcome.Fail? ==> r == []
    ensures |r| <= ITEM_LIMIT
  {
    match f.outcome
    case Fail => []
    case Items(items) => FeedArticles(f.feed, items, fetch)
  }

  function PartOf(fetch: string -> Page): Fetched -> seq<Article>
  {
    f => Contribution(f, fetch)
  }

  /** The list after appending `part(f)` for each feed `f` in turn. */
  function Concat(fs: seq<Fetched>, part: Fetched -> seq<Article>): seq<Article>
  {
    if fs == [] then [] else Concat(fs[..|fs| - 1], part) + part(fs[|fs| - 1])
  }

  /** The article list the handler accumulates. */
  function Gather(fs: seq<Fetched>, fetch: string -> Page): seq<Article>
  {
    Concat(fs, PartOf(fetch))
  }

  /** How many articles the feeds yield: `min(20, |items|)` for each feed that parsed. */
  function Count(fs: seq<Fetched>): (n: nat)
    ensures n <= ITEM_LIMIT * |fs|
  {
    if fs == [] then 0
    else
      Count(fs[..|fs| - 1]) + match fs[|fs| - 1].outcome
        case Fail => 0
        case Items(items) => Min(ITEM_LIMIT, |items|)
  }

  /** Appending the feeds of `b` after those of `a` appends their parts. */
  lemma {:induction false} ConcatAppend(a: seq<Fetched>, b: seq<Fetched>, part: Fetched -> seq<Article>)
    ensures Concat(a + b, part) == Concat(a, part) + Concat(b, part)
    decreases |b|
  {
    if b != [] {
      var b', x := b[..|b| - 1], b[|b| - 1];
      assert (a + b)[..|a + b| - 1] == a + b';
      assert (a + b)[|a + b| - 1] == x;
      ConcatAppend(a, b', part);
    } else {
      assert a + b == a;
    }
  }

  /** Feed `k`'s part sits in one block between the parts of the feeds before it and
      those of the feeds after it. */
  lemma {:induction false} ConcatSplit(fs: seq<Fetched>, k: nat, part: Fetched -> seq<Article>)
    requires k < |fs|
    ensures Concat(fs, part) == Concat(fs[..k], part) + part(fs[k]) + Concat(fs[k + 1..], part)
    decreases |fs|
  {
    var n := |fs| - 1;
    var post := fs[k + 1..];
    if k == n {
      assert fs[..n] == fs[..k] && post == [];
    } else {
      ConcatSplit(fs[..n], k, part);
      assert fs[..n][..k] == fs[..k] && fs[..n][k] == fs[k];
      assert post[..|post| - 1] == fs[..n][k + 1..] && post[|post| - 1] == fs[n];
    }
  }

  /** A feed whose part is empty can be left out. */
  lemma ConcatSkipEmpty(fs: seq<Fetched>, k: nat, part: Fetched -> seq<Article>)
    requires k < |fs| && part(fs[k]) == []
    ensures Concat(fs, part) == Concat(fs[..k] + fs[k + 1..], part)
  {
    ConcatSplit(fs, k, part);
    ConcatAppend(fs[..k], fs[k + 1..], part);
  }

  /** The order in which the parts are appended changes the order of the list but
      not its contents. */
  lemma {:induction false} ConcatOrder(fs: seq<Fetched>, gs: seq<Fetched>, part: Fetched -> seq<Article>)
    requires multiset(fs) == multiset(gs)
    ensures multiset(Concat(fs, part)) == multiset(Concat(gs, part))
    decreases |fs|
  {
    if fs == [] {
      assert |gs| == |multiset(gs)| == 0;
    } else {
      var n := |fs| - 1;
      var x := fs[n];
      assert fs == fs[..n] + [x];
      assert x in multiset(gs);
      var j :| 0 <= j < |gs| && gs[j] == x;
      assert gs == gs[..j] + [x] + gs[j + 1..];
      var rest := gs[..j] + gs[j + 1..];
      calc {
        multiset(fs[..n]);
        multiset(fs) - multiset{x};
        multiset(gs) - multiset{x};
        multiset(rest);
      }
      ConcatOrder(fs[..n], rest, part);
      ConcatSplit(gs, j, part);
      ConcatAppend(gs[..j], gs[j + 1..], part);
    }
  }

  /** Reading one more feed appends its contribution. */
  lemma GatherStep(fs: seq<Fetched>, i: nat, fetch: string -> Page)
    requires i < |fs|
    ensures Gather(fs[..i + 1], fetch) == Gather(fs[..i], fetch) + Contribution(fs[i], fetch)
  {
    assert fs[..i + 1][..i] == fs[..i];
    assert PartOf(fetch)(fs[i]) == Contribution(fs[i], fetch);
  }

  /** The list holds exactly as many articles as the feeds that parsed yield. */
  lemma {:induction false} GatherLength(fs: seq<Fetched>, fetch: string -> Page)
    ensures |Gather(fs, fetch)| == Count(fs)
  {
    if fs != [] {
      GatherLength(fs[..|fs| - 1], fetch);
      var x := fs[|fs| - 1];
      assert PartOf(fetch)(x) == Contribution(x, fetch);
    }
  }

  /** Feed `k`'s articles sit in one block that depends only on feed `k`: whatever the
      other feeds do, failing included, they neither add to nor take from it. */
  lemma GatherSplit(fs: seq<Fetched>, k: nat, fetch: string -> Page)
    requires k < |fs|
    ensures Gather(fs, fetch)
      == Gather(fs[..k], fetch) + Contribution(fs[k], fetch) + Gather(fs[k + 1..], fetch)
  {
    ConcatSplit(fs, k, PartOf(fetch));
    assert PartOf(fetch)(fs[k]) == Contribution(fs[k], fetch);
  }

  /** A feed whose parse threw adds nothing: the list is that of the other feeds. */
  lemma FailedFeedAddsNothing(fs: seq<Fetched>, k: nat, fetch: string -> Page)
    requires k < |fs| && fs[k].outcome.Fail?
    ensures Gather(fs, fetch) == Gather(fs[..k] + fs[k + 1..], fetch)
  {
    assert PartOf(fetch)(fs[k]) == [];
    ConcatSkipEmpty(fs, k, PartOf(fetch));
  }

  /** The order in which the feeds are appended (for instance the order in which
      their requests complete) changes the order of the list but not its contents. */
  lemma GatherOrderIrrelevant(fs: seq<Fetched>, gs: seq<Fetched>, fetch: string -> Page)
    requires multiset(fs) == multiset(gs)
    ensures multiset(Gather(fs, fetch)) == multiset(Gather(gs, fetch))
  {
    ConcatOrder(fs, gs, PartOf(fetch));
  }

  /** Every article comes from a feed that parsed and carries that feed's name and logo. */
  lemma {:induction false} GatherTagged(fs: seq<Fetched>, fetch: string -> Page, a: Article)
    requires a in Gather(fs, fetch)
    ensures exists k :: (0 <= k < |fs| && fs[k].outcome.Items?
      && a.source == fs[k].feed.name && a.profile == fs[k].feed.profile)
  {
    var n := |fs| - 1;
    var x := fs[n];
    assert PartOf(fetch)(x) == Contribution(x, fetch);
    if a in Gather(fs[..n], fetch) {
      GatherTagged(fs[..n], fetch, a);
      var k :| 0 <= k < n && fs[..n][k].outcome.Items?
        && a.source == fs[..n][k].feed.name && a.profile == fs[..n][k].feed.profile;
      assert fs[k] == fs[..n][k];
    } else {
      assert a in Contribution(x, fetch);
      assert x.outcome.Items?;
    }
  }

  /** When every feed fails the list is empty (and the handler still stores it). */
  lemma {:induction false} AllFailedYieldsNothing(fs: seq<Fetched>, fetch: string -> Page)
    requires forall k :: 0 <= k < |fs| ==> fs[k].outcome.Fail?
    ensures Gather(fs, fetch) == []
  {
    if fs != [] {
      var n := |fs| - 1;
      AllFailedYieldsNothing(fs[..n], fetch);
      assert PartOf(fetch)(fs[n]) == [];
    }
  }
}
