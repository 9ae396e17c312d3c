# News feed aggregator: the `/news` pipeline in Dafny

`server.js` serves one route, `GET /news`. It reads a fixed list of RSS feeds and keeps
at most 20 items per feed. For each item it works out an image and a category and cleans
the text fields. It merges all feeds' articles, sorts them newest first and keeps the
list in a module-level cache for ten minutes. This project models the deterministic part
of that route. The network, the feed parser, the HTML parser, the clock and date parsing
are inputs to the model.

Modules (one file each):

- `JsValues` (`js_values.dfy`): `undefined` as `Option.None`, and the JavaScript
  truthiness of a string-or-undefined that every `a || b` in the handler relies on.
- `TextClean` (`text_clean.dfy`): `cleanText` and `cleanPubDate`. Each regular-expression
  `replace` is a left-to-right scan, as a global replace performs it. `\s` and `trim` use
  the ECMAScript WhiteSpace and LineTerminator code points.
- `ImageScrape` (`image_scrape.dfy`): the selector chain of `fetchArticleImage`, applied
  to a `Page`. A `Page` is either `Fail` (the request or the parse threw) or the four
  attribute lookups the scrape performs.
- `Articles` (`articles.dfy`): the image fallback chain, the category precedence, the
  article record, and the cap of 20 items per feed. It also holds the list the handler
  builds by appending each feed's articles (`Gather`). A feed whose parse threw is a
  `Fail` outcome.
- `NewsRoute` (`news_route.dfy`): the `CACHE` object as a class with `data` and `time`
  fields. `Handle` is the route handler. It serves the stored list while fresh.
  Otherwise it loops over the feeds, appends their articles, sorts the array in place
  and overwrites both fields.

## Model

| member | source | states |
|---|---|---|
| `JsValues.Truthy` | server.js:143-161 | defines truthiness of a string-or-`undefined`: falsy means `undefined` or `""` |
| `JsValues.Or` | server.js:143-161 | `a || b`: the left value when it is truthy, otherwise the right one; the result is truthy exactly when either operand is |
| `JsValues.OrEmpty` | server.js:74-83 | the `= ""` default parameter: only `undefined` takes the default, and the result is non-empty exactly when the argument is truthy |
| `TextClean.IsWs` | server.js:78-79 | defines the whitespace set of `\s` and `trim`: the ECMAScript WhiteSpace and LineTerminator code points |
| `TextClean.CharCi` | server.js:77 | defines the `i` flag's matching of a pattern letter: the letter itself or its ASCII upper-case form |
| `TextClean.NbspAt` | server.js:77 | defines a match of `/&nbsp;/i` at a position: six characters spelling `&nbsp;` in any ASCII letter case |
| `TextClean.StripTags` | server.js:76 | no complete tag (`<` followed later by `>`) is left |
| `TextClean.StripTagsChars` | server.js:76 | removing tags introduces no character |
| `TextClean.ReplaceNbsp` | server.js:77 | the "no complete tag" property is kept |
| `TextClean.ReplaceNbspChars` | server.js:77 | the only character the replacement introduces is the space |
| `TextClean.ReplaceNbspNoNbsp` | server.js:77 | no case-insensitive `&nbsp;` is left, not even one the replacements could assemble from pieces |
| `TextClean.CollapseWs` | server.js:78 | no two adjacent whitespace characters; every whitespace character is `' '`; the first character is whitespace exactly when the input's is; no complete tag is created |
| `TextClean.CollapseWsChars` | server.js:78 | the only character collapsing introduces is the space |
| `TextClean.CollapseNoNbsp` | server.js:78 | collapsing whitespace creates no `&nbsp;` |
| `TextClean.LeadingWs` | server.js:79 | the leading run is all whitespace, and the character after it is not |
| `TextClean.TrailingWsStart` | server.js:79 | the trailing run is all whitespace, and the character before it is not |
| `TextClean.Trim` | server.js:79 | the result has no whitespace at either end |
| `TextClean.TrimSlice` | server.js:79 | `trim` keeps one contiguous slice and removes only whitespace around it |
| `TextClean.CleanText` | server.js:74-80 | an absent argument gives `""` |
| `TextClean.CleanTextNormalForm` | server.js:74-80 | the output is trimmed, has no double whitespace, every whitespace is `' '`, and it has no complete tag and no `&nbsp;` in any case |
| `TextClean.CleanTextNoNbsp` | server.js:74-80 | the cleaned text contains no `&nbsp;` in any letter case, even after the later steps |
| `TextClean.CleanTextIdempotent` | server.js:74-80 | `cleanText(cleanText(x)) == cleanText(x)` |
| `TextClean.StripTagsFixed` | server.js:76 | tag stripping leaves a tag-free string unchanged |
| `TextClean.ReplaceNbspFixed` | server.js:77 | the `&nbsp;` replacement leaves an `&nbsp;`-free string unchanged |
| `TextClean.CollapseFixed` | server.js:78 | collapsing leaves unchanged a string with single `' '` separators |
| `TextClean.BlankControls` | server.js:84 | the length is unchanged and each `\n`, `\r`, `\t` becomes `' '` one for one; other characters are kept |
| `TextClean.CleanPubDate` | server.js:83-85 | an absent argument gives `""`; the result is trimmed and holds no `\n`, `\r` or `\t` |
| `ImageScrape.FirstTruthy` | server.js:94-105 | reference fallback chain: `""` if and only if no candidate is truthy; otherwise the value of the first truthy candidate |
| `ImageScrape.ScrapeImage` | server.js:88-109 | a failed page gives `""`; a loaded page gives the first truthy of og:image, twitter:image, `article img` src, first `img` src |
| `ImageScrape.ScrapeOrder` | server.js:94-105 | selector by selector: og:image wins, then twitter:image, then the article image, then the first image; `""` if and only if none is truthy |
| `Articles.ResolveImage` | server.js:142-150 | a truthy enclosure URL wins, then a truthy media:content URL; a scrape of `item.link` happens exactly when both are falsy and the link is truthy; no link gives `""` |
| `Articles.ImageChain` | server.js:142-150 | the whole image choice is one fallback chain: enclosure, media content, then the scrape's four selectors |
| `Articles.ResolveCategory` | server.js:154-157 | the first item category if truthy, else the feed's `SOURCE_CATEGORY` entry, else `"समाचार"`; never empty |
| `Articles.BuildArticle` | server.js:152-164 | the record carries the feed's name and profile |
| `Articles.BuildArticleShape` | server.js:152-164 | the record keeps the link; its category is the resolved one and non-empty; its date is `cleanPubDate` of the item's; its image is the resolved one; the title and description are in `cleanText` normal form (trimmed, single spaces, no complete tag, no `&nbsp;`); the date is trimmed and free of `\n`, `\r`, `\t` |
| `Articles.FeedArticles` | server.js:138-166 | the first 20 items mapped: exactly `min(20, |items|)` records; record `i` is built from item `i`; all are tagged with the feed's name and profile |
| `Articles.Contribution` | server.js:136-171 | what one feed adds: nothing when its parse threw, otherwise its mapped items; never more than 20 articles |
| `Articles.Gather` | server.js:132-172 | defines the accumulated list: each feed's contribution appended in turn |
| `Articles.Count` | server.js:138-168 | defines the expected length, `min(20, |items|)` per parsed feed; at most 20 per feed |
| `Articles.DescriptionSource` | server.js:160 | the description is the cleaned `contentSnippet` if truthy, else the cleaned `content` if truthy, else `""` |
| `Articles.ConcatAppend` | server.js:168 | appending the feeds of `b` after those of `a` appends their articles |
| `Articles.ConcatOrder` | server.js:134-168 | the order in which feeds are appended does not change the multiset of articles |
| `Articles.GatherLength` | server.js:134-172 | the list length is the sum of `min(20, |items|)` over the feeds that parsed |
| `Articles.GatherSplit` | server.js:134-172 | feed `k`'s articles form one block that depends only on feed `k` |
| `Articles.FailedFeedAddsNothing` | server.js:169-171 | a feed whose parse threw contributes nothing; the list equals that of the other feeds |
| `Articles.GatherOrderIrrelevant` | server.js:134-173 | permuting the feed completion order permutes the list (same multiset) |
| `Articles.GatherTagged` | server.js:152-163 | every article carries the name and profile of a feed that parsed |
| `Articles.AllFailedYieldsNothing` | server.js:132-173 | when every feed fails, the list is empty |
| `NewsRoute.NewsCache.IsFresh` | server.js:123 | defines the freshness test: a list is stored (an empty list counts, `[]` being truthy) and it is less than `CACHE_DURATION` old |
| `NewsRoute.CollectArticles` | server.js:132-173 | the loop over the feeds builds exactly the list `Gather` defines: each parsed feed's articles appended in turn |
| `NewsRoute.SwapDown` | server.js:176 | one swap of the sort: the out-of-place entry moves one place left; the first `i + 1` entries keep their multiset and the rest of the array is unchanged |
| `NewsRoute.InsertLeft` | server.js:176 | one insertion step: the first `i + 1` entries become newest first and are a permutation of their old contents; the entries after them are unchanged |
| `NewsRoute.SortNewestFirst` | server.js:176 | in place: afterwards the array is non-increasing by timestamp and is a permutation of its old contents |
| `NewsRoute.NewsCache.constructor` | server.js:112-115 | `data` is null and `time` is 0 |
| `NewsRoute.NewsCache.Handle` | server.js:120-186 | if `data` is set and `now - time < 600000`, the stored list is returned unchanged with `total` its length, and no field changes. Otherwise the response is a permutation of the gathered articles, newest first, with `total` equal to its length and to the per-feed count; `data` becomes that list and `time` the second clock reading |
| `NewsRoute.CacheScenario` | server.js:123-179 | on a new cache: the first request refreshes; a request less than ten minutes after the store gets the same list from the cache; a request ten minutes or more after refreshes again |

## Left out

- Express setup, `cors()`, `app.listen` and the `PORT` variable (server.js:1-15, 196-199) are framework plumbing.
- `parser.parseURL`, `axios.get` with its 4000 ms timeout and the cheerio selectors are foreign libraries. They are inputs: `FeedOutcome` for a feed, and a `string -> Page` function for the page of an article URL. Because it is a function, two scrapes of the same URL see the same page.
- The fan-out through `Promise.all` (server.js:134-173) is modelled as a sequential loop in the order the feeds appear in `fetched`. Under concurrency, `articles.push` runs in completion order; `GatherOrderIrrelevant` states that any such order gives the same multiset.
- Two requests that overlap while the cache is stale would each refresh it, and the last write would win. Concurrency between requests is not modelled.
- `new Date(pubDate)` and the subtraction in the sort comparator are abstracted as an integer key function. The ordering `NewsRoute.SortNewestFirst` proves therefore holds only when every `pubDate` parses. With an unparseable date the comparator returns `NaN`, and the resulting order depends on the engine.
- `console.log` (server.js:170, 198), the outer HTTP 500 path (server.js:187-192) and the constant `status: "success"` field of the response are not modelled.
- The literal `FEEDS` list (server.js:19-61) is not modelled: feeds are parameters. `SOURCE_CATEGORY` is modelled as a map from feed names. A lookup that would hit an inherited `Object.prototype` key is not modelled.
- Item fields are modelled as strings or `undefined`; `null` and non-string values are not modelled. In JavaScript a `null` `contentSnippet`, `content`, `enclosure.url` or `media:content` URL is falsy and falls through `||` like `undefined` (server.js:143-144, 160). A `null` `link` skips the scrape and is stored as `link: null` (server.js:148, 159). A truthy non-string first category, such as an object, becomes `category` unchanged (server.js:155). A `null` or non-string `title` or `pubDate`, or a truthy non-string `contentSnippet` (or `content` when the snippet is falsy), throws in `cleanText` or `cleanPubDate` (server.js:158, 160, 162); that rejects the per-item `Promise.all` (server.js:140-141), and the catch at server.js:169 drops the whole feed.
- Millisecond times are unbounded integers, not IEEE doubles.
- `server.js` has no feed retries, no category filter, no per-source caches, no rewriting of relative image URLs to absolute ones and no fall-back of the date to the fetch time, so the model has none either. `pubDate` stays a cleaned string, a scraped image URL may be relative, and the link is passed through even when it is `undefined`.
- A refresh in which every feed fails still stores the empty list, and that list is served for ten minutes (`Articles.AllFailedYieldsNothing` together with `NewsRoute.NewsCache.Handle`). The model keeps this behaviour of the code.
