/**
 * `fetchArticleImage`: the page scrape that is the last step of the image fallback.
 * The HTTP request and the HTML parser are outside the model; what they produce for
 * one article URL is a `Page`.
 */
module ImageScrape {
  import opened JsValues

  /** The outcome of `axios.get(url, { timeout: 4000 })` followed by `cheerio.load`. */
  datatype Page =
    /** The request failed or timed out, or loading or querying the page threw. */
    | Fail
    /** The four attribute lookups the scrape performs, each `undefined` when the
        element or the attribute is absent. */
    | Loaded(
        ogImage: Option<string>,        // meta[property="og:image"] content
        twitterImage: Option<string>,   // meta[name="twitter:image"] content
        articleImgSrc: Option<string>,  // src of the first `article img`
        firstImgSrc: Option<string>)    // src of the first `img`

  /** Reference definition of a fallback chain: the value of the first truthy
      candidate, or `""` when there is none. */
  function FirstTruthy(candidates: seq<Option<string>>): (r: string)
    ensures r == "" <==> forall k :: 0 <= k < |candidates| ==> !Truthy(candidates[k])
    ensures r != "" ==> exists k :: (0 <= k < |candidates| && Truthy(candidates[k])
      && r == candidates[k].value && forall j :: 0 <= j < k ==> !Truthy(candidates[j]))
  {
    if candidates == [] then ""
    else if Truthy(candidates[0]) then candidates[0].value
    else
      var r := FirstTruthy(candidates[1..]);
      assert forall k :: 1 <= k < |candidates| ==> candidates[k] == candidates[1..][k - 1];
      r
  }

  /** The selectors in the order the scrape tries them. */
  function Candidates(page: Page): seq<Option<string>>
    requires page.Loaded?
  {
    [page.ogImage, page.twitterImage, page.articleImgSrc, page.firstImgSrc]
  }

  /** The scrape as the handler writes it: `og || twitter`, returned when truthy;
      otherwise `(articleImg || firstImg) || ""`. A failed page gives `""`. */
  function ScrapeImage(page: Page): (r: string)
    ensures page.Fail? ==> r == ""
    ensures page.Loaded? ==> r == FirstTruthy(Candidates(page))
  {
    match page
    case Fail => ""
    case Loaded(og, twitter, articleImg, firstImg) =>
      var meta := Or(og, twitter);
      if Truthy(meta) then meta.value
      else
        var c, tail := [og, twitter, articleImg, firstImg], [articleImg, firstImg];
        assert FirstTruthy([firstImg]) == (if Truthy(firstImg) then firstImg.value else "") by {
          assert [firstImg][1..] == [];
        }
        assert FirstTruthy(tail)
          == (if Truthy(articleImg) then articleImg.value else FirstTruthy([firstImg])) by {
          assert tail[1..] == [firstImg];
        }
        assert FirstTruthy(c) == FirstTruthy(tail) by {
          assert c[1..][1..] == tail;
        }
        OrEmpty(Or(Or(articleImg, firstImg), Some("")))
  }

  /** What the scrape promises, selector by selector. */
  lemma ScrapeOrder(page: Page)
    requires page.Loaded?
    ensures Truthy(page.ogImage) ==> ScrapeImage(page) == page.ogImage.value
    ensures !Truthy(page.ogImage) && Truthy(page.twitterImage)
      ==> ScrapeImage(page) == page.twitterImage.value
    ensures !Truthy(page.ogImage) && !Truthy(page.twitterImage) && Truthy(page.articleImgSrc)
      ==> ScrapeImage(page) == page.articleImgSrc.value
    ensures (!Truthy(page.ogImage) && !Truthy(page.twitterImage) && !Truthy(page.articleImgSrc)
      && Truthy(page.firstImgSrc)) ==> ScrapeImage(page) == page.firstImgSrc.value
    ensures ScrapeImage(page) == "" <==> (!Truthy(page.ogImage) && !Truthy(page.twitterImage)
      && !Truthy(page.articleImgSrc) && !Truthy(page.firstImgSrc))
  {
  }
}
