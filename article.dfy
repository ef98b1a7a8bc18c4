/**
 * What `get_article_details` makes of an article page. Fetching the page and
 * the HTML work (the `og:image` lookup, the content selectors, removing code,
 * scripts, styles and asides, collecting paragraph text) are done by libraries;
 * their result is the `Page` given here.
 */
module Article {
  import opened Wrappers
  import opened Text

  /** The article page as the libraries see it. `Unreachable` stands for any
      exception inside `get_article_details`: a transport error, a timeout, a
      non-2xx status, an `og:image` tag without content. `body` is the joined
      paragraph text of the first selector that matched, `None` when none did. */
  datatype Page = Unreachable | Html(ogImage: Option<string>, body: Option<string>)

  /** The `(image_url, summary)` pair the function returns. */
  datatype Details = Details(image: Option<string>, summary: Option<string>)

  /** Lines 86-108: no container (or any error) gives neither image nor summary;
      otherwise the page's image and the summary of the container's text. */
  function ArticleDetails(page: Page): (d: Details)
    ensures d.summary.Some? ==> d.summary.value != []
    ensures d.image.Some? ==> page.Html? && page.body.Some? && d.image == page.ogImage
    ensures d.summary.Some? <==> page.Html? && page.body.Some? && !AllSpace(SummaryDraft(page.body.value))
    ensures page.Html? && page.body.Some? ==>
              d.image == page.ogImage && d.summary == Summary(page.body.value)
    ensures !(page.Html? && page.body.Some?) ==> d.image.None? && d.summary.None?
  {
    match page
    case Unreachable => Details(None, None)
    case Html(image, body) =>
      match body
      case None => Details(None, None)
      case Some(text) => Details(image, Summary(text))
  }
}
