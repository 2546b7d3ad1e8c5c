/** The `POST` handler of app/api/enrich/route.js: the input guard, the fetch of the page and
    the translation of its outcome into an HTML body or a warning, and the answer built from
    the page's metadata. The URL parser and the network are parameters of the handler. */
module EnrichRoute {
  import opened Wrappers
  import opened JsText
  import opened JsNumbers
  import opened JsValues
  import opened EnrichExtract
  import opened EnrichHeuristics

  /** The decoded request body: unreadable JSON, the JSON value `null` (whose destructuring
      throws), or a value whose `website` property is given (`Undefined` when absent). */
  datatype RequestBody = Unreadable | NullBody | Body(website: JsValue)

  /** How the request for the page ended: a response with its status and body text, or an
      exception (from `fetch`, the abort timer or reading the body) with its `message`,
      "" standing for a missing or empty one. */
  datatype FetchReply = Responded(status: nat, body: string) | Threw(message: string)

  /** The two lets the fetch fills in: the page's HTML and the warning. */
  datatype PageFetch = PageFetch(html: string, warning: string)

  /** `Response.json(...)`: an error object with its HTTP status, or `{ result }` (200). */
  datatype ApiResponse = ApiError(status: nat, error: string) | ApiResult(result: string)

  const WebsiteRequired := "Website is required"
  const InvalidUrl := "Invalid website URL"
  const UnsupportedScheme := "Only http/https URLs are supported"
  const EnrichFailed := "Unable to enrich this company right now. Please try again."

  /** `response.ok`. */
  predicate IsOk(status: nat) {
    200 <= status <= 299
  }

  predicate IsWebScheme(protocol: string) {
    protocol == "http:" || protocol == "https:"
  }

  /** What the fetch leaves in `html` and `websiteFetchWarning`. */
  function TranslateFetch(reply: FetchReply): (r: PageFetch)
    ensures reply.Responded? && IsOk(reply.status) ==> r == PageFetch(reply.body, "")
    ensures reply.Responded? && !IsOk(reply.status) ==>
              r.html == "" && Contains(r.warning, NatToString(reply.status))
    ensures reply.Threw? ==>
              r.html == ""
              && Contains(r.warning, if reply.message != "" then reply.message else "Unknown error")
    ensures r.warning == "" <==> reply.Responded? && IsOk(reply.status)
  {
    match reply
    case Responded(status, body) =>
      if IsOk(status) then PageFetch(body, "")
      else
        ContainsMiddle("Website content fetch failed with status ", NatToString(status), ".");
        PageFetch("", "Website content fetch failed with status " + NatToString(status) + ".")
    case Threw(message) =>
      var shown := if message != "" then message else "Unknown error";
      ContainsMiddle("Website content fetch failed: ", shown, ".");
      PageFetch("", "Website content fetch failed: " + shown + ".")
  }

  /** The answer for a URL that passed the guard, once the page has been fetched. */
  function Enrichment(url: Url, page: PageFetch): string {
    ResultText(url, ExtractTitle(page.html), ExtractMetaDescription(page.html), page.warning)
  }

  /** The `try`/`catch` around `fetch`: requests `url.toString()` (recorded in `requested`),
      sets `html` from an ok response, and the warning from any other response or from an
      exception. */
  method FetchPage(url: Url, fetch: string -> FetchReply) returns (html: string, warning: string, requested: string)
    ensures requested == url.href
    ensures PageFetch(html, warning) == TranslateFetch(fetch(requested))
  {
    html := "";
    warning := "";
    requested := url.href;
    match fetch(requested) {
      case Responded(status, text) =>
        if IsOk(status) {
          html := text;
        } else {
          warning := "Website content fetch failed with status " + NatToString(status) + ".";
        }
      case Threw(message) =>
        warning := "Website content fetch failed: " + (if message != "" then message else "Unknown error") + ".";
    }
  }

  /** `POST(req)`. `parseUrl` stands for `new URL` (None when it throws) and `fetch` for the
      request to the site; `requested` records the URL fetched, if any. */
  method Post(body: RequestBody, parseUrl: string -> Option<Url>, fetch: string -> FetchReply)
    returns (response: ApiResponse, requested: Option<string>)
    ensures !body.Body? ==> response == ApiError(500, EnrichFailed) && requested == None
    ensures body.Body? && !(body.website.Str? && body.website.s != "") ==>
              response == ApiError(400, WebsiteRequired) && requested == None
    ensures body.Body? && body.website.Str? && body.website.s != "" && parseUrl(body.website.s).None? ==>
              response == ApiError(400, InvalidUrl) && requested == None
    ensures body.Body? && body.website.Str? && body.website.s != "" && parseUrl(body.website.s).Some?
            && !IsWebScheme(parseUrl(body.website.s).value.protocol) ==>
              response == ApiError(400, UnsupportedScheme) && requested == None
    ensures body.Body? && body.website.Str? && body.website.s != "" && parseUrl(body.website.s).Some?
            && IsWebScheme(parseUrl(body.website.s).value.protocol) ==>
              var url := parseUrl(body.website.s).value;
              requested == Some(url.href)
              && response == ApiResult(Enrichment(url, TranslateFetch(fetch(url.href))))
  {
    requested := None;
    if !body.Body? {
      response := ApiError(500, EnrichFailed);
      return;
    }
    var website := body.website;
    if !Truthy(website) || !website.Str? {
      response := ApiError(400, WebsiteRequired);
      return;
    }
    var parsed := parseUrl(website.s);
    if parsed.None? {
      response := ApiError(400, InvalidUrl);
      return;
    }
    var url := parsed.value;
    if url.protocol != "http:" && url.protocol != "https:" {
      response := ApiError(400, UnsupportedScheme);
      return;
    }
    var html, warning, fetched := FetchPage(url, fetch);
    requested := Some(fetched);
    response := ApiResult(Enrichment(url, PageFetch(html, warning)));
  }

  /** A successful answer lists the fetched URL as its one source and reports the fetch
      warning, or the success sentence, as its first signal. */
  lemma EnrichmentReportsFetch(url: Url, reply: FetchReply)
    ensures var page := TranslateFetch(reply);
      var lines := ResultLines(url, ExtractTitle(page.html), ExtractMetaDescription(page.html), page.warning);
      && lines[18] == "- " + url.href
      && (reply.Responded? && IsOk(reply.status) ==> lines[13] == "- " + FetchedSentence)
      && (!(reply.Responded? && IsOk(reply.status)) ==> lines[13] == "- " + page.warning)
  {
    var page := TranslateFetch(reply);
    ResultLayout(url, ExtractTitle(page.html), ExtractMetaDescription(page.html), page.warning);
  }

  /** A page that could not be fetched yields neither title nor description, and the answer
      says so. */
  lemma FailedFetchHasNoMetadata(url: Url, reply: FetchReply)
    requires !(reply.Responded? && IsOk(reply.status))
    ensures var page := TranslateFetch(reply);
      && ExtractTitle(page.html) == "" && ExtractMetaDescription(page.html) == ""
      && var lines := ResultLines(url, "", "", page.warning);
         && lines[14] == "- " + TitleMissing && lines[15] == "- " + DescriptionMissing
         && lines[21] == "- Title: " + "Unavailable" && lines[22] == "- Description: " + "Unavailable"
  {
    var page := TranslateFetch(reply);
    var signals := BuildSignals(page.warning, "", "");
    assert signals[1] == TitleMissing && signals[2] == DescriptionMissing;
    ResultLayout(url, "", "", page.warning);
  }
}
