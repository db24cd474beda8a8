/** The `POST /api/process-page` handler as a function of what its
    collaborators return. Reading the request body, the URL check, the page
    fetch and the chat completion are parameters; the outcome records the
    response and which collaborators were called, in order. */
module ProcessPageRoute {
  import opened Wrappers
  import opened Json
  import opened Schema
  import opened Text
  import opened HtmlScraping
  import opened Operations

  datatype ResponseBody =
    | ValidationErrors          // `result.error.format()` of the request schema
    | ErrorMessage(error: string)
    | SuccessMessage(message: string)

  datatype Response = Response(status: nat, body: ResponseBody)

  datatype Call =
    | Scrape(url: string)
    | ExtractInsights(url: string, content: string)

  datatype Outcome = Outcome(response: Response, calls: seq<Call>)

  const PageNotFound := "Page not found"
  const PageProcessed := "Page processed successfully"
  const InternalError := "Internal Server Error"

  /** `RequestSchema.safeParse(body)`: an object whose `url` is a string that
      passes the URL check. */
  function ValidateRequest(body: Json, isUrl: string -> bool): (r: Option<string>)
    ensures r.Some? <==> body.JObject? && "url" in body.fields && body.fields["url"].JString? && isUrl(body.fields["url"].str)
    ensures r.Some? ==> body.fields["url"] == JString(r.value)
  {
    if body.JObject? && "url" in body.fields && body.fields["url"].JString? && isUrl(body.fields["url"].str) then
      Some(body.fields["url"].str)
    else None
  }

  /** The handler. `body` is `None` when `request.json()` throws;
      `fetch(url)` is what the scraper's fetch and parse produced;
      `complete(url, content)` is the chat completion for that page. */
  function Post(
    body: Option<Json>,
    isUrl: string -> bool,
    fetch: string -> FetchOutcome,
    complete: (string, string) -> Result<Completion, Thrown>,
    parse: string -> Option<Json>)
    : (o: Outcome)
    ensures o.response.status in {200, 400, 404, 500}
    ensures o.response.status == 400 <==> body.Some? && ValidateRequest(body.value, isUrl).None?
    ensures o.response.status == 400 ==> o.calls == []
    ensures o.calls != [] ==>
      body.Some? && ValidateRequest(body.value, isUrl).Some? && o.calls[0] == Scrape(ValidateRequest(body.value, isUrl).value)
  {
    if body.None? then Outcome(Response(500, ErrorMessage(InternalError)), [])
    else
      match ValidateRequest(body.value, isUrl)
      case None => Outcome(Response(400, ValidationErrors), [])
      case Some(url) => HandlePage(url, GetWebpageContent(fetch(url)), complete, parse)
  }

  /** The handler once the url is valid and the page has been scraped to
      `pageData`: empty text is "not found", otherwise insights are extracted
      and the answer is 200 unless that throws. */
  function HandlePage(url: string, pageData: string,
                      complete: (string, string) -> Result<Completion, Thrown>, parse: string -> Option<Json>)
    : (o: Outcome)
    ensures o.response.status == 404 <==> pageData == ""
    ensures pageData == "" ==> o == Outcome(Response(404, ErrorMessage(PageNotFound)), [Scrape(url)])
    ensures pageData != "" ==>
      && o.calls == [Scrape(url), ExtractInsights(url, pageData)]
      && (o.response.status == 200 <==> ExtractWebPageInsights(complete(url, pageData), parse).Success?)
      && (o.response.status != 200 ==> o.response == Response(500, ErrorMessage(InternalError)))
      && (o.response.status == 200 ==> o.response == Response(200, SuccessMessage(PageProcessed)))
  {
    if pageData == "" then
      Outcome(Response(404, ErrorMessage(PageNotFound)), [Scrape(url)])
    else
      var calls := [Scrape(url), ExtractInsights(url, pageData)];
      match ExtractWebPageInsights(complete(url, pageData), parse)
      case Failure(_) => Outcome(Response(500, ErrorMessage(InternalError)), calls)
      case Success(_) => Outcome(Response(200, SuccessMessage(PageProcessed)), calls)
  }

  /** An invalid request is answered 400 before anything is fetched. */
  lemma InvalidRequestRejected(body: Json, isUrl: string -> bool, fetch: string -> FetchOutcome,
                               complete: (string, string) -> Result<Completion, Thrown>, parse: string -> Option<Json>)
    requires ValidateRequest(body, isUrl).None?
    ensures Post(Some(body), isUrl, fetch, complete, parse) == Outcome(Response(400, ValidationErrors), [])
  {
  }

  /** A page that fails to load, or holds no text, is answered 404 and no
      insights are requested. */
  lemma EmptyPageNotFound(body: Json, isUrl: string -> bool, fetch: string -> FetchOutcome,
                          complete: (string, string) -> Result<Completion, Thrown>, parse: string -> Option<Json>)
    requires ValidateRequest(body, isUrl).Some?
    requires var url := ValidateRequest(body, isUrl).value; fetch(url).FetchFailed? || AllWhitespace(fetch(url).text)
    ensures var url := ValidateRequest(body, isUrl).value;
      Post(Some(body), isUrl, fetch, complete, parse) == Outcome(Response(404, ErrorMessage("Page not found")), [Scrape(url)])
  {
  }

  /** A page with text is answered 200 whenever insights extraction returns,
      whether with a record or with `null`; extraction is asked about exactly
      the validated url and the normalised page text. */
  lemma ProcessedPage(body: Json, isUrl: string -> bool, fetch: string -> FetchOutcome,
                      complete: (string, string) -> Result<Completion, Thrown>, parse: string -> Option<Json>)
    requires ValidateRequest(body, isUrl).Some?
    requires var url := ValidateRequest(body, isUrl).value; fetch(url).BodyText? && !AllWhitespace(fetch(url).text)
    requires var url := ValidateRequest(body, isUrl).value; var content := GetWebpageContent(fetch(url));
      ExtractWebPageInsights(complete(url, content), parse).Success?
    ensures var url := ValidateRequest(body, isUrl).value; var content := GetWebpageContent(fetch(url));
      && content != ""
      && Post(Some(body), isUrl, fetch, complete, parse)
         == Outcome(Response(200, SuccessMessage("Page processed successfully")), [Scrape(url), ExtractInsights(url, content)])
  {
    var url := ValidateRequest(body, isUrl).value;
    PageWithText(fetch(url));
    assert Post(Some(body), isUrl, fetch, complete, parse) == HandlePage(url, GetWebpageContent(fetch(url)), complete, parse);
  }

  /** A page with some text scrapes to a non-empty string. */
  lemma PageWithText(fetched: FetchOutcome)
    requires fetched.BodyText? && !AllWhitespace(fetched.text)
    ensures GetWebpageContent(fetched) != ""
  {
  }

  /** Anything thrown, reading the body or extracting insights, is answered
      500. */
  lemma ThrownIsInternalError(body: Option<Json>, isUrl: string -> bool, fetch: string -> FetchOutcome,
                              complete: (string, string) -> Result<Completion, Thrown>, parse: string -> Option<Json>)
    requires
      || body.None?
      || (&& ValidateRequest(body.value, isUrl).Some?
          && var url := ValidateRequest(body.value, isUrl).value; var content := GetWebpageContent(fetch(url));
          content != "" && ExtractWebPageInsights(complete(url, content), parse).Failure?)
    ensures Post(body, isUrl, fetch, complete, parse).response == Response(500, ErrorMessage("Internal Server Error"))
  {
  }

  /** The response is decided by the first stage that does not pass: body,
      request, page text, insights. */
  lemma StatusDecision(body: Option<Json>, isUrl: string -> bool, fetch: string -> FetchOutcome,
                       complete: (string, string) -> Result<Completion, Thrown>, parse: string -> Option<Json>)
    ensures var o := Post(body, isUrl, fetch, complete, parse);
      (o.response.status == 200 || o.response.status == 404) ==>
        && body.Some? && ValidateRequest(body.value, isUrl).Some?
        && var url := ValidateRequest(body.value, isUrl).value;
           var content := GetWebpageContent(fetch(url));
           && (o.response.status == 404 <==> content == "")
           && (o.response.status == 200 ==> o.calls == [Scrape(url), ExtractInsights(url, content)])
  {
    var o := Post(body, isUrl, fetch, complete, parse);
    if body.None? {
      assert o.response.status == 500;
    } else if ValidateRequest(body.value, isUrl).Some? {
      var url := ValidateRequest(body.value, isUrl).value;
      assert o == HandlePage(url, GetWebpageContent(fetch(url)), complete, parse);
    }
  }
}
