/**
 * The `GET /scrape` route: check the `url` and `path` query parameters, scrape the item
 * page, save what was scraped under `path`, and answer with the scrape result.
 * The browser is the oracle `browse`, which gives the page that navigating to a URL reaches;
 * the filesystem and the HTTP client are the oracles of `Persist`.
 */
module Server {
  import opened Seqs
  import Scraper
  import Persist

  /** `req.query.url` and `req.query.path`, each absent or a string. */
  datatype Query = Query(url: Option<string>, path: Option<string>)

  datatype Body = Text(text: string) | Json(data: Scraper.ScrapeResult)

  datatype Response = Response(status: nat, body: Body)

  /** A query value is truthy when it is present and not the empty string. */
  predicate Truthy(v: Option<string>) {
    v.Some? && v.value != ""
  }

  const UrlRequired: string := "URL is required as a query parameter"
  const PathRequired: string := "Path is required as a query parameter"
  const ScrapeError: string := "Error occurred while scraping"

  /** The request runs the scraper and the saver: both parameters are truthy. */
  predicate Accepted(query: Query) {
    Truthy(query.url) && Truthy(query.path)
  }

  /** The page the request's URL leads to. */
  function PageOf(query: Query, browse: string -> Scraper.Page): Scraper.Page
    requires Accepted(query)
  {
    browse(query.url.value)
  }

  /** The request ends in a 200: the scrape succeeds and no synchronous filesystem call throws. */
  predicate Served(query: Query, browse: string -> Scraper.Page, fs: Persist.FsFaults) {
    Accepted(query) && Scraper.Succeeds(PageOf(query, browse)) && Persist.SaveOk(fs)
  }

  /**
   * The route handler. `calls` are the browser calls made, `effects` the filesystem and
   * network steps of `saveData`, `saved` the image files whose download started.
   */
  method HandleScrape(query: Query, browse: string -> Scraper.Page, fs: Persist.FsFaults,
                      download: string -> Persist.DownloadOutcome)
    returns (resp: Response, calls: seq<Scraper.Call>, effects: seq<Persist.Effect>, saved: map<nat, string>)
    ensures !Truthy(query.url) ==> resp == Response(400, Text(UrlRequired))
    ensures Truthy(query.url) && !Truthy(query.path) ==> resp == Response(400, Text(PathRequired))
    ensures !Accepted(query) ==> calls == [] && effects == [] && saved == map[]
    ensures Accepted(query) ==> calls == Scraper.ScrapeCalls(PageOf(query, browse))
    ensures resp.status == 200 <==> Served(query, browse, fs)
    ensures Accepted(query) && !Served(query, browse, fs) ==> resp == Response(500, Text(ScrapeError))
    ensures Accepted(query) && !Scraper.Succeeds(PageOf(query, browse)) ==> effects == [] && saved == map[]
    ensures Accepted(query) && Scraper.Succeeds(PageOf(query, browse)) ==>
      var data := Scraper.ExpectedResult(PageOf(query, browse));
      var dir := Persist.FolderOf(data, query.path.value);
      var urls := Persist.FullSizeImages(data.imageUrls);
      && effects == Persist.Prelude(dir, data, fs)[..Persist.CompletedSteps(fs)]
                    + (if Persist.SaveOk(fs) then Persist.LoopLog(dir, urls, download) else [])
      && saved == if Persist.SaveOk(fs) then Persist.SavedImages(urls, download) else map[]
    ensures resp.status == 200 ==>
      && resp.body == Json(Scraper.ExpectedResult(PageOf(query, browse)))
      && NoDuplicates(Scraper.ExpectedResult(PageOf(query, browse)).imageUrls)
  {
    calls, effects, saved := [], [], map[];
    if !Truthy(query.url) {
      return Response(400, Text(UrlRequired)), calls, effects, saved;
    }
    if !Truthy(query.path) {
      return Response(400, Text(PathRequired)), calls, effects, saved;
    }
    var outcome;
    outcome, calls := Scraper.ScrapeItemData(browse(query.url.value));
    if outcome.ScrapeFailed? {
      return Response(500, Text(ScrapeError)), calls, effects, saved;
    }
    var threw;
    threw, effects, saved := Persist.SaveData(outcome.result, query.path.value, fs, download);
    if threw {
      return Response(500, Text(ScrapeError)), calls, effects, saved;
    }
    resp := Response(200, Json(outcome.result));
  }
}
