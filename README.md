# eBay item scraper — the decision logic of `server.js`

The server has one route, `GET /scrape?url=…&path=…`. It handles a request in three steps:

1. It opens an eBay listing in a headless browser and reads the item's title, its price and
   the URLs of its images. A `data-zoom-src` attribute is preferred over `src`, and repeated
   URLs are dropped.
2. It creates a folder under `path`, named after the title's first two pieces when split
   on a space, joined with `_`. Into it it writes `title.txt` and `price.txt`, then starts a
   download of every full-size image URL (one containing `s-l1600`) that starts with
   `http`; the others are logged and skipped. Each image goes to `image_<k>.jpg`.
3. It answers with the scraped data, or with a 400 or a 500 text.

The model has five modules, one file each:

- `Seqs` (`seqs.dfy`): what the code borrows from JavaScript arrays. This covers
  `Array.from(new Set(xs))` as `Dedup`, with the first occurrence kept, in insertion order.
  It also covers `filter` and `indexOf`, and the `Option` of a value that may be absent.
- `JsText` (`js_text.dfy`): the string operations used. These are `split` on one
  character, `join`, `includes`, `startsWith`, and the decimal rendering of `${k}`.
- `Scraper` (`scraper.dfy`): `scrapeItemData`.
  - The browser is an oracle, the datatype `Page`. It says whether `puppeteer.launch`
    succeeds, and whether opening the page (`newPage` and `goto`) then succeeds.
  - For each field it says whether `waitForSelector` finds a visible element, returns no
    handle, or times out.
  - It also says whether the `$eval` that follows returns a value or throws.
  - The image-URL `Set` is filled by a loop, `CollectImageUrls`.
  - The three reads run in order, with an early exit on the first throw, in `ReadFields`.
  - `ScrapeItemData` adds the browser's launch and close. Its browser calls equal the
    reference `ScrapeCalls`, which is built from one chunk of calls per field read.
- `Persist` (`persist.dfy`): `saveData`.
  - The synchronous filesystem is the oracle `FsFaults`, which says which call throws.
  - The HTTP client is the oracle `download`, which says per URL whether the request
    succeeds.
  - What the function does is an effect log, a `seq<Effect>`.
  - Which files got a write stream is a map `saved` from file index to URL.
  - The image loop is the method `SaveImages`. Its log equals the reference `LoopLog`,
    one pass per URL. Lemmas about `LoopLog` state what was requested, logged and opened.
- `Server` (`server.dfy`): the `/scrape` handler. It covers the validation of `url` and
  `path`, and how outcomes map to status codes.

The model follows the code as written. In particular:

- A `waitForSelector` that times out throws. Then the whole scrape fails with a 500, and no
  field falls back to a default on its own.
- `puppeteer.launch`, `newPage` and `page.goto` run before the `try`.
  - A failed launch leaves no browser, and the calls are `[]`.
  - A failed `newPage` or `goto` ends the scrape without `browser.close()`, and the calls
    are `[Open]`.
- A throw from the synchronous `fs` calls in `saveData` also gives the 500. The success
  response is sent only after `saveData` returns.
- `imageUrls` keeps the insertion order of the `Set`: the document order of first
  occurrences. The model states that order rather than treating the list as unordered.

## Model

| member | source | states |
|---|---|---|
| Scraper.CandidateUrlChoice | gettio_nodejs/server.js:37 | what the fallback from `data-zoom-src` to `src` promises: the candidate is the element's `src` or its zoom attribute. It is empty only when the zoom attribute is absent or empty and `src` is empty too |
| Scraper.CollectImageUrls | gettio_nodejs/server.js:37-47 | the `Set` filled by `forEach(add)` and turned into an array is `Dedup` of the candidates. It lists each URL once, and the URLs in it are exactly the candidates of some element |
| Seqs.Dedup | gettio_nodejs/server.js:38-47 | `Array.from(new Set(xs))` has the same members as `xs` and no repeats, and is no longer than `xs` |
| Seqs.DedupFirstOccurrenceOrder | gettio_nodejs/server.js:38-47 | the deduplicated values come in the order of their first occurrence in the input |
| Seqs.DedupOfUnique | gettio_nodejs/server.js:63-66 | deduplicating a list without repeats returns it unchanged |
| Seqs.IndexOf | gettio_nodejs/server.js:77 | `indexOf` of a present element is the position of its first occurrence |
| Seqs.IndexOfUnique | gettio_nodejs/server.js:77 | in a list without repeats, `indexOf` of the element at position `k` is `k` |
| Seqs.FilterMembers | gettio_nodejs/server.js:63-66 | `filter` keeps exactly the elements satisfying the predicate |
| Seqs.FilterKeepsNoDuplicates | gettio_nodejs/server.js:63-66 | filtering a list without repeats leaves a list without repeats |
| Scraper.ReadField | gettio_nodejs/server.js:30-39 | one guarded read: it throws when the wait times out or the evaluation throws. It reads only after a visible wait and records the wait and the evaluation it made |
| Scraper.FieldsReached | gettio_nodejs/server.js:29-39 | the number of field reads that run: up to and including the first field that throws, all three when none throws. No earlier field throws |
| Scraper.AttemptedSoFar | gettio_nodejs/server.js:29-39 | the calls of the first `n` reads wait for the first `n` fields in the order title, price, images. They evaluate exactly the fields whose element was visible, and make no other call |
| Scraper.ReadFields | gettio_nodejs/server.js:27-39 | it reads title, then price, then images. It succeeds exactly when no field throws, and then returns the expected value of every field with duplicate-free image URLs. Its calls are exactly the per-field chunks up to the first throwing field, where it fails |
| Scraper.ScrapeItemData | gettio_nodejs/server.js:19-48 | succeeds exactly when the browser launches, the page opens and no field throws, and then returns the expected result with duplicate-free `imageUrls`. The browser calls equal `ScrapeCalls`. A failed launch makes no call, and a failed navigation only the launch with no close. Otherwise the reads up to the first throwing field run between the launch and the close. The failure names the first field that throws |
| Scraper.ScrapeCallsShape | gettio_nodejs/server.js:20-45 | when the page opens, the browser is launched once, first, and closed once, last. The waits follow the field order up to the first throwing field. A field is evaluated exactly when its wait found a visible element. As membership: a field is waited for exactly when it is among the first `FieldsReached` fields, and evaluated exactly when it is also visible |
| Scraper.Session | gettio_nodejs/server.js:20-45 | wrapping the field calls in open and close adds no field calls. Open comes first and close last, each once |
| JsText.Split | gettio_nodejs/server.js:52 | `split` on a one-character separator gives at least one piece, and no piece contains the separator |
| JsText.JoinSplit | gettio_nodejs/server.js:52 | joining the pieces of a split with the separator restores the string |
| JsText.IncludesAt | gettio_nodejs/server.js:65 | `includes` holds exactly when the substring starts at some position |
| JsText.Decimal | gettio_nodejs/server.js:77 | the rendering of an index is a non-empty string of digits, in canonical form: it starts with `0` exactly when the index is 0, so it has no leading zero |
| JsText.ParseDecimalOfDecimal | gettio_nodejs/server.js:77 | the decimal rendering of `k` reads back as `k` |
| JsText.DecimalInjective | gettio_nodejs/server.js:77 | different indices render differently |
| Persist.FolderName | gettio_nodejs/server.js:52 | the folder name never contains a space |
| Persist.FolderNameShape | gettio_nodejs/server.js:52 | a title without a space, the empty title included, is its own folder name. Otherwise the folder name is the title up to its second space, with the first space turned into `_` |
| Persist.FolderNameExample | gettio_nodejs/server.js:52 | the title "Old Lamp Co" gives the folder `Old_Lamp` |
| Persist.FullSizeImages | gettio_nodejs/server.js:63-66 | the filtered and re-deduplicated image list has no repeats |
| Persist.FullSizeImagesMembers | gettio_nodejs/server.js:63-66 | a URL is in that list exactly when it was scraped and contains `s-l1600` |
| Persist.FullSizeImagesOfUnique | gettio_nodejs/server.js:63-66 | on a scrape result, which already has no repeats, the second `Set` changes nothing |
| Persist.AttemptedUrls | gettio_nodejs/server.js:63-76 | the URLs handed to the downloader are exactly the scraped ones that contain `s-l1600` and start with `http`, each once |
| Persist.ImageFileNamesDistinct | gettio_nodejs/server.js:59-77 | different indices give different `image_<k>.jpg` names, and no image name is `title.txt` or `price.txt` |
| Persist.CompletedSteps | gettio_nodejs/server.js:55-60 | the number of steps before the image loop that complete is at most their count. It equals their count exactly when no synchronous filesystem call throws |
| Persist.CompletedStepsBeforeFault | gettio_nodejs/server.js:55-60 | a throwing `mkdirSync` leaves no step done. A throwing title write leaves only the folder, if it was created. A throwing price write leaves the folder and `title.txt`. Without a throw, all the steps are done |
| Persist.UrlLogProjections | gettio_nodejs/server.js:70-81 | one pass logs a non-`http` URL as invalid. For an `http` URL it makes one request and then either logs the error or opens the stream for `image_<k>.jpg`, never both. It does nothing else |
| Persist.SavedImagesSnoc | gettio_nodejs/server.js:69-78 | index `k` joins the saved images exactly when URL `k` starts with `http` and its request succeeds. No earlier pass saved it |
| Persist.LoopLogRequests | gettio_nodejs/server.js:69-76 | the loop requests every `http` URL, in list order, whatever earlier requests did |
| Persist.LoopLogInvalidUrls | gettio_nodejs/server.js:70-73 | the loop logs every URL that does not start with `http` as invalid, in list order |
| Persist.LoopLogDownloadErrors | gettio_nodejs/server.js:75-81 | the loop logs an error for exactly the `http` URLs whose request throws, in list order, and then goes on |
| Persist.LoopLogStreams | gettio_nodejs/server.js:76-78 | the write streams opened are exactly one `image_<k>.jpg` per saved index `k`, fed from URL `k` |
| Persist.LoopLogEffectsOnly | gettio_nodejs/server.js:69-82 | the loop only logs, requests and opens write streams. It creates no folder and writes no text file |
| Persist.SaveImages | gettio_nodejs/server.js:69-82 | the loop's effect log equals `LoopLog`, the passes for each URL in list order. The saved map is `SavedImages`, where index `k` is saved exactly when URL `k` starts with `http` and its request succeeds |
| Persist.SavedImagesIndexed | gettio_nodejs/server.js:69-77 | a saved index is the position of its URL in the deduplicated full-size list. That URL starts with `http` and was fetched. Two saved files share neither a name nor a URL |
| Persist.SkippedUrlLeavesGap | gettio_nodejs/server.js:63-77 | a protocol-relative URL before an `http` one is skipped, yet keeps index 0. The `http` one is saved as `image_1.jpg` |
| Persist.SaveData | gettio_nodejs/server.js:51-83 | `saveData` throws exactly when creating the missing folder, writing `title.txt` or writing `price.txt` throws. Its effects are the steps before the throwing call, in order. Without a throw, all of those steps come first, followed by exactly the image loop's log over the full-size list. A throw saves no image |
| Server.HandleScrape | gettio_nodejs/server.js:89-109 | a falsy `url` gives 400 "URL is required as a query parameter" before `path` is looked at. A truthy `url` with a falsy `path` gives 400 "Path is required as a query parameter". In both cases nothing is scraped or saved. The browser calls of an accepted request are the scraper's. The status is 200 exactly when the scrape succeeds and `saveData` does not throw; every other accepted request gets 500 "Error occurred while scraping". A failed scrape saves nothing. After a successful scrape the effects are exactly those of `saveData`. A 200 carries the unfiltered scrape result |

## Left out

- Puppeteer itself is not modelled: launching, navigation, CSS selector matching, visibility,
  the 5000 ms timeout and `textContent.trim()`. The model sees only their outcomes, through
  the `Page` oracle. The page is chosen per URL by the `browse` parameter of
  `HandleScrape`.
- With `visible: true`, `waitForSelector` resolves to a handle or throws. The code still
  guards against a null handle (server.js:30), and the model keeps that case as the input
  `NoHandle`.
- A `browser.close()` that throws in the `finally` (server.js:44) is not modelled. The close
  is taken to succeed, so the outcome is the one from the `try`.
- axios and `response.data.pipe(writer)` are not modelled. The pipe is not awaited, so an
  image counts as saved once its write stream is opened. Errors that the stream raises after
  `pipe` are outside the loop's `try` and are not modelled.
- The filesystem is not modelled. `existsSync`, `mkdirSync`, `writeFileSync` and
  `createWriteStream` are outcomes of the `FsFaults` oracle. A `createWriteStream` that
  throws synchronously would be caught like a failed request; the model takes it to
  succeed.
- `path.join` normalisation is not modelled. An empty folder name, or `..` in a title, is
  kept as the pair (`basePath`, folder name).
- Console logging appears only as `InvalidUrl` and `DownloadError` entries of the effect
  log. The errors logged in `scrapeItemData` and in the route are not recorded.
- Express, cors, dotenv and `app.listen` are not modelled. Neither are query values given
  as arrays or objects: a query value is absent or one string.
- Concurrency between requests is not modelled. Each request is handled alone.
