/**
 * `saveData`: derive a folder from the title, create it when absent, write `title.txt` and
 * `price.txt`, then download every full-size image URL into `image_<k>.jpg`.
 * The filesystem and the HTTP client are oracles: `FsFaults` says which synchronous
 * filesystem call throws, `download` says for each URL whether the request succeeds.
 */
module Persist {
  import opened Seqs
  import opened JsText
  import Scraper

  /** `data.title.split(' ').slice(0, 2).join('_')`. */
  function FolderName(title: string): (name: string)
    ensures ' ' !in name
  {
    var parts := Split(title, ' ');
    var firstTwo := parts[..if |parts| < 2 then |parts| else 2];
    JoinAvoids(firstTwo, "_", ' ');
    Join(firstTwo, "_")
  }

  /**
   * The folder name is the title up to its second space, with the first space turned
   * into `_`; a title without a space, the empty title included, is its own folder name.
   */
  lemma FolderNameShape(title: string)
    ensures ' ' !in title ==> FolderName(title) == title
    ensures ' ' in title ==>
      var i := IndexOf(title, ' ');
      var rest := title[i + 1..];
      FolderName(title) == title[..i] + "_" + if ' ' in rest then rest[..IndexOf(rest, ' ')] else rest
  {
    if ' ' in title {
      var i := IndexOf(title, ' ');
      var rest := title[i + 1..];
      var tail := Split(rest, ' ');
      assert Split(title, ' ') == [title[..i]] + tail;
      assert tail[0] == if ' ' in rest then rest[..IndexOf(rest, ' ')] else rest;
      var firstTwo := [title[..i], tail[0]];
      assert Split(title, ' ')[..2] == firstTwo;
      assert Join(firstTwo, "_") == title[..i] + "_" + Join(firstTwo[1..], "_");
      assert firstTwo[1..] == [tail[0]];
    }
  }

  /** The marker of the site's full-size image URLs. */
  const FullSizeMarker: string := "s-l1600"

  /** `url.includes('s-l1600')`: the filter that keeps full-size images. */
  predicate IsFullSize(url: string) {
    Includes(url, FullSizeMarker)
  }

  /** `imageUrl.startsWith('http')`: the check that skips relative and other URLs. */
  predicate IsHttp(url: string) {
    StartsWith(url, "http")
  }

  /** `new Set(data.imageUrls.filter(...))`, iterated in insertion order. */
  function FullSizeImages(imageUrls: seq<string>): (urls: seq<string>)
    ensures NoDuplicates(urls)
  {
    Dedup(Filter(imageUrls, IsFullSize))
  }

  /** The images kept for download are exactly the full-size ones among the scraped URLs. */
  lemma FullSizeImagesMembers(imageUrls: seq<string>, u: string)
    ensures u in FullSizeImages(imageUrls) <==> u in imageUrls && IsFullSize(u)
  {
    FilterMembers(imageUrls, IsFullSize, u);
  }

  /** The second `Set` is defensive: a scrape result already lists each URL once. */
  lemma FullSizeImagesOfUnique(imageUrls: seq<string>)
    requires NoDuplicates(imageUrls)
    ensures FullSizeImages(imageUrls) == Filter(imageUrls, IsFullSize)
  {
    FilterKeepsNoDuplicates(imageUrls, IsFullSize);
    DedupOfUnique(Filter(imageUrls, IsFullSize));
  }

  /** `` `image_${k}.jpg` ``. */
  function ImageFileName(k: nat): string {
    "image_" + Decimal(k) + ".jpg"
  }

  /** Different indices name different files, and no image file is one of the text files. */
  lemma ImageFileNamesDistinct(a: nat, b: nat)
    ensures a != b ==> ImageFileName(a) != ImageFileName(b)
    ensures ImageFileName(a) != "title.txt" && ImageFileName(a) != "price.txt"
  {
    var na, nb := ImageFileName(a), ImageFileName(b);
    assert na[6..|na| - 4] == Decimal(a);
    assert nb[6..|nb| - 4] == Decimal(b);
    if na == nb {
      DecimalInjective(a, b);
    }
    assert na[0] == 'i';
  }

  /** `path.join(basePath, folderName)`, kept as its two parts. */
  datatype Dir = Dir(base: string, name: string)

  datatype FilePath = FilePath(dir: Dir, name: string)

  /** The completed filesystem, network and logging steps, in order. */
  datatype Effect =
    | MakeDir(dir: Dir)                          // fs.mkdirSync(folderPath, { recursive: true })
    | WriteText(file: FilePath, content: string) // fs.writeFileSync
    | InvalidUrl(url: string)                    // console.error(`Invalid URL: ...`), then continue
    | Request(url: string)                       // axios GET with a stream response
    | OpenStream(file: FilePath, url: string)    // fs.createWriteStream + response.data.pipe
    | DownloadError(url: string)                 // caught and logged, then the next URL

  /** Which synchronous filesystem call throws. */
  datatype FsFaults = FsFaults(dirExists: bool, mkdirThrows: bool, titleWriteThrows: bool, priceWriteThrows: bool)

  /** What the request for one URL does. */
  datatype DownloadOutcome = Fetched | FetchFailed

  /** None of the calls outside the image loop throws. */
  predicate SaveOk(fs: FsFaults) {
    (fs.dirExists || !fs.mkdirThrows) && !fs.titleWriteThrows && !fs.priceWriteThrows
  }

  function FolderOf(data: Scraper.ScrapeResult, basePath: string): Dir {
    Dir(basePath, FolderName(data.title))
  }

  /** The steps before the image loop: create the folder when absent, then title, then price. */
  function Prelude(dir: Dir, data: Scraper.ScrapeResult, fs: FsFaults): seq<Effect> {
    (if fs.dirExists then [] else [MakeDir(dir)])
    + [WriteText(FilePath(dir, "title.txt"), data.title), WriteText(FilePath(dir, "price.txt"), data.price)]
  }

  /**
   * How many of the steps before the image loop complete: the first one that throws ends
   * `saveData`, so the steps before it are done and no later one runs.
   */
  function CompletedSteps(fs: FsFaults): (n: nat)
    ensures n <= if fs.dirExists then 2 else 3
    ensures n == (if fs.dirExists then 2 else 3) <==> SaveOk(fs)
  {
    if !fs.dirExists && fs.mkdirThrows then 0
    else
      var made := if fs.dirExists then 0 else 1;
      if fs.titleWriteThrows then made
      else if fs.priceWriteThrows then made + 1
      else made + 2
  }

  /**
   * The steps done before a throw: none when creating the folder throws; the folder, if it
   * was created, when writing `title.txt` throws; the folder and `title.txt` when writing
   * `price.txt` throws.
   */
  lemma CompletedStepsBeforeFault(dir: Dir, data: Scraper.ScrapeResult, fs: FsFaults)
    ensures var made := if fs.dirExists then [] else [MakeDir(dir)];
      var done := Prelude(dir, data, fs)[..CompletedSteps(fs)];
      && (!fs.dirExists && fs.mkdirThrows ==> done == [])
      && ((fs.dirExists || !fs.mkdirThrows) && fs.titleWriteThrows ==> done == made)
      && ((fs.dirExists || !fs.mkdirThrows) && !fs.titleWriteThrows && fs.priceWriteThrows ==>
            done == made + [WriteText(FilePath(dir, "title.txt"), data.title)])
      && (SaveOk(fs) ==> done == Prelude(dir, data, fs))
  {
    var prelude := Prelude(dir, data, fs);
    assert prelude[..|prelude|] == prelude;
  }

  /** The request for `url` runs without throwing, so its write stream is opened. */
  predicate Kept(url: string, download: string -> DownloadOutcome) {
    IsHttp(url) && download(url) == Fetched
  }

  /** The request for `url` is made and throws. */
  predicate Failed(url: string, download: string -> DownloadOutcome) {
    IsHttp(url) && download(url) == FetchFailed
  }

  predicate NotHttp(url: string) {
    !IsHttp(url)
  }

  /** What one pass of the image loop does with the URL at index `k`. */
  function UrlLog(dir: Dir, k: nat, url: string, download: string -> DownloadOutcome): seq<Effect> {
    if !IsHttp(url) then [InvalidUrl(url)]
    else
      match download(url)
      case FetchFailed => [Request(url), DownloadError(url)]
      case Fetched => [Request(url), OpenStream(FilePath(dir, ImageFileName(k)), url)]
  }

  /** What the image loop does with `urls`: the pass for each URL, in list order. */
  function LoopLog(dir: Dir, urls: seq<string>, download: string -> DownloadOutcome): seq<Effect> {
    if urls == [] then []
    else
      var n := |urls| - 1;
      LoopLog(dir, urls[..n], download) + UrlLog(dir, n, urls[n], download)
  }

  /**
   * The images whose write was started: index `k` of the deduplicated full-size list,
   * when that URL starts with `http` and its request succeeds.
   */
  function SavedImages(urls: seq<string>, download: string -> DownloadOutcome): map<nat, string> {
    map k: nat | k < |urls| && Kept(urls[k], download) :: urls[k]
  }

  /** The URLs requested, in order. */
  function Requests(effects: seq<Effect>): seq<string> {
    if effects == [] then []
    else
      var last := effects[|effects| - 1];
      Requests(effects[..|effects| - 1]) + if last.Request? then [last.url] else []
  }

  /** The URLs logged as invalid, in order. */
  function InvalidUrls(effects: seq<Effect>): seq<string> {
    if effects == [] then []
    else
      var last := effects[|effects| - 1];
      InvalidUrls(effects[..|effects| - 1]) + if last.InvalidUrl? then [last.url] else []
  }

  /** The URLs whose download error was logged, in order. */
  function DownloadErrors(effects: seq<Effect>): seq<string> {
    if effects == [] then []
    else
      var last := effects[|effects| - 1];
      DownloadErrors(effects[..|effects| - 1]) + if last.DownloadError? then [last.url] else []
  }

  /** The write streams opened. */
  function Streams(effects: seq<Effect>): set<Effect> {
    set e | e in effects && e.OpenStream?
  }

  /** One write stream per saved index, named after the index, fed from that index's URL. */
  function StreamsFor(dir: Dir, saved: map<nat, string>): set<Effect> {
    set k | k in saved :: OpenStream(FilePath(dir, ImageFileName(k)), saved[k])
  }

  /** The effects of the loop are logging, requests and write streams only. */
  predicate LoopEffectsOnly(effects: seq<Effect>) {
    forall i :: 0 <= i < |effects| ==>
      effects[i].InvalidUrl? || effects[i].Request? || effects[i].OpenStream? || effects[i].DownloadError?
  }

  lemma ProjectionsSnoc(effects: seq<Effect>, e: Effect)
    ensures Requests(effects + [e]) == Requests(effects) + if e.Request? then [e.url] else []
    ensures InvalidUrls(effects + [e]) == InvalidUrls(effects) + if e.InvalidUrl? then [e.url] else []
    ensures DownloadErrors(effects + [e]) == DownloadErrors(effects) + if e.DownloadError? then [e.url] else []
    ensures Streams(effects + [e]) == Streams(effects) + if e.OpenStream? then {e} else {}
  {
    assert (effects + [e])[..|effects|] == effects;
  }

  lemma {:induction false} RequestsAppend(a: seq<Effect>, b: seq<Effect>)
    ensures Requests(a + b) == Requests(a) + Requests(b)
  {
    if b == [] {
      assert a + b == a;
    } else {
      var c, last := b[..|b| - 1], b[|b| - 1];
      RequestsAppend(a, c);
      assert (a + b)[..|a + b| - 1] == a + c && (a + b)[|a + b| - 1] == last;
    }
  }

  lemma {:induction false} InvalidUrlsAppend(a: seq<Effect>, b: seq<Effect>)
    ensures InvalidUrls(a + b) == InvalidUrls(a) + InvalidUrls(b)
  {
    if b == [] {
      assert a + b == a;
    } else {
      var c, last := b[..|b| - 1], b[|b| - 1];
      InvalidUrlsAppend(a, c);
      assert (a + b)[..|a + b| - 1] == a + c && (a + b)[|a + b| - 1] == last;
    }
  }

  lemma {:induction false} DownloadErrorsAppend(a: seq<Effect>, b: seq<Effect>)
    ensures DownloadErrors(a + b) == DownloadErrors(a) + DownloadErrors(b)
  {
    if b == [] {
      assert a + b == a;
    } else {
      var c, last := b[..|b| - 1], b[|b| - 1];
      DownloadErrorsAppend(a, c);
      assert (a + b)[..|a + b| - 1] == a + c && (a + b)[|a + b| - 1] == last;
    }
  }

  lemma StreamsForInsert(dir: Dir, saved: map<nat, string>, k: nat, url: string)
    requires k !in saved
    ensures StreamsFor(dir, saved[k := url]) == StreamsFor(dir, saved) + {OpenStream(FilePath(dir, ImageFileName(k)), url)}
  {
    var after := saved[k := url];
    forall e | e in StreamsFor(dir, after)
      ensures e in StreamsFor(dir, saved) + {OpenStream(FilePath(dir, ImageFileName(k)), url)}
    {
      var j :| j in after && e == OpenStream(FilePath(dir, ImageFileName(j)), after[j]);
      if j != k {
        assert j in saved && after[j] == saved[j];
      }
    }
    forall e | e in StreamsFor(dir, saved)
      ensures e in StreamsFor(dir, after)
    {
      var j :| j in saved && e == OpenStream(FilePath(dir, ImageFileName(j)), saved[j]);
      assert j in after && after[j] == saved[j];
    }
    assert k in after;
  }

  lemma FilterSnoc(urls: seq<string>, k: nat, p: string -> bool)
    requires k < |urls|
    ensures Filter(urls[..k + 1], p) == Filter(urls[..k], p) + if p(urls[k]) then [urls[k]] else []
  {
    assert urls[..k + 1] == urls[..k] + [urls[k]];
    FilterAppend(urls[..k], [urls[k]], p);
    assert [urls[k]][1..] == [];
  }

  lemma EffectsOnlyAppend(effects: seq<Effect>, tail: seq<Effect>)
    requires LoopEffectsOnly(effects) && LoopEffectsOnly(tail)
    ensures LoopEffectsOnly(effects + tail)
  {
    forall i | 0 <= i < |effects + tail|
      ensures (effects + tail)[i] == if i < |effects| then effects[i] else tail[i - |effects|]
    { }
  }

  /**
   * One pass logs an invalid URL, or requests an `http` URL and then either logs the
   * error or opens the write stream for `image_<k>.jpg`; it does nothing else.
   */
  lemma UrlLogProjections(dir: Dir, k: nat, url: string, download: string -> DownloadOutcome)
    ensures var log := UrlLog(dir, k, url, download);
      && Requests(log) == (if IsHttp(url) then [url] else [])
      && InvalidUrls(log) == (if NotHttp(url) then [url] else [])
      && DownloadErrors(log) == (if Failed(url, download) then [url] else [])
      && Streams(log) == (if Kept(url, download) then {OpenStream(FilePath(dir, ImageFileName(k)), url)} else {})
      && LoopEffectsOnly(log)
  {
    if !IsHttp(url) {
      SingleProjections(InvalidUrl(url));
    } else {
      var second := if download(url) == Fetched then OpenStream(FilePath(dir, ImageFileName(k)), url) else DownloadError(url);
      assert UrlLog(dir, k, url, download) == [Request(url), second];
      PairProjections(Request(url), second);
    }
  }

  lemma SingleProjections(e: Effect)
    ensures Requests([e]) == (if e.Request? then [e.url] else [])
    ensures InvalidUrls([e]) == (if e.InvalidUrl? then [e.url] else [])
    ensures DownloadErrors([e]) == (if e.DownloadError? then [e.url] else [])
    ensures Streams([e]) == (if e.OpenStream? then {e} else {})
  {
    ProjectionsSnoc([], e);
    assert [] + [e] == [e];
  }

  lemma PairProjections(e1: Effect, e2: Effect)
    ensures Requests([e1, e2]) == Requests([e1]) + (if e2.Request? then [e2.url] else [])
    ensures InvalidUrls([e1, e2]) == InvalidUrls([e1]) + (if e2.InvalidUrl? then [e2.url] else [])
    ensures DownloadErrors([e1, e2]) == DownloadErrors([e1]) + (if e2.DownloadError? then [e2.url] else [])
    ensures Streams([e1, e2]) == Streams([e1]) + (if e2.OpenStream? then {e2} else {})
  {
    SingleProjections(e1);
    ProjectionsSnoc([e1], e2);
    assert [e1] + [e2] == [e1, e2];
  }

  lemma LoopLogSnoc(dir: Dir, urls: seq<string>, download: string -> DownloadOutcome, k: nat)
    requires k < |urls|
    ensures LoopLog(dir, urls[..k + 1], download) == LoopLog(dir, urls[..k], download) + UrlLog(dir, k, urls[k], download)
  {
    assert urls[..k + 1][..k] == urls[..k];
  }

  /** Index `k` joins the saved images exactly when URL `k` is kept. */
  lemma SavedImagesSnoc(urls: seq<string>, download: string -> DownloadOutcome, k: nat)
    requires k < |urls|
    ensures k !in SavedImages(urls[..k], download)
    ensures SavedImages(urls[..k + 1], download)
         == if Kept(urls[k], download) then SavedImages(urls[..k], download)[k := urls[k]]
            else SavedImages(urls[..k], download)
  {
    var before, after := SavedImages(urls[..k], download), SavedImages(urls[..k + 1], download);
    var expected := if Kept(urls[k], download) then before[k := urls[k]] else before;
    forall j: nat
      ensures j in after <==> j in expected
      ensures j in after ==> after[j] == expected[j]
    {
      if j < k {
        assert urls[..k + 1][j] == urls[..k][j] == urls[j];
      }
    }
    assert after == expected;
  }

  /** Every `http` URL is requested, in list order, whether or not earlier requests threw. */
  lemma {:induction false} LoopLogRequests(dir: Dir, urls: seq<string>, download: string -> DownloadOutcome)
    ensures Requests(LoopLog(dir, urls, download)) == Filter(urls, IsHttp)
  {
    if urls != [] {
      var n := |urls| - 1;
      LoopLogRequests(dir, urls[..n], download);
      RequestsAppend(LoopLog(dir, urls[..n], download), UrlLog(dir, n, urls[n], download));
      UrlLogProjections(dir, n, urls[n], download);
      FilterSnoc(urls, n, IsHttp);
      assert urls[..n + 1] == urls;
    }
  }

  /** Every URL that does not start with `http` is logged as invalid, in list order. */
  lemma {:induction false} LoopLogInvalidUrls(dir: Dir, urls: seq<string>, download: string -> DownloadOutcome)
    ensures InvalidUrls(LoopLog(dir, urls, download)) == Filter(urls, NotHttp)
  {
    if urls != [] {
      var n := |urls| - 1;
      LoopLogInvalidUrls(dir, urls[..n], download);
      InvalidUrlsAppend(LoopLog(dir, urls[..n], download), UrlLog(dir, n, urls[n], download));
      UrlLogProjections(dir, n, urls[n], download);
      FilterSnoc(urls, n, NotHttp);
      assert urls[..n + 1] == urls;
    }
  }

  /** Every request that throws is logged, in list order, and nothing else is. */
  lemma {:induction false} LoopLogDownloadErrors(dir: Dir, urls: seq<string>, download: string -> DownloadOutcome)
    ensures DownloadErrors(LoopLog(dir, urls, download)) == Filter(urls, u => Failed(u, download))
  {
    if urls != [] {
      var n := |urls| - 1;
      LoopLogDownloadErrors(dir, urls[..n], download);
      DownloadErrorsAppend(LoopLog(dir, urls[..n], download), UrlLog(dir, n, urls[n], download));
      UrlLogProjections(dir, n, urls[n], download);
      FilterSnoc(urls, n, u => Failed(u, download));
      assert urls[..n + 1] == urls;
    }
  }

  /** The write streams opened are exactly one `image_<k>.jpg` per saved index `k`, fed from URL `k`. */
  lemma {:induction false} LoopLogStreams(dir: Dir, urls: seq<string>, download: string -> DownloadOutcome)
    ensures Streams(LoopLog(dir, urls, download)) == StreamsFor(dir, SavedImages(urls, download))
  {
    if urls != [] {
      var n := |urls| - 1;
      var before := LoopLog(dir, urls[..n], download);
      LoopLogStreams(dir, urls[..n], download);
      UrlLogProjections(dir, n, urls[n], download);
      assert Streams(before + UrlLog(dir, n, urls[n], download))
          == Streams(before) + Streams(UrlLog(dir, n, urls[n], download));
      SavedImagesSnoc(urls, download, n);
      assert urls[..n + 1] == urls;
      if Kept(urls[n], download) {
        StreamsForInsert(dir, SavedImages(urls[..n], download), n, urls[n]);
      }
    }
  }

  /** The loop only logs, requests and opens write streams: no folder, no text file. */
  lemma {:induction false} LoopLogEffectsOnly(dir: Dir, urls: seq<string>, download: string -> DownloadOutcome)
    ensures LoopEffectsOnly(LoopLog(dir, urls, download))
  {
    if urls != [] {
      var n := |urls| - 1;
      LoopLogEffectsOnly(dir, urls[..n], download);
      UrlLogProjections(dir, n, urls[n], download);
      EffectsOnlyAppend(LoopLog(dir, urls[..n], download), UrlLog(dir, n, urls[n], download));
    }
  }

  /**
   * The `for (const imageUrl of uniqueFullSizeImageUrls)` loop. A URL that does not start
   * with `http` is logged and skipped; every other URL is requested, and a failed request
   * is logged without stopping the loop. The file index is `indexOf` of the URL in the list.
   */
  method SaveImages(dir: Dir, urls: seq<string>, download: string -> DownloadOutcome)
    returns (effects: seq<Effect>, saved: map<nat, string>)
    requires NoDuplicates(urls)
    ensures effects == LoopLog(dir, urls, download)
    ensures saved == SavedImages(urls, download)
  {
    effects, saved := [], map[];
    for k := 0 to |urls|
      invariant effects == LoopLog(dir, urls[..k], download)
      invariant saved == SavedImages(urls[..k], download)
    {
      var url := urls[k];
      LoopLogSnoc(dir, urls, download, k);
      SavedImagesSnoc(urls, download, k);
      if !IsHttp(url) {
        effects := effects + [InvalidUrl(url)];
        continue;
      }
      // the body of the `try`
      match download(url)
      case FetchFailed =>
        effects := effects + [Request(url), DownloadError(url)];
      case Fetched =>
        // `[...uniqueFullSizeImageUrls].indexOf(imageUrl)`
        var index := IndexOf(urls, url);
        IndexOfUnique(urls, k);
        effects := effects + [Request(url), OpenStream(FilePath(dir, ImageFileName(index)), url)];
        saved := saved[index := url];
    }
    assert urls[..|urls|] == urls;
  }

  /**
   * `saveData(data, basePath)`. The synchronous filesystem calls come first and are not
   * guarded: the first that throws ends the call with an exception. The image loop
   * catches its own errors.
   */
  method SaveData(data: Scraper.ScrapeResult, basePath: string, fs: FsFaults, download: string -> DownloadOutcome)
    returns (threw: bool, effects: seq<Effect>, saved: map<nat, string>)
    ensures threw <==> !SaveOk(fs)
    ensures var dir := FolderOf(data, basePath);
      effects == Prelude(dir, data, fs)[..CompletedSteps(fs)]
                 + if threw then [] else LoopLog(dir, FullSizeImages(data.imageUrls), download)
    ensures saved == if threw then map[] else SavedImages(FullSizeImages(data.imageUrls), download)
  {
    var dir := FolderOf(data, basePath);
    ghost var prelude := Prelude(dir, data, fs);
    effects, saved := [], map[];
    if !fs.dirExists {
      if fs.mkdirThrows {
        threw := true;
        return;
      }
      effects := effects + [MakeDir(dir)];
    }
    if fs.titleWriteThrows {
      threw := true;
      assert effects == prelude[..CompletedSteps(fs)];
      return;
    }
    effects := effects + [WriteText(FilePath(dir, "title.txt"), data.title)];
    if fs.priceWriteThrows {
      threw := true;
      assert effects == prelude[..CompletedSteps(fs)];
      return;
    }
    effects := effects + [WriteText(FilePath(dir, "price.txt"), data.price)];
    assert effects == prelude[..CompletedSteps(fs)];
    threw := false;
    var imageEffects;
    imageEffects, saved := SaveImages(dir, FullSizeImages(data.imageUrls), download);
    effects := effects + imageEffects;
  }

  /** The URLs `saveData` hands to the downloader: the full-size `http` ones, each distinct one once. */
  lemma AttemptedUrls(imageUrls: seq<string>, u: string)
    ensures u in Filter(FullSizeImages(imageUrls), IsHttp) <==> u in imageUrls && IsFullSize(u) && IsHttp(u)
    ensures NoDuplicates(Filter(FullSizeImages(imageUrls), IsHttp))
  {
    FilterMembers(FullSizeImages(imageUrls), IsHttp, u);
    FullSizeImagesMembers(imageUrls, u);
    FilterKeepsNoDuplicates(FullSizeImages(imageUrls), IsHttp);
  }

  /**
   * A saved file's index is the position of its URL in the deduplicated full-size list,
   * and two saved files never share a name or a URL.
   */
  lemma SavedImagesIndexed(urls: seq<string>, download: string -> DownloadOutcome, j: nat, k: nat)
    requires NoDuplicates(urls)
    requires j in SavedImages(urls, download) && k in SavedImages(urls, download)
    ensures var saved := SavedImages(urls, download);
      && saved[k] in urls && IsHttp(saved[k]) && download(saved[k]) == Fetched
      && IndexOf(urls, saved[k]) == k
      && (j != k ==> saved[j] != saved[k] && ImageFileName(j) != ImageFileName(k))
  {
    IndexOfUnique(urls, k);
    ImageFileNamesDistinct(j, k);
  }

  /**
   * A URL skipped for not starting with `http` still takes its index: with every request
   * succeeding, a protocol-relative URL followed by an `http` one saves only the second,
   * as `image_1.jpg`, and there is no `image_0.jpg`.
   */
  lemma SkippedUrlLeavesGap(a: string, b: string)
    requires a == "//x/s-l1600" && b == "http://x/s-l1600"
    ensures SavedImages(FullSizeImages([a, b]), _ => Fetched) == map[1 := b]
  {
    assert IsFullSize(a) by {
      assert StartsWith(a[4..], FullSizeMarker);
      IncludesAt(a, FullSizeMarker);
    }
    assert IsFullSize(b) by {
      assert StartsWith(b[9..], FullSizeMarker);
      IncludesAt(b, FullSizeMarker);
    }
    assert FullSizeImages([a, b]) == [a, b] by {
      FullSizeImagesOfUnique([a, b]);
      assert Filter([a, b], IsFullSize) == [a, b];
    }
    assert !IsHttp(a) by {
      assert a[..4][0] != 'h';
    }
    assert IsHttp(b) by {
      assert b[..4] == "http";
    }
  }

  /** The folder for an item titled "Old Lamp Co" is `Old_Lamp`. */
  lemma FolderNameExample(title: string)
    requires title == "Old Lamp Co"
    ensures FolderName(title) == "Old_Lamp"
  {
    var rest := title[4..];
    assert ' ' in title && IndexOf(title, ' ') == 3 by {
      assert title[..3] == "Old" && title[3] == ' ';
      IndexOfFirst(title, ' ', 3);
    }
    assert ' ' in rest && IndexOf(rest, ' ') == 4 by {
      assert rest[..4] == "Lamp" && rest[4] == ' ';
      IndexOfFirst(rest, ' ', 4);
    }
    assert title[..3] == "Old" && rest[..4] == "Lamp";
    assert "Old" + "_" + "Lamp" == "Old_Lamp";
    FolderNameShape(title);
  }
}
