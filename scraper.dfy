/**
 * `scrapeItemData`: open a browser on the listing page, read the title, the price and the
 * image URLs in that order, close the browser, and return the three fields.
 * The browser is an oracle: for every field it says whether `waitForSelector` finds a
 * visible element, gives no handle, or times out (throws), and whether the `$eval` /
 * `$$eval` that follows returns a value or throws.
 */
module Scraper {
  import opened Seqs

  /** An `<img>` element: its `data-zoom-src` attribute (`getAttribute` gives null when absent) and its `src` property. */
  datatype ImgElement = ImgElement(zoomSrc: Option<string>, src: string)

  /** `img.getAttribute('data-zoom-src') || img.src`: a null or empty attribute is falsy. */
  function CandidateUrl(img: ImgElement): string {
    if img.zoomSrc.Some? && img.zoomSrc.value != "" then img.zoomSrc.value else img.src
  }

  /**
   * What `||` promises: the candidate is one of the element's two URLs, and it is empty
   * only when both are, so an element with a `src` never contributes an empty URL.
   */
  lemma CandidateUrlChoice(img: ImgElement)
    ensures CandidateUrl(img) == img.src || (img.zoomSrc.Some? && CandidateUrl(img) == img.zoomSrc.value)
    ensures CandidateUrl(img) == "" <==> (img.zoomSrc.None? || img.zoomSrc.value == "") && img.src == ""
  {
  }

  /** `imgs.map(...)` inside `$$eval`: one candidate per element, in document order. */
  function Candidates(imgs: seq<ImgElement>): seq<string> {
    seq(|imgs|, i requires 0 <= i < |imgs| => CandidateUrl(imgs[i]))
  }

  /**
   * `imageUrls.forEach(url => imageUrlsSet.add(url))` followed by `Array.from(imageUrlsSet)`.
   * The set is kept as its membership `added` and its insertion order `urls`.
   */
  method CollectImageUrls(imgs: seq<ImgElement>) returns (urls: seq<string>)
    ensures urls == Dedup(Candidates(imgs))
    ensures NoDuplicates(urls)
    ensures forall u :: u in urls <==> exists i :: 0 <= i < |imgs| && CandidateUrl(imgs[i]) == u
  {
    var candidates := Candidates(imgs);
    assert |candidates| == |imgs| && forall i :: 0 <= i < |imgs| ==> candidates[i] == CandidateUrl(imgs[i]);
    var added: set<string> := {};
    urls := [];
    for i := 0 to |candidates|
      invariant urls == Dedup(candidates[..i])
      invariant forall u :: u in added <==> u in urls
    {
      var u := candidates[i];
      assert candidates[..i + 1] == candidates[..i] + [u];
      if u !in added {
        urls := urls + [u];
        added := added + {u};
      }
    }
    assert candidates[..|candidates|] == candidates;
    forall u | u in urls
      ensures exists i :: 0 <= i < |imgs| && CandidateUrl(imgs[i]) == u
    {
      var i :| 0 <= i < |candidates| && candidates[i] == u;
    }
  }

  /** What `waitForSelector(sel, {visible: true, timeout: 5000})` does. */
  datatype WaitOutcome = Visible | NoHandle | TimedOut

  /** What the `$eval` / `$$eval` after a successful wait does. */
  datatype Read<T> = Value(value: T) | Threw

  datatype FieldOracle<T> = FieldOracle(wait: WaitOutcome, read: Read<T>)

  /**
   * The page behind the URL. `launches` says whether `puppeteer.launch` succeeds,
   * `navigates` whether `newPage` and `goto` then succeed; `textContent.trim()` is part of
   * what the title and price reads return.
   */
  datatype Page = Page(
    launches: bool,
    navigates: bool,
    title: FieldOracle<string>,
    price: FieldOracle<string>,
    images: FieldOracle<seq<ImgElement>>)

  datatype Field = Title | Price | Images

  /** The browser calls made, in order: `Open` is the launched browser, `Close` its `close()`. */
  datatype Call = Open | WaitFor(field: Field) | Eval(field: Field) | Close

  datatype ScrapeResult = ScrapeResult(title: string, imageUrls: seq<string>, price: string)

  /** Where the exception that aborts a scrape came from. */
  datatype FailPoint = Launch | Navigation | AtField(field: Field)

  datatype ScrapeOutcome = Scraped(result: ScrapeResult) | ScrapeFailed(at: FailPoint)

  /** The order in which the fields are read. */
  function Rank(f: Field): nat {
    match f
    case Title => 0
    case Price => 1
    case Images => 2
  }

  /** The field's wait times out, or the element is there and reading it throws. */
  predicate Throws<T>(o: FieldOracle<T>) {
    o.wait == TimedOut || (o.wait == Visible && o.read.Threw?)
  }

  predicate FieldThrows(page: Page, f: Field) {
    match f
    case Title => Throws(page.title)
    case Price => Throws(page.price)
    case Images => Throws(page.images)
  }

  function FieldWait(page: Page, f: Field): WaitOutcome {
    match f
    case Title => page.title.wait
    case Price => page.price.wait
    case Images => page.images.wait
  }

  predicate NoFieldThrows(page: Page) {
    forall f :: !FieldThrows(page, f)
  }

  /** The browser launches, the page opens and none of the three reads throws. */
  predicate Succeeds(page: Page) {
    page.launches && page.navigates && NoFieldThrows(page)
  }

  /** A field that does not throw keeps its initial value unless its element is visible. */
  function FieldValue<T>(o: FieldOracle<T>, initial: T): T
    requires !Throws(o)
  {
    if o.wait == Visible then o.read.value else initial
  }

  /** What a successful scrape returns, field by field, independently of the order of the reads. */
  function ExpectedResult(page: Page): ScrapeResult
    requires NoFieldThrows(page)
  {
    assert !FieldThrows(page, Title) && !FieldThrows(page, Price) && !FieldThrows(page, Images);
    ScrapeResult(
      FieldValue(page.title, ""),
      Dedup(Candidates(FieldValue(page.images, []))),
      FieldValue(page.price, ""))
  }

  /** One `if (await page.waitForSelector(...)) { ... = await page.$eval(...) }` block. */
  method ReadField<T>(o: FieldOracle<T>, f: Field) returns (threw: bool, value: Option<T>, calls: seq<Call>)
    ensures threw == Throws(o)
    ensures value.Some? <==> !threw && o.wait == Visible
    ensures value.Some? ==> o.read == Value(value.value)
    ensures calls == if o.wait == Visible then [WaitFor(f), Eval(f)] else [WaitFor(f)]
  {
    calls := [WaitFor(f)];
    value := None;
    threw := false;
    match o.wait
    case TimedOut =>
      threw := true;
    case NoHandle =>
    case Visible =>
      calls := calls + [Eval(f)];
      match o.read
      case Threw => threw := true;
      case Value(v) => value := Some(v);
  }

  /** The fields in the order the source reads them. */
  const FieldOrder: seq<Field> := [Title, Price, Images]

  /** The calls one field read makes: the wait, then the read when the element is visible. */
  function FieldCalls(page: Page, f: Field): seq<Call> {
    if FieldWait(page, f) == Visible then [WaitFor(f), Eval(f)] else [WaitFor(f)]
  }

  /** The calls of the first `n` field reads, one chunk per field in the source's order. */
  function Attempted(page: Page, n: nat): seq<Call>
    requires n <= |FieldOrder|
  {
    if n == 0 then [] else Attempted(page, n - 1) + FieldCalls(page, FieldOrder[n - 1])
  }

  /**
   * How many field reads run: up to and including the first that throws, all three when
   * none throws.
   */
  function FieldsReached(page: Page): (n: nat)
    ensures 1 <= n <= |FieldOrder|
    ensures forall g :: Rank(g) < n - 1 ==> !FieldThrows(page, g)
    ensures n < |FieldOrder| ==> FieldThrows(page, FieldOrder[n - 1])
    ensures NoFieldThrows(page) ==> n == |FieldOrder|
  {
    if FieldThrows(page, Title) then 1
    else if FieldThrows(page, Price) then 2
    else 3
  }

  /**
   * The browser calls of `scrapeItemData`: nothing when the launch throws, the launch
   * alone when opening the page throws, otherwise the launch, the field reads that ran
   * and the `finally` close.
   */
  function ScrapeCalls(page: Page): seq<Call> {
    if !page.launches then []
    else if !page.navigates then [Open]
    else [Open] + Attempted(page, FieldsReached(page)) + [Close]
  }

  /** The fields whose `waitForSelector` was called, in call order. */
  function WaitedFields(calls: seq<Call>): seq<Field> {
    if calls == [] then []
    else (if calls[0].WaitFor? then [calls[0].field] else []) + WaitedFields(calls[1..])
  }

  /** The fields whose `$eval` / `$$eval` was called, in call order. */
  function EvaluatedFields(calls: seq<Call>): seq<Field> {
    if calls == [] then []
    else (if calls[0].Eval? then [calls[0].field] else []) + EvaluatedFields(calls[1..])
  }

  lemma {:induction false} CallsAppend(a: seq<Call>, b: seq<Call>)
    ensures WaitedFields(a + b) == WaitedFields(a) + WaitedFields(b)
    ensures EvaluatedFields(a + b) == EvaluatedFields(a) + EvaluatedFields(b)
  {
    WaitedAppend(a, b);
    EvaluatedAppend(a, b);
  }

  lemma {:induction false} WaitedAppend(a: seq<Call>, b: seq<Call>)
    ensures WaitedFields(a + b) == WaitedFields(a) + WaitedFields(b)
  {
    if a == [] {
      assert a + b == b;
    } else {
      var head := if a[0].WaitFor? then [a[0].field] else [];
      assert (a + b)[0] == a[0];
      assert (a + b)[1..] == a[1..] + b;
      WaitedAppend(a[1..], b);
      assert WaitedFields(a + b) == head + WaitedFields(a[1..] + b);
      assert WaitedFields(a) == head + WaitedFields(a[1..]);
    }
  }

  lemma {:induction false} EvaluatedAppend(a: seq<Call>, b: seq<Call>)
    ensures EvaluatedFields(a + b) == EvaluatedFields(a) + EvaluatedFields(b)
  {
    if a == [] {
      assert a + b == b;
    } else {
      var head := if a[0].Eval? then [a[0].field] else [];
      assert (a + b)[0] == a[0];
      assert (a + b)[1..] == a[1..] + b;
      EvaluatedAppend(a[1..], b);
      assert EvaluatedFields(a + b) == head + EvaluatedFields(a[1..] + b);
      assert EvaluatedFields(a) == head + EvaluatedFields(a[1..]);
    }
  }

  lemma {:induction false} WaitedMembers(calls: seq<Call>)
    ensures forall f :: WaitFor(f) in calls <==> f in WaitedFields(calls)
    ensures forall f :: Eval(f) in calls <==> f in EvaluatedFields(calls)
  {
    if calls != [] {
      WaitedMembers(calls[1..]);
      assert calls == [calls[0]] + calls[1..];
    }
  }

  /** The fields among `fields` whose element turned up visible, so that their value is read. */
  function VisibleAmong(page: Page, fields: seq<Field>): seq<Field> {
    Filter(fields, f => FieldWait(page, f) == Visible)
  }

  /**
   * The field calls made so far: only waits and reads, the waits following the source's
   * field order, and a read exactly for each waited field whose element was visible.
   */
  predicate TriedSoFar(page: Page, tried: seq<Call>, n: nat)
    requires n <= |FieldOrder|
  {
    && FieldCallsOnly(tried)
    && WaitedFields(tried) == FieldOrder[..n]
    && EvaluatedFields(tried) == VisibleAmong(page, WaitedFields(tried))
  }

  /** Appending the calls of the next field read in order keeps `TriedSoFar`. */
  lemma ReadAppend(page: Page, before: seq<Call>, chunk: seq<Call>, f: Field)
    requires TriedSoFar(page, before, Rank(f))
    requires chunk == if FieldWait(page, f) == Visible then [WaitFor(f), Eval(f)] else [WaitFor(f)]
    ensures TriedSoFar(page, before + chunk, Rank(f) + 1)
  {
    var after := before + chunk;
    CallsAppend(before, chunk);
    ChunkFields(page, chunk, f);
    VisibleAmongSnoc(page, WaitedFields(before), f);
    assert FieldOrder[..Rank(f) + 1] == FieldOrder[..Rank(f)] + [f];
    assert WaitedFields(after) == WaitedFields(before) + [f];
    assert EvaluatedFields(after) == EvaluatedFields(before) + EvaluatedFields(chunk);
    forall i | 0 <= i < |after| ensures after[i].WaitFor? || after[i].Eval? {
      if i >= |before| { assert after[i] == chunk[i - |before|]; }
    }
  }

  /** The chunks of the first `n` fields wait for those fields in order and read exactly the visible ones. */
  lemma {:induction false} AttemptedSoFar(page: Page, n: nat)
    requires n <= |FieldOrder|
    ensures TriedSoFar(page, Attempted(page, n), n)
  {
    if n == 0 {
      NoFieldCalls(page, []);
    } else {
      var f := FieldOrder[n - 1];
      AttemptedSoFar(page, n - 1);
      assert Rank(f) == n - 1;
      ReadAppend(page, Attempted(page, n - 1), FieldCalls(page, f), f);
    }
  }

  /** The calls of one field read wait for that field, and read it when it is visible. */
  lemma ChunkFields(page: Page, chunk: seq<Call>, f: Field)
    requires chunk == if FieldWait(page, f) == Visible then [WaitFor(f), Eval(f)] else [WaitFor(f)]
    ensures FieldCallsOnly(chunk)
    ensures WaitedFields(chunk) == [f]
    ensures EvaluatedFields(chunk) == if FieldWait(page, f) == Visible then [f] else []
  {
    assert [Eval(f)][1..] == [] && [WaitFor(f)][1..] == [];
    assert WaitedFields([Eval(f)]) == [] + WaitedFields([]) == [];
    assert EvaluatedFields([Eval(f)]) == [f] + EvaluatedFields([]) == [f];
    assert WaitedFields([WaitFor(f)]) == [f] + WaitedFields([]) == [f];
    assert EvaluatedFields([WaitFor(f)]) == [] + EvaluatedFields([]) == [];
    if FieldWait(page, f) == Visible {
      assert chunk[1..] == [Eval(f)];
    }
  }

  lemma VisibleAmongSnoc(page: Page, fields: seq<Field>, f: Field)
    ensures VisibleAmong(page, fields + [f]) == VisibleAmong(page, fields) + if FieldWait(page, f) == Visible then [f] else []
  {
    var p := f => FieldWait(page, f) == Visible;
    FilterAppend(fields, [f], p);
    assert [f][1..] == [];
    assert Filter([f], p) == (if p(f) then [f] else []) + Filter([], p);
  }

  /** Calls that wait for no field evaluate none either. */
  lemma NoFieldCalls(page: Page, calls: seq<Call>)
    requires forall i :: 0 <= i < |calls| ==> calls[i] == Open || calls[i] == Close
    ensures WaitedFields(calls) == [] && EvaluatedFields(calls) == []
  {
    if calls != [] {
      NoFieldCalls(page, calls[1..]);
    }
  }

  /** Only field waits and field reads: what happens inside the `try`. */
  predicate FieldCallsOnly(calls: seq<Call>) {
    forall i :: 0 <= i < |calls| ==> calls[i].WaitFor? || calls[i].Eval?
  }

  /** Wrapping the `try` calls in the opening and the `finally` close adds no field call. */
  lemma {:induction false} Session(page: Page, tried: seq<Call>)
    requires FieldCallsOnly(tried)
    ensures var calls := [Open] + tried + [Close];
      && WaitedFields(calls) == WaitedFields(tried)
      && EvaluatedFields(calls) == EvaluatedFields(tried)
      && Open !in calls[1..] && Close !in calls[..|calls| - 1]
  {
    var calls := [Open] + tried + [Close];
    NoFieldCalls(page, [Open]);
    NoFieldCalls(page, [Close]);
    CallsAppend([Open], tried);
    CallsAppend([Open] + tried, [Close]);
    assert calls[1..] == tried + [Close];
    assert calls[..|calls| - 1] == [Open] + tried;
  }

  /**
   * The body of the `try` in `scrapeItemData`: title, then price, then images; the first
   * read that throws ends the block.
   */
  method ReadFields(page: Page) returns (outcome: ScrapeOutcome, tried: seq<Call>)
    ensures outcome.Scraped? <==> NoFieldThrows(page)
    ensures outcome.Scraped? ==> outcome.result == ExpectedResult(page)
    ensures outcome.Scraped? ==> NoDuplicates(outcome.result.imageUrls)
    ensures outcome.ScrapeFailed? ==> outcome.at == AtField(FieldOrder[FieldsReached(page) - 1])
    ensures tried == Attempted(page, FieldsReached(page))
  {
    tried := [];
    var title, price, imageUrls := "", "", [];
    var threw, titleRead, titleCalls := ReadField(page.title, Title);
    tried := tried + titleCalls;
    assert tried == Attempted(page, 1);
    if threw {
      assert FieldThrows(page, Title);
      outcome := ScrapeFailed(AtField(Title));
      return;
    }
    if titleRead.Some? { title := titleRead.value; }
    var threw2, priceRead, priceCalls := ReadField(page.price, Price);
    tried := tried + priceCalls;
    assert tried == Attempted(page, 2);
    if threw2 {
      assert FieldThrows(page, Price);
      outcome := ScrapeFailed(AtField(Price));
      return;
    }
    if priceRead.Some? { price := priceRead.value; }
    var threw3, imagesRead, imageCalls := ReadField(page.images, Images);
    tried := tried + imageCalls;
    assert tried == Attempted(page, 3);
    if threw3 {
      assert FieldThrows(page, Images);
      outcome := ScrapeFailed(AtField(Images));
      return;
    }
    if imagesRead.Some? { imageUrls := CollectImageUrls(imagesRead.value); }
    assert NoFieldThrows(page) by {
      forall f ensures !FieldThrows(page, f) {
        match f
        case Title =>
        case Price =>
        case Images =>
      }
    }
    outcome := Scraped(ScrapeResult(title, imageUrls, price));
  }

  /**
   * `scrapeItemData(url)` run against `page`. Launching the browser and opening the page
   * happen before the `try`: a failed launch leaves nothing to close, a failed navigation
   * leaves the browser open. The reads sit in one `try` whose `finally` closes the browser,
   * and an error propagates after the close.
   */
  method ScrapeItemData(page: Page) returns (outcome: ScrapeOutcome, calls: seq<Call>)
    ensures outcome.Scraped? <==> Succeeds(page)
    ensures outcome.Scraped? ==> outcome.result == ExpectedResult(page)
    ensures outcome.Scraped? ==> NoDuplicates(outcome.result.imageUrls)
    ensures calls == ScrapeCalls(page)
    ensures !page.launches ==> outcome == ScrapeFailed(Launch)
    ensures page.launches && !page.navigates ==> outcome == ScrapeFailed(Navigation)
    ensures page.launches && page.navigates && outcome.ScrapeFailed? ==>
      && outcome.at == AtField(FieldOrder[FieldsReached(page) - 1])
      && FieldThrows(page, outcome.at.field)
      && (forall g :: Rank(g) < Rank(outcome.at.field) ==> !FieldThrows(page, g))
  {
    if !page.launches {
      calls := [];
      outcome := ScrapeFailed(Launch);
      return;
    }
    calls := [Open];
    if !page.navigates {
      outcome := ScrapeFailed(Navigation);
      return;
    }
    var tried;
    outcome, tried := ReadFields(page);
    calls := calls + tried + [Close];
  }

  /**
   * When the page opens, the browser is launched once, first, and closed once, last; the
   * waits follow the field order up to the first field that throws, and a field is read
   * exactly when its wait found a visible element.
   */
  lemma ScrapeCallsShape(page: Page)
    requires page.launches && page.navigates
    ensures var calls := ScrapeCalls(page);
      && |calls| >= 2 && calls[0] == Open && calls[|calls| - 1] == Close
      && Open !in calls[1..] && Close !in calls[..|calls| - 1]
      && WaitedFields(calls) == FieldOrder[..FieldsReached(page)]
      && EvaluatedFields(calls) == VisibleAmong(page, FieldOrder[..FieldsReached(page)])
    ensures forall f :: WaitFor(f) in ScrapeCalls(page) <==> Rank(f) < FieldsReached(page)
    ensures forall f :: Eval(f) in ScrapeCalls(page) <==>
      Rank(f) < FieldsReached(page) && FieldWait(page, f) == Visible
  {
    var n := FieldsReached(page);
    AttemptedSoFar(page, n);
    Session(page, Attempted(page, n));
    var calls := ScrapeCalls(page);
    WaitedMembers(calls);
    forall f ensures f in FieldOrder[..n] <==> Rank(f) < n {
      assert FieldOrder[Rank(f)] == f;
    }
    forall f ensures f in VisibleAmong(page, FieldOrder[..n]) <==> f in FieldOrder[..n] && FieldWait(page, f) == Visible {
      FilterMembers(FieldOrder[..n], f => FieldWait(page, f) == Visible, f);
    }
  }
}
