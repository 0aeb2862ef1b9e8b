/**
 * The article lookup of the server actions: one title is looked up in an
 * in-memory cache, and on a miss the page summary, the article HTML and
 * the open-search suggestions are requested from Wikipedia and combined
 * into one search result, which is cached for a day.
 *
 * The Wikipedia endpoints are inputs: functions from the request URL to
 * the response. The clock is the `now` parameter (milliseconds).
 */
module Wikipedia {
  import opened Wrappers
  import opened Text
  import opened Uri
  import opened Markup
  import opened Categories
  import opened ArticleText

  const CacheDuration: nat := 1000 * 60 * 60 * 24
  const MaxRelated: nat := 3
  const RelatedSummaryLength: nat := 150
  const IdLength: nat := 12

  // ---------------------------------------------------------------------
  // Records
  // ---------------------------------------------------------------------

  datatype RelatedArticle = RelatedArticle(title: string, summary: string, url: string, thumbnail: Option<string>)

  /** A search result; the optional fields are the ones some results leave out. */
  datatype SearchResult = SearchResult(
    title: string,
    summary: string,
    articleContent: Option<string>,
    url: string,
    id: string,
    mediaUrl: string,
    mediaCaption: Option<string>,
    categories: Option<seq<string>>,
    lastModified: Option<string>,
    language: Option<string>,
    relatedArticles: seq<RelatedArticle>,
    readingTime: Option<nat>)

  datatype CacheEntry = CacheEntry(data: SearchResult, timestamp: int)

  // ---------------------------------------------------------------------
  // Upstream responses
  // ---------------------------------------------------------------------

  /** What a failed request or a throw carries: an `Error` with its message, or some other value. */
  datatype Failure = ErrorObject(message: string) | OtherValue

  /**
   * A page summary of the REST API. An empty string stands for a field that
   * is missing or empty: the source treats both alike (`||`, `?:`).
   */
  datatype PageSummary = PageSummary(
    title: string, extract: string, pageUrl: string, thumbnail: string,
    timestamp: Option<string>, lang: string)

  datatype SummaryResponse =
    | SummaryOk(page: PageSummary)
    | SummaryNotFound
    | SummaryError(statusText: string, message: string)
    | SummaryUnreachable(failure: Failure)

  datatype HtmlResponse = HtmlOk(html: string) | HtmlNotOk | HtmlUnreachable(failure: Failure)

  /** The open-search answer: `data[1]` when it is an array, and `data[3]`. */
  datatype OpenSearchResponse =
    | OpenSearchOk(titles: Option<seq<string>>, urls: seq<string>)
    | OpenSearchNotOk
    | OpenSearchUnreachable(failure: Failure)

  datatype Upstream = Upstream(
    summary: string -> SummaryResponse,
    html: string -> HtmlResponse,
    openSearch: string -> OpenSearchResponse,
    caption: (string, string) -> CaptionSearch)

  function SummaryUrl(formattedTitle: string): string {
    "https://en.wikipedia.org/api/rest_v1/page/summary/" + formattedTitle
  }

  function HtmlUrl(formattedTitle: string): string {
    "https://en.wikipedia.org/api/rest_v1/page/html/" + formattedTitle
  }

  function OpenSearchUrl(formattedTitle: string): string {
    "https://en.wikipedia.org/w/api.php?action=opensearch&search=" + formattedTitle
    + "&limit=5&namespace=0&format=json&origin=*"
  }

  // ---------------------------------------------------------------------
  // Keys, ids and fixed records
  // ---------------------------------------------------------------------

  /** The cache key: the trimmed title, URI-encoded and lower-cased. */
  function CacheKey(title: string): string {
    AsciiLower(EncodeUriComponent(Trim(title)))
  }

  predicate Fresh(e: CacheEntry, now: int) {
    now - e.timestamp < CacheDuration
  }

  /** The first twelve characters of the base64 form of the title's UTF-8 bytes. */
  function ArticleId(title: string): (id: string)
    ensures |id| <= IdLength
    ensures forall k :: 0 <= k < |id| ==> IsBase64Char(id[k])
    ensures 0 < |title| ==> |id| >= 4
  {
    var full := Base64(Utf8(title));
    if |full| <= IdLength then full else full[..IdLength]
  }

  function NotFoundRecord(title: string, id: string): SearchResult {
    SearchResult(title, "No Wikipedia article found for \"" + title + "\". Please try another search.",
      Some(""), "", id, "", None, None, None, None, [], Some(0))
  }

  function FailureText(f: Failure): string {
    match f
    case ErrorObject(m) => m
    case OtherValue => "Please try again later."
  }

  function ErrorRecord(title: string, now: nat, f: Failure): SearchResult {
    SearchResult(title, "Error fetching data for \"" + title + "\". " + FailureText(f),
      None, "", "error-" + NatToString(now), "", None, None, None, None, [], None)
  }

  // ---------------------------------------------------------------------
  // The parts of a successful lookup
  // ---------------------------------------------------------------------

  datatype ArticleBody = ArticleBody(content: string, categories: seq<string>, caption: string)

  /** The article HTML: sanitised content, categories and caption from the raw HTML; empty when not ok. */
  function FetchBody(page: PageSummary, formattedTitle: string, up: Upstream, passes: RemovalPasses)
    : (r: Result<ArticleBody, Failure>)
  {
    match up.html(HtmlUrl(formattedTitle))
    case HtmlNotOk => Success(ArticleBody("", [], ""))
    case HtmlUnreachable(f) => Failure(f)
    case HtmlOk(raw) =>
      match ExtractImageCaption(raw, page.thumbnail, up.caption)
      case Failure(m) => Failure(ErrorObject(m))
      case Success(c) => Success(ArticleBody(Sanitize(raw, passes), CategoriesOf(raw), c))
  }

  /** `data[3][index]`; a missing entry is the empty string here. */
  function UrlAt(urls: seq<string>, i: nat): string {
    if i < |urls| then urls[i] else ""
  }

  /** The entry for one suggestion: nothing for the current article, else its summary or the fallback. */
  function RelatedFor(title: string, index: nat, urls: seq<string>, current: string, up: Upstream)
    : (r: Option<RelatedArticle>)
    ensures r.None? <==> title == current
  {
    if title == current then None
    else match up.summary(SummaryUrl(EncodeUriComponent(title)))
      case SummaryOk(p) =>
        Some(RelatedArticle(
          p.title,
          if p.extract != [] then Substring(p.extract, 0, RelatedSummaryLength) + "..." else "",
          if p.pageUrl != [] then p.pageUrl else UrlAt(urls, index),
          Some(p.thumbnail)))
      case _ => Some(RelatedArticle(title, "", UrlAt(urls, index), None))
  }

  /** The first three suggestions, each resolved to an entry or to nothing. */
  function RelatedCandidates(titles: seq<string>, urls: seq<string>, current: string, up: Upstream)
    : (r: seq<Option<RelatedArticle>>)
    ensures |r| == if |titles| < MaxRelated then |titles| else MaxRelated
    ensures forall i :: 0 <= i < |r| ==> r[i] == RelatedFor(titles[i], i, urls, current, up)
  {
    var top := if |titles| <= MaxRelated then titles else titles[..MaxRelated];
    seq(|top|, i requires 0 <= i < |top| => RelatedFor(top[i], i, urls, current, up))
  }

  /** The entries that are present, in order. */
  function Present<T>(xs: seq<Option<T>>): (r: seq<T>)
    ensures |r| <= |xs|
  {
    if xs == [] then []
    else (if xs[0].Some? then [xs[0].value] else []) + Present(xs[1..])
  }

  lemma {:induction false} PresentAppend<T>(xs: seq<Option<T>>, ys: seq<Option<T>>)
    ensures Present(xs + ys) == Present(xs) + Present(ys)
    decreases |xs|
  {
    if xs == [] {
      assert xs + ys == ys;
    } else {
      assert (xs + ys)[0] == xs[0];
      assert (xs + ys)[1..] == xs[1..] + ys;
      PresentAppend(xs[1..], ys);
    }
  }

  /** Every present entry comes from some position of the list that holds it. */
  lemma {:induction false} PresentFrom<T>(xs: seq<Option<T>>)
    ensures forall y :: y in Present(xs) ==> Some(y) in xs
    decreases |xs|
  {
    if xs != [] {
      PresentFrom(xs[1..]);
      forall y | y in Present(xs) ensures Some(y) in xs {
        if y in Present(xs[1..]) { assert Some(y) in xs[1..]; }
      }
    }
  }

  /** The `forEach` that pushes each resolved entry that is not null. */
  method CollectRelated(resolved: seq<Option<RelatedArticle>>) returns (related: seq<RelatedArticle>)
    ensures related == Present(resolved)
  {
    related := [];
    var i := 0;
    while i < |resolved|
      invariant i <= |resolved|
      invariant related == Present(resolved[..i])
    {
      PresentAppend(resolved[..i], [resolved[i]]);
      assert resolved[..i + 1] == resolved[..i] + [resolved[i]];
      if resolved[i].Some? {
        related := related + [resolved[i].value];
      }
      i := i + 1;
    }
    assert resolved[..i] == resolved;
  }

  /** The related articles from the open-search suggestions; none when that request is not ok. */
  function FetchRelated(page: PageSummary, formattedTitle: string, up: Upstream)
    : (r: Result<seq<RelatedArticle>, Failure>)
  {
    match up.openSearch(OpenSearchUrl(formattedTitle))
    case OpenSearchNotOk => Success([])
    case OpenSearchUnreachable(f) => Failure(f)
    case OpenSearchOk(titles, urls) =>
      match titles
      case None => Success([])
      case Some(ts) => Success(Present(RelatedCandidates(ts, urls, page.title, up)))
  }

  function SuccessRecord(page: PageSummary, id: string, body: ArticleBody, related: seq<RelatedArticle>)
    : SearchResult
  {
    SearchResult(
      page.title, page.extract, Some(body.content), page.pageUrl, id, page.thumbnail,
      Some(body.caption), Some(body.categories), page.timestamp,
      Some(if page.lang != [] then page.lang else "en"),
      related, Some(ReadingTime(ReplaceTags(body.content, true, " "))))
  }

  // ---------------------------------------------------------------------
  // The lookup
  // ---------------------------------------------------------------------

  /** A lookup that missed the cache: the result, and whether it is stored. */
  function Miss(title: string, formatted: string, now: nat, up: Upstream, passes: RemovalPasses)
    : (SearchResult, bool)
  {
    var id := ArticleId(title);
    match up.summary(SummaryUrl(formatted))
    case SummaryNotFound => (NotFoundRecord(title, id), true)
    case SummaryError(statusText, message) =>
      var reason := if message != [] then message else statusText;
      (ErrorRecord(title, now, ErrorObject("Wikipedia API error: " + reason)), false)
    case SummaryUnreachable(f) => (ErrorRecord(title, now, f), false)
    case SummaryOk(page) =>
      match FetchBody(page, formatted, up, passes)
      case Failure(f) => (ErrorRecord(title, now, f), false)
      case Success(body) =>
        match FetchRelated(page, formatted, up)
        case Failure(f) => (ErrorRecord(title, now, f), false)
        case Success(related) => (SuccessRecord(page, id, body, related), true)
  }

  /** The cache after a miss: the result is stored under its key when the miss says so. */
  function Remember(entries: map<string, CacheEntry>, key: string, now: nat, m: (SearchResult, bool))
    : (SearchResult, map<string, CacheEntry>)
  {
    (m.0, if m.1 then entries[key := CacheEntry(m.0, now)] else entries)
  }

  /** `fetchWikipediaData`: the result, and the cache after the call. */
  function Lookup(entries: map<string, CacheEntry>, title: string, now: nat, up: Upstream, passes: RemovalPasses)
    : (SearchResult, map<string, CacheEntry>)
  {
    if title == [] then (ErrorRecord(title, now, ErrorObject("Invalid search title")), entries)
    else
      var key := CacheKey(title);
      if key in entries && Fresh(entries[key], now) then (entries[key].data, entries)
      else Remember(entries, key, now, Miss(title, EncodeUriComponent(Trim(title)), now, up, passes))
  }

  /** True when the lookup of `title` at `now` finds no fresh entry and goes upstream. */
  predicate Misses(entries: map<string, CacheEntry>, title: string, now: nat) {
    title != [] && !(CacheKey(title) in entries && Fresh(entries[CacheKey(title)], now))
  }

  // ---------------------------------------------------------------------
  // Properties of the lookup
  // ---------------------------------------------------------------------

  /** Titles that differ only in surrounding white space share one cache entry. */
  lemma CacheKeyIgnoresSurroundingSpace(a: string, title: string, b: string)
    requires AllSpace(a) && AllSpace(b)
    ensures CacheKey(a + title + b) == CacheKey(title)
  {
    TrimIgnoresSurroundingSpace(a, title, b);
  }

  /** Titles that differ only in the case of ASCII letters share one cache entry. */
  lemma CacheKeyIgnoresAsciiCase(t1: string, t2: string)
    requires AsciiLower(t1) == AsciiLower(t2)
    ensures CacheKey(t1) == CacheKey(t2)
  {
    TrimLower(t1);
    EncodeHidesAsciiCase(Trim(t1));
    TrimLower(t2);
    EncodeHidesAsciiCase(Trim(t2));
  }

  lemma EncodeOne(c: char)
    ensures EncodeUriComponent([c]) == EncodeChar(c)
  {
    assert [c][1..] == [];
  }

  /** The key of a one-character title that is not white space. */
  lemma KeyOfOneChar(c: char)
    requires !IsSpace(c)
    ensures CacheKey([c]) == AsciiLower(EncodeChar(c))
  {
    TrimOfTrimmed([c]);
    EncodeOne(c);
  }

  lemma EncodedAccents()
    ensures EncodeChar('\U{C9}') == "%C3%89" && EncodeChar('\U{E9}') == "%C3%A9"
  {
    assert Utf8Char('\U{C9}') == [0xC3, 0x89];
    assert Utf8Char('\U{E9}') == [0xC3, 0xA9];
    PercentEncodeTwo(0xC3, 0x89);
    PercentEncodeTwo(0xC3, 0xA9);
    assert HexDigit(0xC) == 'C' && HexDigit(3) == '3';
    assert HexDigit(8) == '8' && HexDigit(9) == '9' && HexDigit(0xA) == 'A';
  }

  lemma PercentEncodeTwo(x: Byte, y: Byte)
    ensures PercentEncode([x, y]) == ['%', HexDigit(x / 16), HexDigit(x % 16), '%', HexDigit(y / 16), HexDigit(y % 16)]
  {
    assert [x, y][1..] == [y];
    assert [y][1..] == [];
  }

  lemma LowerEncodedAccents()
    ensures AsciiLower("%C3%89") == "%c3%89" && AsciiLower("%C3%A9") == "%c3%a9"
  {}

  /** Lower-casing after encoding leaves other letters apart: `É` and `é` get different keys. */
  lemma CacheKeyKeepsAccentedCase()
    ensures CacheKey("\U{C9}") == "%c3%89"
    ensures CacheKey("\U{E9}") == "%c3%a9"
  {
    KeyOfOneChar('\U{C9}');
    KeyOfOneChar('\U{E9}');
    EncodedAccents();
    LowerEncodedAccents();
  }

  /** A fresh entry under the title's key is returned as it is; the cache is untouched. */
  lemma FreshEntryIsReturned(entries: map<string, CacheEntry>, title: string, now: nat, up: Upstream, passes: RemovalPasses)
    requires title != [] && CacheKey(title) in entries && now - entries[CacheKey(title)].timestamp < CacheDuration
    ensures Lookup(entries, title, now, up, passes) == (entries[CacheKey(title)].data, entries)
  {}

  /** `after` differs from `entries` at most in the slot `key`, which then holds `r` stamped `now`. */
  predicate OnlySlotChanged(entries: map<string, CacheEntry>, after: map<string, CacheEntry>, key: string,
                            r: SearchResult, now: nat) {
    entries.Keys <= after.Keys <= entries.Keys + {key}
    && (forall k :: k in entries && k != key ==> k in after && after[k] == entries[k])
    && (after != entries ==> key in after && after[key] == CacheEntry(r, now))
  }

  /**
   * A lookup changes at most the slot of its own key, and only to store its
   * own result with the current time; no entry is ever removed.
   */
  lemma LookupTouchesOnlyItsKey(entries: map<string, CacheEntry>, title: string, now: nat, up: Upstream, passes: RemovalPasses)
    ensures var res := Lookup(entries, title, now, up, passes);
            OnlySlotChanged(entries, res.1, CacheKey(title), res.0, now)
  {
    if Misses(entries, title, now) {
      var m := Miss(title, EncodeUriComponent(Trim(title)), now, up, passes);
      LookupOnMiss(entries, title, now, up, passes);
      RememberTouchesOnlyItsKey(entries, CacheKey(title), now, m);
    } else {
      LookupOnHit(entries, title, now, up, passes);
    }
  }

  /** A lookup that does not go upstream leaves the cache as it was. */
  lemma LookupOnHit(entries: map<string, CacheEntry>, title: string, now: nat, up: Upstream, passes: RemovalPasses)
    requires !Misses(entries, title, now)
    ensures Lookup(entries, title, now, up, passes).1 == entries
  {}

  lemma RememberTouchesOnlyItsKey(entries: map<string, CacheEntry>, key: string, now: nat, m: (SearchResult, bool))
    ensures var res := Remember(entries, key, now, m);
            OnlySlotChanged(entries, res.1, key, res.0, now)
  {}

  /** An entry a day old or older is bypassed: the title is fetched again. */
  lemma StaleEntryIsRefetched(entries: map<string, CacheEntry>, title: string, now: nat, up: Upstream, passes: RemovalPasses)
    requires title != [] && CacheKey(title) in entries
    requires now - entries[CacheKey(title)].timestamp >= CacheDuration
    ensures Lookup(entries, title, now, up, passes).0 == Miss(title, EncodeUriComponent(Trim(title)), now, up, passes).0
  {
    assert Misses(entries, title, now);
  }

  /**
   * A record a lookup stores is what any title with the same key gets back,
   * whatever upstream answers then, for strictly less than a day.
   */
  lemma StoredRecordIsServedForADay(
    entries: map<string, CacheEntry>, title: string, now: nat, up: Upstream, passes: RemovalPasses,
    other: string, later: nat, up2: Upstream, passes2: RemovalPasses)
    requires Misses(entries, title, now) && Miss(title, EncodeUriComponent(Trim(title)), now, up, passes).1
    requires other != [] && CacheKey(other) == CacheKey(title)
    requires now <= later < now + CacheDuration
    ensures var res := Lookup(entries, title, now, up, passes);
            Lookup(res.1, other, later, up2, passes2) == res
  {
    var m := Miss(title, EncodeUriComponent(Trim(title)), now, up, passes);
    var res := Remember(entries, CacheKey(title), now, m);
    assert Lookup(entries, title, now, up, passes) == res;
    assert res.1[CacheKey(other)] == CacheEntry(m.0, now);
  }

  /** The error record of a failure: no content, no related articles, no reading time, and it names the title. */
  predicate IsErrorRecord(r: SearchResult, title: string, now: nat) {
    r.id == "error-" + NatToString(now) && r.relatedArticles == [] && r.articleContent.None?
    && r.readingTime.None? && StartsWith(r.summary, "Error fetching data for \"" + title + "\". ")
  }

  lemma ErrorRecordIs(title: string, now: nat, f: Failure)
    ensures IsErrorRecord(ErrorRecord(title, now, f), title, now)
  {
    var p := "Error fetching data for \"" + title + "\". ";
    assert (p + FailureText(f))[..|p|] == p;
  }

  /** No article id looks like an error id: an id has no `-`. */
  lemma IdIsNotAnErrorId(title: string, now: nat)
    ensures ArticleId(title) != "error-" + NatToString(now)
  {
    var id := ArticleId(title);
    var e := "error-" + NatToString(now);
    if |id| >= 6 {
      assert e[5] == '-';
      assert IsBase64Char(id[5]);
    } else {
      assert |e| > 6;
    }
  }

  /** After a miss, exactly the records that are not error records are stored. */
  lemma MissStoresNonErrors(title: string, formatted: string, now: nat, up: Upstream, passes: RemovalPasses)
    ensures var m := Miss(title, formatted, now, up, passes);
            (m.1 ==> m.0.id == ArticleId(title)) && (!m.1 ==> IsErrorRecord(m.0, title, now))
            && (m.1 <==> m.0.id != "error-" + NatToString(now))
  {
    IdIsNotAnErrorId(title, now);
    match up.summary(SummaryUrl(formatted))
    case SummaryNotFound =>
    case SummaryError(statusText, message) =>
      ErrorRecordIs(title, now, ErrorObject("Wikipedia API error: " + (if message != [] then message else statusText)));
    case SummaryUnreachable(f) => ErrorRecordIs(title, now, f);
    case SummaryOk(page) => PageMissStoresNonErrors(title, formatted, now, up, passes, page);
  }

  /** The part of `MissStoresNonErrors` after the summary request succeeded. */
  lemma PageMissStoresNonErrors(title: string, formatted: string, now: nat, up: Upstream, passes: RemovalPasses,
                                page: PageSummary)
    requires up.summary(SummaryUrl(formatted)) == SummaryOk(page)
    ensures var m := Miss(title, formatted, now, up, passes);
            (m.1 ==> m.0.id == ArticleId(title)) && (!m.1 ==> IsErrorRecord(m.0, title, now))
  {
    match FetchBody(page, formatted, up, passes)
    case Failure(f) => ErrorRecordIs(title, now, f);
    case Success(_) =>
      match FetchRelated(page, formatted, up)
      case Failure(f) => ErrorRecordIs(title, now, f);
      case Success(_) =>
  }

  /** An empty title is rejected with an error record; nothing is fetched or stored. */
  lemma EmptyTitleRejected(entries: map<string, CacheEntry>, now: nat, up: Upstream, passes: RemovalPasses)
    ensures var res := Lookup(entries, [], now, up, passes);
            res.1 == entries && IsErrorRecord(res.0, [], now)
            && res.0.summary == "Error fetching data for \"" + "\". " + "Invalid search title"
  {
    ErrorRecordIs([], now, ErrorObject("Invalid search title"));
    assert "Error fetching data for \"" + [] == "Error fetching data for \"";
  }

  /** A 404 gives the not-found record, with no content, links or media and a zero reading time, and stores it. */
  lemma NotFoundIsStored(entries: map<string, CacheEntry>, title: string, now: nat, up: Upstream, passes: RemovalPasses)
    requires Misses(entries, title, now)
    requires up.summary(SummaryUrl(EncodeUriComponent(Trim(title)))) == SummaryNotFound
    ensures var res := Lookup(entries, title, now, up, passes);
            var r := res.0;
            r.title == title && r.url == [] && r.mediaUrl == [] && r.articleContent == Some([])
            && r.relatedArticles == [] && r.readingTime == Some(0) && r.id == ArticleId(title)
            && res.1 == entries[CacheKey(title) := CacheEntry(r, now)]
  {
    var m := Miss(title, EncodeUriComponent(Trim(title)), now, up, passes);
    assert m == (NotFoundRecord(title, ArticleId(title)), true);
    assert Lookup(entries, title, now, up, passes) == Remember(entries, CacheKey(title), now, m);
  }

  /** The summaries of related entries: empty, or at most 150 characters followed by `...`. */
  lemma RelatedSummaryShape(title: string, index: nat, urls: seq<string>, current: string, up: Upstream)
    requires title != current
    ensures var a := RelatedFor(title, index, urls, current, up).value;
            a.summary == [] || (|a.summary| <= RelatedSummaryLength + 3 && a.summary[|a.summary| - 3..] == "...")
  {}

  lemma {:induction false} PresentOfAllSome<T>(xs: seq<Option<T>>)
    requires forall i :: 0 <= i < |xs| ==> xs[i].Some?
    ensures |Present(xs)| == |xs|
    decreases |xs|
  {
    if xs != [] { PresentOfAllSome(xs[1..]); }
  }

  /** `a` is made from one of the first three suggestions, one that is not the current title. */
  predicate FromSuggestion(a: RelatedArticle, titles: seq<string>, urls: seq<string>, current: string, up: Upstream) {
    exists i :: 0 <= i < |titles| && i < MaxRelated && titles[i] != current
                && RelatedFor(titles[i], i, urls, current, up) == Some(a)
  }

  /**
   * At most three related articles, each made from one of the first three
   * suggestions that differs from the current title; when none equals it,
   * all of the first three are kept.
   */
  lemma RelatedSelection(titles: seq<string>, urls: seq<string>, current: string, up: Upstream)
    ensures var r := Present(RelatedCandidates(titles, urls, current, up));
            |r| <= MaxRelated
            && (forall a :: a in r ==> FromSuggestion(a, titles, urls, current, up))
            && ((forall i :: 0 <= i < |titles| ==> titles[i] != current) ==> |r| == if |titles| < MaxRelated then |titles| else MaxRelated)
  {
    var cs := RelatedCandidates(titles, urls, current, up);
    PresentFrom(cs);
    forall a | a in Present(cs) ensures FromSuggestion(a, titles, urls, current, up) {
      var i :| 0 <= i < |cs| && cs[i] == Some(a);
      assert RelatedFor(titles[i], i, urls, current, up) == Some(a);
    }
    if forall i :: 0 <= i < |titles| ==> titles[i] != current {
      PresentOfAllSome(cs);
    }
  }

  /** The body step keeps at most five categories. */
  lemma BodyCategoriesBounded(page: PageSummary, formatted: string, up: Upstream, passes: RemovalPasses)
    ensures var b := FetchBody(page, formatted, up, passes);
            b.Success? ==> |b.value.categories| <= MaxCategories
  {
    match up.html(HtmlUrl(formatted)) {
      case HtmlOk(raw) => CategoriesAreFirstLinkTexts(raw);
      case _ =>
    }
  }

  /** The suggestions step keeps at most three related articles, each from an allowed suggestion. */
  lemma RelatedBounded(page: PageSummary, formatted: string, up: Upstream)
    ensures var r := FetchRelated(page, formatted, up);
            r.Success? ==> |r.value| <= MaxRelated
  {
    match up.openSearch(OpenSearchUrl(formatted)) {
      case OpenSearchOk(titles, urls) =>
        if titles.Some? { RelatedSelection(titles.value, urls, page.title, up); }
      case _ =>
    }
  }

  /** The record a miss builds when all three requests succeed. */
  lemma SuccessfulMiss(title: string, formatted: string, now: nat, up: Upstream, passes: RemovalPasses)
    requires var s := up.summary(SummaryUrl(formatted));
             s.SummaryOk? && FetchBody(s.page, formatted, up, passes).Success?
             && FetchRelated(s.page, formatted, up).Success?
    ensures var page := up.summary(SummaryUrl(formatted)).page;
            Miss(title, formatted, now, up, passes)
            == (SuccessRecord(page, ArticleId(title), FetchBody(page, formatted, up, passes).value,
                              FetchRelated(page, formatted, up).value), true)
  {}

  /**
   * A successful miss stores a record taken from the page summary, with at
   * most five categories, at most three related articles, a language, and a
   * reading time that counts the words of the content with tags replaced.
   */
  lemma SuccessfulLookup(entries: map<string, CacheEntry>, title: string, now: nat, up: Upstream, passes: RemovalPasses)
    requires Misses(entries, title, now)
    requires var formatted := EncodeUriComponent(Trim(title));
             var s := up.summary(SummaryUrl(formatted));
             s.SummaryOk? && FetchBody(s.page, formatted, up, passes).Success?
             && FetchRelated(s.page, formatted, up).Success?
    ensures var page := up.summary(SummaryUrl(EncodeUriComponent(Trim(title)))).page;
            var res := Lookup(entries, title, now, up, passes);
            var r := res.0;
            r.title == page.title && r.summary == page.extract && r.id == ArticleId(title)
            && r.categories.Some? && |r.categories.value| <= MaxCategories
            && |r.relatedArticles| <= MaxRelated
            && r.language.Some? && r.language.value != []
            && r.readingTime == Some(ReadingTime(ReplaceTags(r.articleContent.value, true, " ")))
            && res.1 == entries[CacheKey(title) := CacheEntry(r, now)]
  {
    var formatted := EncodeUriComponent(Trim(title));
    var page := up.summary(SummaryUrl(formatted)).page;
    var body := FetchBody(page, formatted, up, passes).value;
    var related := FetchRelated(page, formatted, up).value;
    BodyCategoriesBounded(page, formatted, up, passes);
    RelatedBounded(page, formatted, up);
    SuccessfulMiss(title, formatted, now, up, passes);
    LookupOnMiss(entries, title, now, up, passes);
    var r := SuccessRecord(page, ArticleId(title), body, related);
    SuccessRecordShape(page, ArticleId(title), body, related);
    assert Lookup(entries, title, now, up, passes) == (r, entries[CacheKey(title) := CacheEntry(r, now)]);
  }

  /** The fields of a success record, each taken from the step that produced it. */
  lemma SuccessRecordShape(page: PageSummary, id: string, body: ArticleBody, related: seq<RelatedArticle>)
    ensures var r := SuccessRecord(page, id, body, related);
            r.title == page.title && r.summary == page.extract && r.id == id
            && r.categories == Some(body.categories) && r.relatedArticles == related
            && r.language.Some? && r.language.value != []
            && r.articleContent == Some(body.content)
            && r.readingTime == Some(ReadingTime(ReplaceTags(body.content, true, " ")))
  {}

  /** A lookup that misses stores what the miss says. */
  lemma LookupOnMiss(entries: map<string, CacheEntry>, title: string, now: nat, up: Upstream, passes: RemovalPasses)
    requires Misses(entries, title, now)
    ensures Lookup(entries, title, now, up, passes)
            == Remember(entries, CacheKey(title), now, Miss(title, EncodeUriComponent(Trim(title)), now, up, passes))
  {}

  /** The article HTML step: sanitise it, take its categories and find the image caption. */
  method FetchArticleBody(page: PageSummary, formattedTitle: string, up: Upstream, passes: RemovalPasses)
    returns (r: Result<ArticleBody, Failure>)
    ensures r == FetchBody(page, formattedTitle, up, passes)
  {
    var articleContent := "";
    var categories: seq<string> := [];
    var mediaCaption := "";
    var htmlRes := up.html(HtmlUrl(formattedTitle));
    match htmlRes {
      case HtmlUnreachable(f) =>
        return Failure(f);
      case HtmlNotOk =>
      case HtmlOk(raw) =>
        articleContent := raw;
        var sanitizedHtml := Sanitize(articleContent, passes);
        categories := ExtractCategories(articleContent);
        var caption := ExtractImageCaption(articleContent, page.thumbnail, up.caption);
        if caption.Failure? {
          return Failure(ErrorObject(caption.error));
        }
        mediaCaption := caption.value;
        articleContent := sanitizedHtml;
    }
    r := Success(ArticleBody(articleContent, categories, mediaCaption));
  }

  /** The suggestions step: resolve the first three open-search titles. */
  method FetchRelatedArticles(page: PageSummary, formattedTitle: string, up: Upstream)
    returns (r: Result<seq<RelatedArticle>, Failure>)
    ensures r == FetchRelated(page, formattedTitle, up)
  {
    var relatedArticles: seq<RelatedArticle> := [];
    var suggestionsRes := up.openSearch(OpenSearchUrl(formattedTitle));
    match suggestionsRes {
      case OpenSearchUnreachable(f) =>
        return Failure(f);
      case OpenSearchNotOk =>
      case OpenSearchOk(titles, urls) =>
        if titles.Some? {
          var resolved := RelatedCandidates(titles.value, urls, page.title, up);
          relatedArticles := CollectRelated(resolved);
        }
    }
    r := Success(relatedArticles);
  }

  /** The module-level cache of the server actions. */
  class ArticleCache {
    var entries: map<string, CacheEntry>

    constructor()
      ensures entries == map[]
    {
      entries := map[];
    }

    method FetchWikipediaData(searchTitle: string, now: nat, up: Upstream, passes: RemovalPasses)
      returns (result: SearchResult)
      modifies this
      ensures (result, entries) == Lookup(old(entries), searchTitle, now, up, passes)
    {
      if searchTitle == [] {
        return ErrorRecord(searchTitle, now, ErrorObject("Invalid search title"));
      }
      var formattedTitle := EncodeUriComponent(Trim(searchTitle));
      var cacheKey := AsciiLower(formattedTitle);
      assert cacheKey == CacheKey(searchTitle);
      if cacheKey in entries && now - entries[cacheKey].timestamp < CacheDuration {
        return entries[cacheKey].data;
      }
      var store;
      result, store := FetchMiss(searchTitle, formattedTitle, now, up, passes);
      if store {
        entries := entries[cacheKey := CacheEntry(result, now)];
      }
    }

    /** The part of the lookup after a cache miss; `store` says whether the result is cached. */
    method FetchMiss(searchTitle: string, formattedTitle: string, now: nat, up: Upstream, passes: RemovalPasses)
      returns (result: SearchResult, store: bool)
      ensures (result, store) == Miss(searchTitle, formattedTitle, now, up, passes)
    {
      var id := ArticleId(searchTitle);
      var summaryRes := up.summary(SummaryUrl(formattedTitle));
      match summaryRes {
        case SummaryNotFound =>
          return NotFoundRecord(searchTitle, id), true;
        case SummaryError(statusText, message) =>
          var reason := if message != [] then message else statusText;
          return ErrorRecord(searchTitle, now, ErrorObject("Wikipedia API error: " + reason)), false;
        case SummaryUnreachable(f) =>
          return ErrorRecord(searchTitle, now, f), false;
        case SummaryOk(page) =>
          var body := FetchArticleBody(page, formattedTitle, up, passes);
          if body.Failure? {
            return ErrorRecord(searchTitle, now, body.error), false;
          }
          var related := FetchRelatedArticles(page, formattedTitle, up);
          if related.Failure? {
            return ErrorRecord(searchTitle, now, related.error), false;
          }
          return SuccessRecord(page, id, body.value, related.value), true;
      }
    }
  }
}

/**
 * `fetchTrendingArticles`: the most-read articles of the day's featured
 * feed, as search results. The date and the random id suffixes are inputs.
 */
module Trending {
  import opened Wrappers
  import opened Text
  import opened Wikipedia

  /** One entry of `mostread.articles`; an empty string stands for a missing field. */
  datatype FeedArticle = FeedArticle(title: string, extract: string, pageUrl: string, pageid: Option<nat>, thumbnail: string)

  /** The feed answer: `mostread.articles` when present. */
  datatype FeedResponse = FeedOk(mostRead: Option<seq<FeedArticle>>) | FeedNotOk(statusText: string) | FeedUnreachable

  /** `String(n).padStart(2, '0')`. */
  function Pad2(n: nat): (r: string)
    ensures n < 100 ==> |r| == 2
    ensures n < 10 ==> r == "0" + NatToString(n)
    ensures n >= 10 ==> r == NatToString(n)
  {
    var d := NatToString(n);
    if |d| < 2 then ['0'] + d else d
  }

  /** The featured-feed URL for a calendar date, month counted from 1. */
  function FeaturedUrl(year: nat, month: nat, day: nat): string {
    "https://en.wikipedia.org/api/rest_v1/feed/featured/" + NatToString(year) + "/" + Pad2(month) + "/" + Pad2(day)
  }

  /** The end index of `xs.slice(0, limit)` on a list of length `n`: a negative limit counts from the end. */
  function SliceEnd(limit: int, n: nat): (e: nat)
    ensures e <= n
    ensures 0 <= limit ==> e == if limit < n then limit else n
    ensures limit < 0 ==> e == if n + limit < 0 then 0 else n + limit
  {
    if limit < 0 then (if n + limit < 0 then 0 else n + limit)
    else if limit < n then limit else n
  }

  /** The id of a trending entry: its page id, or `trending-` and a random suffix. */
  function TrendingId(pageid: Option<nat>, randomSuffix: string): string {
    match pageid
    case Some(n) => NatToString(n)
    case None => "trending-" + randomSuffix
  }

  function ToResult(a: FeedArticle, randomSuffix: string): SearchResult {
    SearchResult(a.title, a.extract, None, a.pageUrl, TrendingId(a.pageid, randomSuffix), a.thumbnail,
      None, None, None, None, [], None)
  }

  /** The trending list; any failure gives the empty list. */
  function TrendingArticles(feed: FeedResponse, limit: int, randomSuffix: nat -> string): (r: seq<SearchResult>)
  {
    match feed
    case FeedOk(mostRead) =>
      var all := if mostRead.Some? then mostRead.value else [];
      var top := all[..SliceEnd(limit, |all|)];
      seq(|top|, i requires 0 <= i < |top| => ToResult(top[i], randomSuffix(i)))
    case _ => []
  }

  /**
   * The trending list is the first `limit` most-read articles in feed order,
   * each with its title, extract, page URL, thumbnail and no related articles;
   * a failed request gives none.
   */
  lemma TrendingIsFeedPrefix(feed: FeedResponse, limit: int, randomSuffix: nat -> string)
    ensures var r := TrendingArticles(feed, limit, randomSuffix);
            (!feed.FeedOk? || feed.mostRead.None? ==> r == [])
            && (feed.FeedOk? && feed.mostRead.Some? ==>
                  var all := feed.mostRead.value;
                  |r| == SliceEnd(limit, |all|)
                  && forall i :: 0 <= i < |r| ==>
                       r[i].title == all[i].title && r[i].summary == all[i].extract
                       && r[i].url == all[i].pageUrl && r[i].mediaUrl == all[i].thumbnail
                       && r[i].relatedArticles == [] && r[i].id == TrendingId(all[i].pageid, randomSuffix(i)))
  {
    var r := TrendingArticles(feed, limit, randomSuffix);
    if feed.FeedOk? {
      var all := if feed.mostRead.Some? then feed.mostRead.value else [];
      var top := all[..SliceEnd(limit, |all|)];
      assert r == seq(|top|, i requires 0 <= i < |top| => ToResult(top[i], randomSuffix(i)));
      assert forall i :: 0 <= i < |top| ==> top[i] == all[i];
      if feed.mostRead.None? {
        assert |r| == 0;
      } else {
        assert |r| == SliceEnd(limit, |all|);
        forall i | 0 <= i < |r| ensures r[i] == ToResult(all[i], randomSuffix(i)) {
          assert r[i] == ToResult(top[i], randomSuffix(i));
        }
      }
    }
  }

  /** A non-negative limit caps the list; with at least `limit` articles exactly `limit` are returned. */
  lemma TrendingRespectsLimit(feed: FeedResponse, limit: nat, randomSuffix: nat -> string)
    ensures |TrendingArticles(feed, limit, randomSuffix)| <= limit
    ensures feed.FeedOk? && feed.mostRead.Some? && limit <= |feed.mostRead.value| ==>
              |TrendingArticles(feed, limit, randomSuffix)| == limit
  {
    TrendingIsFeedPrefix(feed, limit, randomSuffix);
  }

  /** Ids from page ids are decimal digits; the others start with `trending-`, so the two never meet. */
  lemma TrendingIdsDistinguishOrigin(pageid: nat, randomSuffix: string)
    ensures forall k :: 0 <= k < |TrendingId(Some(pageid), randomSuffix)| ==> IsDigit(TrendingId(Some(pageid), randomSuffix)[k])
    ensures TrendingId(Some(pageid), randomSuffix) != TrendingId(None, randomSuffix)
  {
    var a := TrendingId(Some(pageid), randomSuffix);
    var b := TrendingId(None, randomSuffix);
    assert b[0] == 't' && !IsDigit(b[0]);
  }

  /** The month and day in the URL are two digits each. */
  lemma FeaturedUrlExample()
    ensures FeaturedUrl(2024, 3, 7) == "https://en.wikipedia.org/api/rest_v1/feed/featured/2024/03/07"
  {
    assert NatToString(2024) == "2024" by {
      assert NatToString(2) == "2";
      assert NatToString(20) == "20";
      assert NatToString(202) == "202";
    }
    assert Pad2(3) == "03";
    assert Pad2(7) == "07";
    assert "https://en.wikipedia.org/api/rest_v1/feed/featured/" + "2024" + "/" + "03" + "/" + "07"
           == "https://en.wikipedia.org/api/rest_v1/feed/featured/2024/03/07";
  }
}

/**
 * `searchWikipedia`: title suggestions with plain-text descriptions for a
 * query of at least two UTF-16 units.
 */
module Search {
  import opened Wrappers
  import opened Text
  import opened Uri
  import opened Markup

  const MinQueryLength: nat := 2

  /** One hit of `query.search`; its snippet may be missing, which makes the cleanup throw. */
  datatype SearchHit = SearchHit(title: string, snippet: Option<string>)

  datatype SearchResponse = SearchOk(hits: Option<seq<SearchHit>>) | SearchNotOk | SearchUnreachable

  datatype Suggestion = Suggestion(title: string, description: string)

  function SearchUrl(query: string, limit: int): string {
    "https://en.wikipedia.org/w/api.php?action=query&list=search&srsearch=" + EncodeUriComponent(query)
    + "&format=json&origin=*&srprop=snippet&srlimit=" + IntToString(limit)
  }

  predicate HasAllSnippets(hits: seq<SearchHit>) {
    forall i :: 0 <= i < |hits| ==> hits[i].snippet.Some?
  }

  /** The suggestions for a query; the search endpoint is an input, and any failure gives none. */
  function SearchWikipedia(query: string, limit: int, search: string -> SearchResponse): (r: seq<Suggestion>)
  {
    if query == [] || Utf16Length(query) < MinQueryLength then []
    else match search(SearchUrl(query, limit))
      case SearchOk(hits) =>
        var all := if hits.Some? then hits.value else [];
        if !HasAllSnippets(all) then []
        else seq(|all|, i requires 0 <= i < |all| => Suggestion(all[i].title, CleanSnippet(all[i].snippet.value)))
      case _ => []
  }

  /** A query shorter than two UTF-16 units is answered with nothing, without a request. */
  lemma ShortQueryIgnored(query: string, limit: int, search: string -> SearchResponse)
    requires Utf16Length(query) < MinQueryLength
    ensures SearchWikipedia(query, limit, search) == []
  {}

  /** A single character above U+FFFF is two UTF-16 units, so it is long enough. */
  lemma AstralCharIsLongEnough(c: char)
    requires c as int > 0xFFFF
    ensures Utf16Length([c]) == MinQueryLength
  {}

  /**
   * For a long enough query, each hit gives one suggestion, in order, with
   * its title and a tag-free description; plain snippets are kept as they are.
   */
  lemma SuggestionsFollowHits(query: string, limit: int, search: string -> SearchResponse)
    requires Utf16Length(query) >= MinQueryLength
    requires var res := search(SearchUrl(query, limit));
             res.SearchOk? && res.hits.Some? && HasAllSnippets(res.hits.value)
    ensures var hits := search(SearchUrl(query, limit)).hits.value;
            var r := SearchWikipedia(query, limit, search);
            |r| == |hits|
            && forall i :: 0 <= i < |r| ==>
                 r[i].title == hits[i].title && TagFree(r[i].description)
                 && ((forall k :: 0 <= k < |hits[i].snippet.value| ==> hits[i].snippet.value[k] != '<') ==>
                       r[i].description == hits[i].snippet.value)
  {
    var hits := search(SearchUrl(query, limit)).hits.value;
    var r := SearchWikipedia(query, limit, search);
    assert query != [];
    assert r == seq(|hits|, i requires 0 <= i < |hits| => Suggestion(hits[i].title, CleanSnippet(hits[i].snippet.value)));
    forall i | 0 <= i < |r|
      ensures (forall k :: 0 <= k < |hits[i].snippet.value| ==> hits[i].snippet.value[k] != '<') ==>
                r[i].description == hits[i].snippet.value
    {
      if forall k :: 0 <= k < |hits[i].snippet.value| ==> hits[i].snippet.value[k] != '<' {
        PlainSnippetKept(hits[i].snippet.value);
      }
    }
  }

  /** A failed request, a missing result list or a hit without a snippet all give no suggestions. */
  lemma FailedSearchGivesNothing(query: string, limit: int, search: string -> SearchResponse)
    requires var res := search(SearchUrl(query, limit));
             !res.SearchOk? || res.hits.None? || !HasAllSnippets(res.hits.value)
    ensures SearchWikipedia(query, limit, search) == []
  {}
}
