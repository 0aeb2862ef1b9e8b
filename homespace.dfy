/**
 * The home workspace: the recent-search history, the summary and
 * reading-time labels, the search route, the splitting of text into plain
 * and link parts, and adding the shown article to the default dot map.
 */
module Homespace {
  import opened Wrappers
  import opened Text
  import opened Uri
  import opened Wikipedia
  import opened DotMap

  const MaxHistory: nat := 5
  const MaxMainSummaryLength: nat := 200
  const NodeSummaryLength: nat := 100

  // ---------------------------------------------------------------------
  // Search history
  // ---------------------------------------------------------------------

  predicate Distinct(s: seq<string>) {
    forall i, j :: 0 <= i < j < |s| ==> s[i] != s[j]
  }

  /** The history update effect: a new, non-empty title goes in front and the list keeps at most five entries. */
  function UpdatedHistory(title: string, history: seq<string>): Option<seq<string>> {
    if title != [] && title !in history then
      Some(([title] + history)[..if |history| + 1 < MaxHistory then |history| + 1 else MaxHistory])
    else None
  }

  /** The history changes exactly for a new title; the title is then first, followed by the newest old entries. */
  lemma HistoryUpdate(title: string, history: seq<string>)
    ensures var r := UpdatedHistory(title, history);
            (r.Some? <==> title != [] && title !in history)
            && (r.Some? ==>
                  |r.value| == (if |history| + 1 < MaxHistory then |history| + 1 else MaxHistory)
                  && r.value[0] == title && r.value[1..] == history[..|r.value| - 1])
  {
    var r := UpdatedHistory(title, history);
    if r.Some? {
      assert r.value[1..] == ([title] + history)[1..|r.value|];
      assert ([title] + history)[1..] == history;
    }
  }

  /** A duplicate-free history stays duplicate-free. */
  lemma HistoryStaysDistinct(title: string, history: seq<string>)
    requires Distinct(history)
    ensures var r := UpdatedHistory(title, history); r.Some? ==> Distinct(r.value) && |r.value| <= MaxHistory
  {
    var r := UpdatedHistory(title, history);
    if r.Some? {
      HistoryUpdate(title, history);
      var h := r.value;
      forall i, j | 0 <= i < j < |h| ensures h[i] != h[j] {
        assert h[j] == history[j - 1];
        if i > 0 { assert h[i] == history[i - 1]; }
      }
    }
  }

  /** Once the title is in the history, running the effect again changes nothing. */
  lemma HistorySettles(title: string, history: seq<string>)
    ensures var r := UpdatedHistory(title, history); r.Some? ==> UpdatedHistory(title, r.value).None?
  {
    var r := UpdatedHistory(title, history);
    if r.Some? {
      HistoryUpdate(title, history);
      assert r.value[0] == title;
    }
  }

  /** The history a saved list gives on its own: the list, or nothing. */
  function Loaded(stored: Option<seq<string>>): seq<string> {
    if stored.Some? then stored.value else []
  }

  /**
   * The history after the first commit, as written: the load effect and the
   * history effect run together, and the second one's closure still sees the
   * empty initial history, so its update for a new title wins over the load.
   */
  function MountedHistory(stored: Option<seq<string>>, title: string): seq<string> {
    var r := UpdatedHistory(title, []);
    if r.Some? then r.value else Loaded(stored)
  }

  /** The evidently intended history after the first commit: the title recorded in front of the saved list. */
  function IntendedMountedHistory(stored: Option<seq<string>>, title: string): seq<string> {
    var r := UpdatedHistory(title, Loaded(stored));
    if r.Some? then r.value else Loaded(stored)
  }

  /** As written, opening the page with a `search` parameter keeps only that title, whatever was saved. */
  lemma MountDropsSavedHistory(stored: Option<seq<string>>, title: string)
    ensures title != [] ==> MountedHistory(stored, title) == [title]
    ensures title == [] ==> MountedHistory(stored, title) == Loaded(stored)
  {}

  /** A saved history of one entry and a new title: the entry is lost as written, kept as intended. */
  lemma MountDropsSavedEntry()
    ensures MountedHistory(Some(["Ada Lovelace"]), "Alan Turing") == ["Alan Turing"]
    ensures IntendedMountedHistory(Some(["Ada Lovelace"]), "Alan Turing") == ["Alan Turing", "Ada Lovelace"]
  {
    assert "Alan Turing" != "Ada Lovelace";
    assert "Alan Turing" !in ["Ada Lovelace"];
  }

  /**
   * As intended, the saved history survives the first commit: a new title
   * goes in front of its newest entries, a known or empty title leaves it as
   * it was, and a duplicate-free list stays duplicate-free.
   */
  lemma IntendedMountKeepsSavedHistory(stored: Option<seq<string>>, title: string)
    ensures var h, saved := IntendedMountedHistory(stored, title), Loaded(stored);
            (title != [] && title !in saved ==>
               |h| == (if |saved| + 1 < MaxHistory then |saved| + 1 else MaxHistory)
               && h[0] == title && h[1..] == saved[..|h| - 1])
            && (title == [] || title in saved ==> h == saved)
            && (Distinct(saved) && |saved| <= MaxHistory ==> Distinct(h) && |h| <= MaxHistory)
  {
    HistoryUpdate(title, Loaded(stored));
    if Distinct(Loaded(stored)) {
      HistoryStaysDistinct(title, Loaded(stored));
    }
  }

  // ---------------------------------------------------------------------
  // Labels and the search route
  // ---------------------------------------------------------------------

  /** `truncatedSummary`. */
  function TruncatedSummary(summary: Option<string>): string {
    if summary.None? || summary.value == [] then ""
    else if |summary.value| > MaxMainSummaryLength then summary.value[..MaxMainSummaryLength] + "..."
    else summary.value
  }

  /** A long summary keeps its first 200 characters and gains an ellipsis; a short one is shown whole. */
  lemma TruncatedSummaryShape(summary: Option<string>)
    ensures var r := TruncatedSummary(summary);
            (summary.None? ==> r == "")
            && (summary.Some? && |summary.value| > MaxMainSummaryLength ==>
                  |r| == MaxMainSummaryLength + 3 && StartsWith(summary.value, r[..MaxMainSummaryLength])
                  && r[MaxMainSummaryLength..] == "...")
            && (summary.Some? && |summary.value| <= MaxMainSummaryLength ==> r == summary.value)
            && |r| <= MaxMainSummaryLength + 3
  {
    var r := TruncatedSummary(summary);
    if summary.Some? && |summary.value| > MaxMainSummaryLength {
      assert r[..MaxMainSummaryLength] == summary.value[..MaxMainSummaryLength];
    }
  }

  /** `formattedReadingTime`. */
  function ReadingTimeLabel(readingTime: Option<nat>): string {
    if readingTime.None? || readingTime.value == 0 then "< 1 min read"
    else NatToString(readingTime.value) + " min read"
  }

  /**
   * The "< 1" label appears exactly for a missing or zero time; otherwise the
   * label is the number's digits followed by " min read".
   */
  lemma ReadingTimeLabelCases(readingTime: Option<nat>)
    ensures var l := ReadingTimeLabel(readingTime);
            (l == "< 1 min read" <==> readingTime.None? || readingTime.value == 0)
            && (readingTime.Some? && readingTime.value > 0 ==>
                  l == NatToString(readingTime.value) + " min read"
                  && StartsWith(l, NatToString(readingTime.value)) && IsDigit(l[0]))
  {
    var l := ReadingTimeLabel(readingTime);
    if readingTime.Some? && readingTime.value > 0 {
      var n := NatToString(readingTime.value);
      assert l[..|n|] == n;
      assert l[0] == n[0];
    }
  }

  const SearchRoute := "/homespace?search="

  /** `onSearch`: the route to navigate to, or nothing for a blank query. */
  function OnSearch(query: string): Option<string> {
    if Trim(query) == [] then None else Some(SearchRoute + EncodeUriComponent(query))
  }

  /** No character that would end or split a query parameter. */
  predicate NoSeparator(w: string) {
    forall k :: 0 <= k < |w| ==> w[k] != '&' && w[k] != '#' && w[k] != ' ' && w[k] != '='
  }

  /** Blank queries are ignored; any other query becomes one search parameter that no `&`, `#`, `=` or space can cut short. */
  lemma OnSearchRoute(query: string)
    ensures OnSearch(query).None? <==> Trim(query) == []
    ensures OnSearch(query).Some? ==>
              var route := OnSearch(query).value;
              StartsWith(route, SearchRoute) && NoSeparator(route[|SearchRoute|..])
  {
    if Trim(query) != [] {
      var e := EncodeUriComponent(query);
      var route := SearchRoute + e;
      assert route[|SearchRoute|..] == e;
      assert route[..|SearchRoute|] == SearchRoute;
      UriCharsAreNoSeparators(e);
    }
  }

  lemma UriCharsAreNoSeparators(w: string)
    requires forall k :: 0 <= k < |w| ==> IsUriChar(w[k])
    ensures NoSeparator(w)
  {}

  // ---------------------------------------------------------------------
  // Text with links
  // ---------------------------------------------------------------------

  /** The first white-space index at or after `from`, or `|s|`. */
  function FindSpace(s: string, from: nat): (r: nat)
    requires from <= |s|
    ensures from <= r <= |s|
    ensures r < |s| ==> IsSpace(s[r])
    ensures forall k :: from <= k < r ==> !IsSpace(s[k])
    decreases |s| - from
  {
    if from == |s| || IsSpace(s[from]) then from else FindSpace(s, from + 1)
  }

  /** `scheme` occurs at index `q` and is followed by a non-space character. */
  predicate SchemeAt(s: string, q: nat, scheme: string) {
    q + |scheme| < |s| && (forall i :: 0 <= i < |scheme| ==> s[q + i] == scheme[i]) && !IsSpace(s[q + |scheme|])
  }

  /** The pattern `https?://[^\s]+` has a match starting at index `q`. */
  predicate UrlStartsAt(s: string, q: nat) {
    SchemeAt(s, q, "https://") || SchemeAt(s, q, "http://")
  }

  lemma SchemeHasNoSpace(scheme: string)
    requires scheme == "https://" || scheme == "http://"
    ensures forall i :: 0 <= i < |scheme| ==> !IsSpace(scheme[i])
  {}

  /** Past a scheme and the character after it, the match runs on to the next white space. */
  lemma SchemeRun(s: string, q: nat, scheme: string)
    requires scheme == "https://" || scheme == "http://"
    requires SchemeAt(s, q, scheme)
    ensures FindSpace(s, q) > q + |scheme|
    ensures SchemeAt(s[q..FindSpace(s, q)], 0, scheme)
  {
    var e := FindSpace(s, q);
    SchemeHasNoSpace(scheme);
    forall k | q <= k < q + |scheme| ensures !IsSpace(s[k]) {
      assert s[k] == scheme[k - q];
    }
    var t := s[q..e];
    forall i | 0 <= i < |scheme| ensures t[0 + i] == scheme[i] {
      assert t[i] == s[q + i];
    }
    assert t[|scheme|] == s[q + |scheme|];
  }

  /** A match runs from its start to the next white space, over more than the scheme. */
  lemma UrlRun(s: string, q: nat)
    requires UrlStartsAt(s, q)
    ensures FindSpace(s, q) > q + 7
    ensures UrlStartsAt(s[q..FindSpace(s, q)], 0)
  {
    if SchemeAt(s, q, "https://") {
      SchemeRun(s, q, "https://");
    } else {
      SchemeRun(s, q, "http://");
    }
  }

  /** The parts of a text, given where its first match starts. */
  lemma SplitLinksStep(s: string, p: nat, q: nat)
    requires p <= |s| && q == NextUrl(s, p) && q < |s|
    ensures UrlStartsAt(s, q) && FindSpace(s, q) > q
    ensures SplitLinks(s, p) == [s[p..q], s[q..FindSpace(s, q)]] + SplitLinks(s, FindSpace(s, q))
    ensures Matches(s, p) == [s[q..FindSpace(s, q)]] + Matches(s, FindSpace(s, q))
  {
    UrlRun(s, q);
  }

  /** The parts of a text with no further match. */
  lemma SplitLinksLast(s: string, p: nat)
    requires p <= |s| && NextUrl(s, p) == |s|
    ensures SplitLinks(s, p) == [s[p..|s|]] && Matches(s, p) == []
  {
    assert s[p..] == s[p..|s|];
  }

  lemma SliceSplit(s: string, p: nat, q: nat, e: nat)
    requires p <= q <= e <= |s|
    ensures s[p..] == s[p..q] + (s[q..e] + s[e..])
  {}

  lemma ConcatTwo(x: string, y: string, rest: seq<string>)
    ensures Concat([x, y] + rest) == x + (y + Concat(rest))
  {
    var l := [x, y] + rest;
    assert l[0] == x && l[1..] == [y] + rest;
    assert ([y] + rest)[0] == y && ([y] + rest)[1..] == rest;
  }

  /** A match inside a slice is a match in the whole text. */
  lemma UrlStartsInSlice(s: string, p: nat, q: nat, k: nat)
    requires p <= q <= |s| && UrlStartsAt(s[p..q], k)
    ensures UrlStartsAt(s, p + k)
  {
    var t := s[p..q];
    var scheme := if SchemeAt(t, k, "https://") then "https://" else "http://";
    forall i | 0 <= i < |scheme| ensures s[p + k + i] == scheme[i] {
      assert s[p + k + i] == t[k + i];
    }
    assert s[p + k + |scheme|] == t[k + |scheme|];
    assert SchemeAt(s, p + k, scheme);
  }

  /** The leftmost match at or after `p`, or `|s|`. */
  function NextUrl(s: string, p: nat): (q: nat)
    requires p <= |s|
    ensures p <= q <= |s|
    ensures q < |s| ==> UrlStartsAt(s, q)
    ensures forall k :: p <= k < q ==> !UrlStartsAt(s, k)
    decreases |s| - p
  {
    if p == |s| || UrlStartsAt(s, p) then p else NextUrl(s, p + 1)
  }

  /** `s.slice(p).split(/(https?:\/\/[^\s]+)/g)`: plain text and matches, alternating. */
  function SplitLinks(s: string, p: nat): (parts: seq<string>)
    requires p <= |s|
    ensures |parts| >= 1
    decreases |s| - p
  {
    var q := NextUrl(s, p);
    if q == |s| then [s[p..]]
    else
      UrlRun(s, q);
      [s[p..q], s[q..FindSpace(s, q)]] + SplitLinks(s, FindSpace(s, q))
  }

  /** `s.slice(p).match(/(https?:\/\/[^\s]+)/g)`: the matches alone. */
  function Matches(s: string, p: nat): seq<string>
    requires p <= |s|
    decreases |s| - p
  {
    var q := NextUrl(s, p);
    if q == |s| then []
    else
      UrlRun(s, q);
      [s[q..FindSpace(s, q)]] + Matches(s, FindSpace(s, q))
  }

  /** The parts put back together are the text. */
  lemma {:induction false} SplitLinksConcat(s: string, p: nat)
    requires p <= |s|
    ensures Concat(SplitLinks(s, p)) == s[p..]
    decreases |s| - p
  {
    var q := NextUrl(s, p);
    if q == |s| {
      assert Concat([s[p..]]) == s[p..] + Concat([]);
    } else {
      SplitLinksStep(s, p, q);
      var e := FindSpace(s, q);
      SplitLinksConcat(s, e);
      ConcatTwo(s[p..q], s[q..e], SplitLinks(s, e));
      SliceSplit(s, p, q, e);
    }
  }

  /** A match: the scheme, a non-space character, and no white space anywhere. */
  predicate IsUrl(w: string) {
    UrlStartsAt(w, 0) && NoSpace(w)
  }

  /** No match starts anywhere in `w`. */
  predicate HasNoUrl(w: string) {
    forall k :: 0 <= k < |w| ==> !UrlStartsAt(w, k)
  }

  /** The parts alternate: plain text at even places, the matches in order at odd places. */
  lemma {:induction false} SplitLinksAlternate(s: string, p: nat)
    requires p <= |s|
    ensures var parts, urls := SplitLinks(s, p), Matches(s, p);
            |parts| == 2 * |urls| + 1 && forall i :: 0 <= i < |urls| ==> parts[2 * i + 1] == urls[i]
    decreases |s| - p
  {
    var q := NextUrl(s, p);
    if q < |s| {
      SplitLinksStep(s, p, q);
      var e := FindSpace(s, q);
      SplitLinksAlternate(s, e);
      AlternatingCons(s[p..q], s[q..e], SplitLinks(s, e), Matches(s, e));
    } else {
      SplitLinksLast(s, p);
    }
  }

  /** Plain text and a match in front of alternating parts keep them alternating. */
  lemma AlternatingCons(plain: string, url: string, rest: seq<string>, restUrls: seq<string>)
    requires |rest| == 2 * |restUrls| + 1 && forall i :: 0 <= i < |restUrls| ==> rest[2 * i + 1] == restUrls[i]
    ensures var parts, urls := [plain, url] + rest, [url] + restUrls;
            |parts| == 2 * |urls| + 1 && forall i :: 0 <= i < |urls| ==> parts[2 * i + 1] == urls[i]
  {
    var parts, urls := [plain, url] + rest, [url] + restUrls;
    forall i | 0 <= i < |urls| ensures parts[2 * i + 1] == urls[i] {
      if i > 0 {
        var j := i - 1;
        assert parts[2 * j + 1 + 2] == rest[2 * j + 1];
        assert urls[j + 1] == restUrls[j];
      }
    }
  }

  /** Every match is a URL run. */
  lemma {:induction false} MatchesAreUrls(s: string, p: nat)
    requires p <= |s|
    ensures forall i :: 0 <= i < |Matches(s, p)| ==> IsUrl(Matches(s, p)[i])
    decreases |s| - p
  {
    var q := NextUrl(s, p);
    if q < |s| {
      SplitLinksStep(s, p, q);
      UrlRun(s, q);
      var e := FindSpace(s, q);
      MatchesAreUrls(s, e);
      AllUrlsCons(s[q..e], Matches(s, e));
    }
  }

  lemma AllUrlsCons(url: string, rest: seq<string>)
    requires IsUrl(url) && forall i :: 0 <= i < |rest| ==> IsUrl(rest[i])
    ensures forall i :: 0 <= i < |[url] + rest| ==> IsUrl(([url] + rest)[i])
  {
    forall i | 0 <= i < |[url] + rest| ensures IsUrl(([url] + rest)[i]) {
      if i > 0 { assert ([url] + rest)[i] == rest[i - 1]; }
    }
  }

  /** A slice in which no match of the whole text starts contains no match of its own. */
  lemma SliceHasNoUrl(s: string, p: nat, q: nat)
    requires p <= q <= |s| && forall k :: p <= k < q ==> !UrlStartsAt(s, k)
    ensures HasNoUrl(s[p..q])
  {
    forall k | 0 <= k < q - p ensures !UrlStartsAt(s[p..q], k) {
      if UrlStartsAt(s[p..q], k) { UrlStartsInSlice(s, p, q, k); }
    }
  }

  /** The parts at even places contain no match. */
  predicate EvenPartsHaveNoUrl(parts: seq<string>) {
    forall i :: 0 <= i < |parts| && i % 2 == 0 ==> HasNoUrl(parts[i])
  }

  lemma EvenPartsCons(a: string, b: string, rest: seq<string>)
    requires HasNoUrl(a) && EvenPartsHaveNoUrl(rest)
    ensures EvenPartsHaveNoUrl([a, b] + rest)
  {
    var parts := [a, b] + rest;
    forall i | 0 <= i < |parts| && i % 2 == 0 ensures HasNoUrl(parts[i]) {
      if i > 0 { assert parts[i] == rest[i - 2]; }
    }
  }

  /** The plain parts contain no match. */
  lemma {:induction false} PlainPartsHaveNoUrl(s: string, p: nat)
    requires p <= |s|
    ensures EvenPartsHaveNoUrl(SplitLinks(s, p))
    decreases |s| - p
  {
    var q := NextUrl(s, p);
    if q == |s| {
      SliceHasNoUrl(s, p, |s|);
      SplitLinksLast(s, p);
    } else {
      SplitLinksStep(s, p, q);
      var e := FindSpace(s, q);
      PlainPartsHaveNoUrl(s, e);
      SliceHasNoUrl(s, p, q);
      EvenPartsCons(s[p..q], s[q..e], SplitLinks(s, e));
    }
  }

  /** A rendered part: plain text, or a link to the text it shows. */
  datatype Part = Plain(text: string) | Link(text: string)

  /** A part is a link when it is one of the matches. */
  function Classify(parts: seq<string>, urls: seq<string>): (r: seq<Part>)
    ensures |r| == |parts|
  {
    seq(|parts|, i requires 0 <= i < |parts| => if parts[i] in urls then Link(parts[i]) else Plain(parts[i]))
  }

  /** With matches at the odd places only, the links are exactly the odd parts. */
  lemma ClassifyAlternating(parts: seq<string>, urls: seq<string>)
    requires |parts| == 2 * |urls| + 1 && forall i :: 0 <= i < |urls| ==> parts[2 * i + 1] == urls[i]
    requires forall i :: 0 <= i < |urls| ==> IsUrl(urls[i])
    requires EvenPartsHaveNoUrl(parts)
    ensures var r := Classify(parts, urls);
            forall i :: 0 <= i < |r| ==> r[i].text == parts[i] && (r[i].Link? <==> i % 2 == 1)
    ensures var r := Classify(parts, urls);
            forall i :: 0 <= i < |r| ==> (r[i].Link? ==> IsUrl(r[i].text)) && (r[i].Plain? ==> HasNoUrl(r[i].text))
  {
    var r := Classify(parts, urls);
    forall i | 0 <= i < |r|
      ensures r[i].text == parts[i] && (r[i].Link? <==> i % 2 == 1)
      ensures (r[i].Link? ==> IsUrl(r[i].text)) && (r[i].Plain? ==> HasNoUrl(r[i].text))
    {
      if i % 2 == 1 {
        assert parts[2 * (i / 2) + 1] == urls[i / 2];
      }
    }
  }

  /** `parseTextWithLinks`: nothing for the empty text, else the parts with the matches as links. */
  function ParseTextWithLinks(text: string): seq<Part> {
    if text == [] then [] else Classify(SplitLinks(text, 0), Matches(text, 0))
  }

  /**
   * The parts spell out the text; the links are exactly the matches, at the
   * odd places; no plain part contains a match.
   */
  lemma LinksAreExactlyUrls(text: string)
    requires text != []
    ensures var r, parts := ParseTextWithLinks(text), SplitLinks(text, 0);
            |r| == |parts| == 2 * |Matches(text, 0)| + 1
            && Concat(parts) == text
            && (forall i :: 0 <= i < |r| ==> r[i].text == parts[i] && (r[i].Link? <==> i % 2 == 1))
            && (forall i :: 0 <= i < |r| ==> (r[i].Link? ==> IsUrl(r[i].text)) && (r[i].Plain? ==> HasNoUrl(r[i].text)))
  {
    var parts, urls := SplitLinks(text, 0), Matches(text, 0);
    SplitLinksConcat(text, 0);
    SplitLinksAlternate(text, 0);
    MatchesAreUrls(text, 0);
    PlainPartsHaveNoUrl(text, 0);
    ClassifyAlternating(parts, urls);
    assert text[0..] == text;
  }

  // ---------------------------------------------------------------------
  // Adding the article to the default map
  // ---------------------------------------------------------------------

  /** The stored contents of one dot map. */
  datatype MapData = MapData(nodes: seq<Node>, edges: seq<Edge>)

  /** The node for an article: its title, the first 100 characters of its summary and an ellipsis. */
  function ArticleNode(result: SearchResult, now: nat, rx: real, ry: real): Node {
    Node("node-" + NatToString(now), Position(100.0 + rx * 200.0, 100.0 + ry * 200.0),
         NodeData(result.title, Substring(result.summary, 0, NodeSummaryLength) + "...", "article", false))
  }

  /** The node shows the article's title and a prefix of its summary of at most 100 characters, then "...". */
  lemma ArticleNodeShape(result: SearchResult, now: nat, rx: real, ry: real)
    ensures var n := ArticleNode(result, now, rx, ry);
            var c := n.data.content;
            n.data.kind == "article" && n.data.title == result.title
            && 3 <= |c| <= NodeSummaryLength + 3 && c[|c| - 3..] == "..."
            && StartsWith(result.summary, c[..|c| - 3])
            && (|result.summary| >= NodeSummaryLength ==> |c| == NodeSummaryLength + 3)
  {
    var c := ArticleNode(result, now, rx, ry).data.content;
    var pre := Substring(result.summary, 0, NodeSummaryLength);
    assert c[..|c| - 3] == pre;
  }

  /** The component state the operations above change, with the browser storage it writes. */
  class Workspace {
    var searchHistory: seq<string>
    /** The `searchHistory` storage entry. */
    var storedHistory: Option<seq<string>>
    /** The `dotmap-default` storage entry. */
    var savedDefaultMap: Option<MapData>
    var showDotMapsDialog: bool

    constructor(stored: Option<seq<string>>, savedMap: Option<MapData>)
      ensures searchHistory == [] && storedHistory == stored && savedDefaultMap == savedMap && !showDotMapsDialog
    {
      searchHistory := [];
      storedHistory := stored;
      savedDefaultMap := savedMap;
      showDotMapsDialog := false;
    }

    /** The mount effect: a saved history replaces the empty one. */
    method LoadHistory()
      modifies this
      ensures searchHistory == (if old(storedHistory).Some? then old(storedHistory).value else old(searchHistory))
      ensures storedHistory == old(storedHistory) && savedDefaultMap == old(savedDefaultMap)
      ensures showDotMapsDialog == old(showDotMapsDialog)
    {
      if storedHistory.Some? {
        searchHistory := storedHistory.value;
      }
    }

    /**
     * The first commit: the load effect and the history effect run one after
     * the other against the state of the same render, `old(searchHistory)`,
     * and the later state update wins.
     */
    method Mount(title: string)
      modifies this
      ensures var r := UpdatedHistory(title, old(searchHistory));
              if r.Some? then searchHistory == r.value && storedHistory == r
              else searchHistory == (if old(storedHistory).Some? then old(storedHistory).value else old(searchHistory))
                   && storedHistory == old(storedHistory)
      ensures old(searchHistory) == [] ==> searchHistory == MountedHistory(old(storedHistory), title)
      ensures savedDefaultMap == old(savedDefaultMap) && showDotMapsDialog == old(showDotMapsDialog)
    {
      var seen := searchHistory;
      var next := seen;
      if storedHistory.Some? {
        next := storedHistory.value;
      }
      var r := UpdatedHistory(title, seen);
      if r.Some? {
        next := r.value;
        storedHistory := r;
      }
      searchHistory := next;
    }

    /** The history effect for the current `search` parameter; a new list is also saved. */
    method RecordSearch(title: string)
      modifies this
      ensures var r := UpdatedHistory(title, old(searchHistory));
              if r.Some? then searchHistory == r.value && storedHistory == r
              else searchHistory == old(searchHistory) && storedHistory == old(storedHistory)
      ensures savedDefaultMap == old(savedDefaultMap) && showDotMapsDialog == old(showDotMapsDialog)
    {
      var r := UpdatedHistory(title, searchHistory);
      if r.Some? {
        searchHistory := r.value;
        storedHistory := r;
      }
    }

    /** `handleAddToDotMap`: append the article's node to the default map and show the confirmation. */
    method AddToDotMap(result: Option<SearchResult>, now: nat, rx: real, ry: real)
      modifies this
      ensures result.None? ==>
                savedDefaultMap == old(savedDefaultMap) && showDotMapsDialog == old(showDotMapsDialog)
      ensures result.Some? ==>
                var base := if old(savedDefaultMap).Some? then old(savedDefaultMap).value else MapData([], []);
                savedDefaultMap == Some(MapData(base.nodes + [ArticleNode(result.value, now, rx, ry)], base.edges))
                && showDotMapsDialog
      ensures searchHistory == old(searchHistory) && storedHistory == old(storedHistory)
    {
      if result.None? {
        return;
      }
      var mapData := if savedDefaultMap.Some? then savedDefaultMap.value else MapData([], []);
      var newNode := ArticleNode(result.value, now, rx, ry);
      mapData := mapData.(nodes := mapData.nodes + [newNode]);
      savedDefaultMap := Some(mapData);
      showDotMapsDialog := true;
    }
  }
}
