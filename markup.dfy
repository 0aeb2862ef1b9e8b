/**
 * The pattern-based markup rewrites of the article lookup: the opening-tag
 * and link rewrites of the sanitiser, tag stripping for plain text and
 * snippets, and category-link extraction.
 *
 * Each function follows the leftmost, greedy semantics of the JavaScript
 * regular expression it models, applied with the global flag: scanning
 * resumes right after each replaced match, and a position where the pattern
 * fails is copied unchanged.
 */
module Markup {
  import opened Wrappers
  import opened Text

  // ---------------------------------------------------------------------
  // Opening-tag rewrites: /<table[^>]*>/g and /<img([^>]*)>/g
  // ---------------------------------------------------------------------

  /**
   * If `open[^>]*>` matches at the start of `s`, the index of its `>`:
   * the first `>` after `open`.
   */
  function TagClose(s: string, open: string): (r: Option<nat>)
    ensures r.Some? ==> StartsWith(s, open) && |open| <= r.value < |s| && s[r.value] == '>'
    ensures r.Some? ==> forall k :: |open| <= k < r.value ==> s[k] != '>'
    ensures r.None? ==> !StartsWith(s, open) || forall k :: |open| <= k < |s| ==> s[k] != '>'
  {
    if StartsWith(s, open) && FindChar(s, '>', |open|) < |s| then Some(FindChar(s, '>', |open|)) else None
  }

  datatype TagRule = NormaliseTable | LazyImage

  function Open(rule: TagRule): string {
    match rule
    case NormaliseTable => "<table"
    case LazyImage => "<img"
  }

  const TableTag: string := "<table class=\"wikipedia-table\">"

  /** The replacement for one matched opening tag, given the text between the tag name and `>`. */
  function RenderTag(rule: TagRule, attrs: string): string {
    match rule
    case NormaliseTable => TableTag
    case LazyImage => "<img" + attrs + " loading=\"lazy\" class=\"article-img\">"
  }

  /** `s.replace(/<table[^>]*>/g, ...)` or `s.replace(/<img([^>]*)>/g, ...)`. */
  function RewriteTags(s: string, rule: TagRule): string
    decreases |s|
  {
    if s == [] then []
    else match TagClose(s, Open(rule))
      case Some(g) => RenderTag(rule, s[|Open(rule)|..g]) + RewriteTags(s[g + 1..], rule)
      case None => [s[0]] + RewriteTags(s[1..], rule)
  }

  /** Every table opening tag in `t` already is the normalised one. */
  predicate TablesNormal(t: string) {
    forall i :: 0 <= i <= |t| && TagClose(t[i..], "<table").Some? ==> StartsWith(t[i..], TableTag)
  }

  lemma TableTagCloses(x: string)
    ensures TagClose(TableTag + x, "<table") == Some(|TableTag| - 1)
    ensures (TableTag + x)[|TableTag|..] == x
  {
    var s := TableTag + x;
    assert s[..|TableTag|] == TableTag;
    assert StartsWith(s, "<table");
    assert forall k :: 6 <= k < |TableTag| - 1 ==> s[k] == TableTag[k];
    FindCharIs(s, '>', 6, |TableTag| - 1);
  }

  /** Text without any `>` holds no tag to rewrite. */
  lemma {:induction false} RewriteTagsNoClose(t: string, rule: TagRule)
    requires forall k :: 0 <= k < |t| ==> t[k] != '>'
    ensures RewriteTags(t, rule) == t
    decreases |t|
  {
    if t != [] {
      NoCloseStep(t, rule);
      RewriteTagsNoClose(t[1..], rule);
      assert t == [t[0]] + t[1..];
    }
  }

  /** Without a `>` the first character is copied, and the rest has no `>` either. */
  lemma NoCloseStep(t: string, rule: TagRule)
    requires t != [] && forall k :: 0 <= k < |t| ==> t[k] != '>'
    ensures RewriteTags(t, rule) == [t[0]] + RewriteTags(t[1..], rule)
    ensures forall k :: 0 <= k < |t[1..]| ==> t[1..][k] != '>'
  {
    if StartsWith(t, Open(rule)) { FindCharIs(t, '>', |Open(rule)|, |t|); }
    assert TagClose(t, Open(rule)) == None;
    forall k | 0 <= k < |t| - 1 ensures t[1..][k] != '>' { assert t[1..][k] == t[k + 1]; }
  }

  /** The rewritten text starts with a `<`-free word only where the input does. */
  lemma {:induction false} RewriteTablesPrefix(t: string, w: string)
    requires forall k :: 0 <= k < |w| ==> w[k] != '<'
    ensures StartsWith(RewriteTags(t, NormaliseTable), w) ==> StartsWith(t, w)
    decreases |w|
  {
    var out := RewriteTags(t, NormaliseTable);
    if w != [] && t != [] {
      match TagClose(t, "<table")
      case Some(g) =>
        assert out == TableTag + RewriteTags(t[g + 1..], NormaliseTable);
        assert out[0] == '<' != w[0];
      case None =>
        var rest := RewriteTags(t[1..], NormaliseTable);
        assert out == [t[0]] + rest;
        RewriteTablesPrefix(t[1..], w[1..]);
        assert w == [w[0]] + w[1..] && t == [t[0]] + t[1..];
        StartsWithCons(t[0], rest, w[0], w[1..]);
        StartsWithCons(t[0], t[1..], w[0], w[1..]);
    }
  }

  /** An unclosed `<table` is copied through unchanged. */
  lemma UnclosedTableKept(s: string)
    requires StartsWith(s, "<table") && TagClose(s, "<table").None?
    ensures [s[0]] + RewriteTags(s[1..], NormaliseTable) == s
  {
    assert s[..6] == "<table";
    forall k | 0 <= k < |s| - 1 ensures s[1..][k] != '>' {
      assert s[1..][k] == s[k + 1];
      if k + 1 < 6 { assert s[k + 1] == "<table"[k + 1]; }
    }
    RewriteTagsNoClose(s[1..], NormaliseTable);
  }

  /** Rewriting after a first character that does not open a table tag cannot make one there. */
  lemma PlainStartKept(s: string)
    requires s != [] && !StartsWith(s, "<table")
    ensures !StartsWith([s[0]] + RewriteTags(s[1..], NormaliseTable), "<table")
  {
    var rest := RewriteTags(s[1..], NormaliseTable);
    var out := [s[0]] + rest;
    RewriteTablesPrefix(s[1..], "table");
    assert "<table" == ['<'] + "table";
    assert [s[0]] + s[1..] == s;
    StartsWithCons(s[0], rest, '<', "table");
    StartsWithCons(s[0], s[1..], '<', "table");
  }

  /** Where the scan keeps the first character, the rewrite of the rest does not create a table tag there. */
  lemma KeptCharStaysPlain(s: string)
    requires s != [] && TagClose(s, "<table").None?
    ensures TagClose([s[0]] + RewriteTags(s[1..], NormaliseTable), "<table").None?
  {
    if StartsWith(s, "<table") {
      UnclosedTableKept(s);
    } else {
      PlainStartKept(s);
    }
  }

  /** A position holding anything but `<` opens no table tag. */
  lemma NoTableAt(t: string, i: nat)
    requires i < |t| && t[i] != '<'
    ensures TagClose(t[i..], "<table").None?
  {
    assert t[i..][0] == t[i];
  }

  /** Prefixing the normalised tag to normal text keeps it normal. */
  lemma TableTagThenNormal(rest: string)
    requires TablesNormal(rest)
    ensures TablesNormal(TableTag + rest)
  {
    var out := TableTag + rest;
    TableTagCloses(rest);
    forall i | 0 <= i <= |out|
      ensures TagClose(out[i..], "<table").Some? ==> StartsWith(out[i..], TableTag)
    {
      if i >= |TableTag| {
        assert out[i..] == rest[i - |TableTag|..];
      } else if i > 0 {
        assert out[i] == TableTag[i];
        NoTableAt(out, i);
      }
    }
  }

  /** Prefixing a character that opens no table tag to normal text keeps it normal. */
  lemma PlainCharThenNormal(c: char, rest: string)
    requires TablesNormal(rest)
    requires TagClose([c] + rest, "<table").None?
    ensures TablesNormal([c] + rest)
  {
    var out := [c] + rest;
    forall i | 0 <= i <= |out|
      ensures TagClose(out[i..], "<table").Some? ==> StartsWith(out[i..], TableTag)
    {
      if i > 0 { assert out[i..] == rest[i - 1..]; }
    }
  }

  /** After normalisation every table opening tag is exactly `<table class="wikipedia-table">`. */
  lemma {:induction false} NormalisedTablesAreNormal(s: string)
    ensures TablesNormal(RewriteTags(s, NormaliseTable))
    decreases |s|
  {
    if s != [] {
      match TagClose(s, "<table")
      case Some(g) =>
        NormalisedTablesAreNormal(s[g + 1..]);
        TableTagThenNormal(RewriteTags(s[g + 1..], NormaliseTable));
      case None =>
        NormalisedTablesAreNormal(s[1..]);
        KeptCharStaysPlain(s);
        PlainCharThenNormal(s[0], RewriteTags(s[1..], NormaliseTable));
    }
  }

  /** Text whose table tags are all normalised is left as it is. */
  lemma {:induction false} NormalTablesFixed(t: string)
    requires TablesNormal(t)
    ensures RewriteTags(t, NormaliseTable) == t
    decreases |t|
  {
    if t != [] {
      match TagClose(t, "<table")
      case Some(g) =>
        assert t[0..] == t;
        assert StartsWith(t, TableTag);
        var x := t[|TableTag|..];
        assert TableTag + x == t;
        TableTagCloses(x);
        assert g == |TableTag| - 1;
        forall i | 0 <= i <= |x| && TagClose(x[i..], "<table").Some?
          ensures StartsWith(x[i..], TableTag)
        {
          assert x[i..] == t[i + |TableTag|..];
        }
        NormalTablesFixed(x);
      case None =>
        forall i | 0 <= i <= |t| - 1 && TagClose(t[1..][i..], "<table").Some?
          ensures StartsWith(t[1..][i..], TableTag)
        {
          assert t[1..][i..] == t[i + 1..];
        }
        NormalTablesFixed(t[1..]);
    }
  }

  /** Normalising the tables twice is the same as normalising them once. */
  lemma NormaliseTablesIdempotent(s: string)
    ensures RewriteTags(RewriteTags(s, NormaliseTable), NormaliseTable) == RewriteTags(s, NormaliseTable)
  {
    NormalisedTablesAreNormal(s);
    NormalTablesFixed(RewriteTags(s, NormaliseTable));
  }

  /** One opening tag `<table…>` at the scan position becomes exactly the normalised tag. */
  lemma NormaliseOneTable(attrs: string, rest: string)
    requires forall k :: 0 <= k < |attrs| ==> attrs[k] != '>'
    ensures RewriteTags("<table" + attrs + ">" + rest, NormaliseTable)
         == TableTag + RewriteTags(rest, NormaliseTable)
  {
    var s := "<table" + attrs + ">" + rest;
    assert s[..6] == "<table";
    assert forall k :: 6 <= k < 6 + |attrs| ==> s[k] == attrs[k - 6];
    assert s[6 + |attrs|] == '>';
    assert TagClose(s, "<table") == Some(6 + |attrs|);
    assert s[6 + |attrs| + 1..] == rest;
  }

  // ---------------------------------------------------------------------
  // Anchor rewrites:
  //   /<a([^>]*)href="(https?:\/\/(?!en\.wikipedia\.org)[^"]+)"([^>]*)>/g
  //   /<a([^>]*)href="\/wiki\/([^"]+)"([^>]*)>/g
  // ---------------------------------------------------------------------

  datatype LinkRule = External | Internal

  /** Whether an href value (the text between the quotes) is one the rule rewrites. */
  predicate Accepts(rule: LinkRule, v: string) {
    match rule
    case External =>
      (StartsWith(v, "http://") && |v| > 7 && !StartsWith(v[7..], "en.wikipedia.org"))
      || (StartsWith(v, "https://") && |v| > 8 && !StartsWith(v[8..], "en.wikipedia.org"))
    case Internal => StartsWith(v, "/wiki/") && |v| > 6
  }

  /** The href value written back for an accepted value. */
  function RenderHref(rule: LinkRule, v: string): string
    requires Accepts(rule, v)
  {
    match rule
    case External => v
    case Internal => "/search?query=" + v[6..]
  }

  /** The attributes appended at the end of a rewritten tag. */
  function Marker(rule: LinkRule): string {
    match rule
    case External => " target=\"_blank\" rel=\"noopener noreferrer\""
    case Internal => " class=\"internal-link\""
  }

  /**
   * Whether the rest of the pattern matches with `href="` at index `p`:
   * the index of the value's closing quote and of the tag's `>`.
   */
  function HrefMatch(s: string, p: nat, rule: LinkRule): (m: Option<(nat, nat)>)
    requires p <= |s|
    ensures m.Some? ==> OccursAt(s, "href=\"", p) && p + 6 <= m.value.0 < m.value.1 < |s|
    ensures m.Some? ==> Accepts(rule, s[p + 6..m.value.0])
    ensures m.Some? ==> s[m.value.0] == '"' && forall k :: p + 6 <= k < m.value.0 ==> s[k] != '"'
    ensures m.Some? ==> s[m.value.1] == '>' && forall k :: m.value.0 < k < m.value.1 ==> s[k] != '>'
  {
    if !OccursAt(s, "href=\"", p) then None
    else
      var r := FindChar(s, '"', p + 6);
      if r == |s| || !Accepts(rule, s[p + 6..r]) then None
      else
        var e := FindChar(s, '>', r + 1);
        if e == |s| then None else Some((r, e))
  }

  /** Greedy `[^>]*` before `href=`: the largest position at or below `p` that matches. */
  function LastHref(s: string, lo: nat, p: nat, rule: LinkRule): (m: Option<(nat, nat, nat)>)
    requires lo <= p <= |s|
    ensures m.Some? ==> lo <= m.value.0 <= p && m.value.0 + 6 <= m.value.1 < m.value.2 < |s|
    ensures m.Some? ==> HrefMatch(s, m.value.0, rule) == Some((m.value.1, m.value.2))
    decreases p - lo
  {
    match HrefMatch(s, p, rule)
    case Some(re) => Some((p, re.0, re.1))
    case None => if p == lo then None else LastHref(s, lo, p - 1, rule)
  }

  /** The match of the anchor pattern at the start of `s`: positions of `href=`, closing quote and `>`. */
  function AnchorMatch(s: string, rule: LinkRule): (m: Option<(nat, nat, nat)>)
    ensures m.Some? ==> 2 <= m.value.0 && m.value.0 + 6 <= m.value.1 < m.value.2 < |s|
    ensures m.Some? ==> Accepts(rule, s[m.value.0 + 6..m.value.1])
  {
    if !StartsWith(s, "<a") then None else LastHref(s, 2, FindChar(s, '>', 2), rule)
  }

  /** The replacement for a matched anchor tag: `$1`, the rewritten href, `$3`, and the added attributes. */
  function RewrittenAnchor(s: string, p: nat, r: nat, e: nat, rule: LinkRule): string
    requires 2 <= p && p + 6 <= r < e <= |s| && Accepts(rule, s[p + 6..r])
  {
    "<a" + s[2..p] + "href=\"" + RenderHref(rule, s[p + 6..r]) + "\"" + s[r + 1..e]
    + Marker(rule) + ">"
  }

  /** The global anchor rewrite of the sanitiser. */
  function RewriteLinks(s: string, rule: LinkRule): string
    decreases |s|
  {
    if s == [] then []
    else match AnchorMatch(s, rule)
      case Some(m) => RewrittenAnchor(s, m.0, m.1, m.2, rule) + RewriteLinks(s[m.2 + 1..], rule)
      case None => [s[0]] + RewriteLinks(s[1..], rule)
  }

  /** Text in which no anchor tag starts is left unchanged. */
  lemma {:induction false} RewriteLinksNoAnchor(s: string, rule: LinkRule)
    requires forall i :: 0 <= i < |s| ==> !OccursAt(s, "<a", i)
    ensures RewriteLinks(s, rule) == s
    decreases |s|
  {
    if s != [] {
      assert !StartsWith(s, "<a") by { assert !OccursAt(s, "<a", 0); }
      forall i | 0 <= i < |s| - 1 ensures !OccursAt(s[1..], "<a", i) {
        assert !OccursAt(s, "<a", i + 1);
      }
      RewriteLinksNoAnchor(s[1..], rule);
    }
  }

  /** The search below `p` reaches `q` when every position strictly between fails. */
  lemma {:induction false} LastHrefFinds(s: string, lo: nat, p: nat, q: nat, rule: LinkRule)
    requires lo <= q <= p <= |s|
    requires HrefMatch(s, q, rule).Some?
    requires forall k :: q < k <= p ==> HrefMatch(s, k, rule).None?
    ensures LastHref(s, lo, p, rule) == Some((q, HrefMatch(s, q, rule).value.0, HrefMatch(s, q, rule).value.1))
    decreases p - q
  {
    if p > q {
      LastHrefFinds(s, lo, p - 1, q, rule);
    }
  }

  /** `href="` holds no `>`, and its only quote is its last character. */
  lemma HrefChars(j: nat)
    requires j < 6
    ensures "href=\""[j] != '>' && (j < 5 ==> "href=\""[j] != '"')
  {}

  /** One character that differs from `href="` rules out a match at `k`. */
  lemma NotHrefAt(s: string, k: nat, d: nat)
    requires k + 6 <= |s| && d < 6 && s[k + d] != "href=\""[d]
    ensures !OccursAt(s, "href=\"", k)
  {
    assert s[k..k + 6][d] == s[k + d];
  }

  /** An `href="` that ends before the tag's `>` at `e` is the only kind that can start after `p`. */
  lemma NoLaterHref(s: string, p: nat, e: nat)
    requires p < e < |s| && s[e] == '>'
    requires forall k :: p < k && k + 6 <= e ==> !OccursAt(s, "href=\"", k)
    ensures forall k :: p < k <= e ==> !OccursAt(s, "href=\"", k)
  {
    forall k | p < k <= e && e < k + 6 <= |s| ensures !OccursAt(s, "href=\"", k) {
      HrefChars(e - k);
      NotHrefAt(s, k, e - k);
    }
  }

  /** A tag whose only quotes after `href="` are the two around the value has no later `href="`. */
  lemma QuotesOnlyAroundValue(s: string, p: nat, r: nat, e: nat)
    requires p + 6 <= r < e < |s| && s[r] == '"' && s[r - 1] != '=' && s[e] == '>'
    requires forall j :: p + 5 < j < r ==> s[j] != '"'
    requires forall j :: r < j < e ==> s[j] != '"'
    ensures forall k :: p < k && k + 6 <= e ==> !OccursAt(s, "href=\"", k)
  {
    forall k | p < k && k + 6 <= e ensures !OccursAt(s, "href=\"", k) {
      if k + 5 < r || r < k + 5 {
        NotHrefAt(s, k, 5);
      } else {
        NotHrefAt(s, k, 4);
      }
    }
  }

  /** The anchor pattern matches at the start of `s` with `href=` at `p`, the value's quote at `r` and `>` at `e`. */
  lemma AnchorAt(s: string, p: nat, r: nat, e: nat, rule: LinkRule)
    requires StartsWith(s, "<a") && 2 <= p && p + 6 <= r < e < |s|
    requires OccursAt(s, "href=\"", p) && Accepts(rule, s[p + 6..r])
    requires s[r] == '"' && s[e] == '>'
    requires forall k :: 2 <= k < e ==> s[k] != '>'
    requires forall k :: p + 6 <= k < r ==> s[k] != '"'
    requires forall k :: p < k && k + 6 <= e ==> !OccursAt(s, "href=\"", k)
    ensures AnchorMatch(s, rule) == Some((p, r, e))
  {
    FindCharIs(s, '>', 2, e);
    FindCharIs(s, '"', p + 6, r);
    FindCharIs(s, '>', r + 1, e);
    assert HrefMatch(s, p, rule) == Some((r, e));
    NoLaterHref(s, p, e);
    LastHrefFinds(s, 2, e, p, rule);
  }

  /**
   * An anchor tag at the scan position linking to an article,
   * `<a A href="/wiki/X" B>` with no further `href="` in `B`, becomes a link
   * to the local search page for `X`: the other attributes are kept, the
   * internal-link class is added, and the scan continues after the tag.
   * `B` may hold other quoted attributes, such as `title="X"`.
   */
  lemma RewriteWikiLink(s: string, p: nat, r: nat, e: nat)
    requires StartsWith(s, "<a") && 2 <= p && p + 12 < r < e < |s|
    requires OccursAt(s, "href=\"/wiki/", p)
    requires s[r] == '"' && s[e] == '>'
    requires forall k :: 2 <= k < e ==> s[k] != '>'
    requires forall k :: p + 6 <= k < r ==> s[k] != '"'
    requires forall k :: p < k && k + 6 <= e ==> !OccursAt(s, "href=\"", k)
    ensures Accepts(Internal, s[p + 6..r])
    ensures RewriteLinks(s, Internal) == RewrittenAnchor(s, p, r, e, Internal) + RewriteLinks(s[e + 1..], Internal)
  {
    WikiAnchorMatch(s, p, r, e);
    RewriteLinksAtMatch(s, Internal, p, r, e);
  }

  /** The anchor pattern matches such a tag at the scan position. */
  lemma WikiAnchorMatch(s: string, p: nat, r: nat, e: nat)
    requires StartsWith(s, "<a") && 2 <= p && p + 12 < r < e < |s|
    requires OccursAt(s, "href=\"/wiki/", p)
    requires s[r] == '"' && s[e] == '>'
    requires forall k :: 2 <= k < e ==> s[k] != '>'
    requires forall k :: p + 6 <= k < r ==> s[k] != '"'
    requires forall k :: p < k && k + 6 <= e ==> !OccursAt(s, "href=\"", k)
    ensures AnchorMatch(s, Internal) == Some((p, r, e))
  {
    WikiHref(s, p, r);
    AnchorAt(s, p, r, e, Internal);
  }

  /** One step of the global rewrite at a position where the anchor pattern matches. */
  lemma RewriteLinksAtMatch(s: string, rule: LinkRule, p: nat, r: nat, e: nat)
    requires AnchorMatch(s, rule) == Some((p, r, e))
    ensures RewriteLinks(s, rule) == RewrittenAnchor(s, p, r, e, rule) + RewriteLinks(s[e + 1..], rule)
  {}

  /** `href="/wiki/` at `p` is an `href="` whose value, up to `r`, the internal rule accepts. */
  lemma WikiHref(s: string, p: nat, r: nat)
    requires OccursAt(s, "href=\"/wiki/", p) && p + 12 < r <= |s|
    ensures OccursAt(s, "href=\"", p) && Accepts(Internal, s[p + 6..r])
  {
    var h := "href=\"/wiki/";
    assert forall k :: 0 <= k < 12 ==> s[p + k] == s[p..p + 12][k] == h[k];
    forall k | 0 <= k < 6 ensures s[p..p + 6][k] == "href=\""[k] { assert s[p..p + 6][k] == h[k]; }
    forall k | 0 <= k < 6 ensures s[p + 6..r][..6][k] == "/wiki/"[k] { assert s[p + 6..r][k] == h[k + 6]; }
  }

  /** The replacement of an internal link carries the article name after `/search?query=`. */
  lemma InternalAnchorText(s: string, p: nat, r: nat, e: nat)
    requires 2 <= p && p + 6 <= r < e <= |s| && Accepts(Internal, s[p + 6..r])
    ensures RewrittenAnchor(s, p, r, e, Internal)
         == "<a" + s[2..p] + "href=\"" + ("/search?query=" + s[p + 12..r]) + "\"" + s[r + 1..e]
            + " class=\"internal-link\">"
  {
    assert s[p + 6..r][6..] == s[p + 12..r];
  }

  /** A character that is not part of a quoted attribute's syntax. */
  predicate PlainAttrChar(c: char) {
    c != '"' && c != '>' && c != '='
  }

  /**
   * The usual form of an article link, `<a href="/wiki/X" title="Y">`, is
   * rewritten with its title kept and the internal-link class added.
   */
  lemma RewriteWikiLinkWithTitle(x: string, y: string, rest: string)
    requires x != [] && forall k :: 0 <= k < |x| ==> PlainAttrChar(x[k])
    requires forall k :: 0 <= k < |y| ==> PlainAttrChar(y[k])
    ensures RewriteLinks(WikiTitleTag(x, y) + rest, Internal) == SearchTitleTag(x, y) + RewriteLinks(rest, Internal)
  {
    RewriteTitleTagOf(WikiTitleTag(x, y) + rest, x, y, rest);
  }

  lemma RewriteTitleTagOf(s: string, x: string, y: string, rest: string)
    requires s == WikiTitleTag(x, y) + rest
    requires x != [] && forall k :: 0 <= k < |x| ==> PlainAttrChar(x[k])
    requires forall k :: 0 <= k < |y| ==> PlainAttrChar(y[k])
    ensures RewriteLinks(s, Internal) == SearchTitleTag(x, y) + RewriteLinks(rest, Internal)
  {
    var r, e := 15 + |x|, 25 + |x| + |y|;
    TitleTagLayout(s, x, y, rest);
    RewriteTitleTag(s, r, e);
    assert s[15..r] == x && s[r + 9..e - 1] == y && s[e + 1..] == rest;
  }

  /** `<a href="/wiki/X" title="Y">`. */
  function WikiTitleTag(x: string, y: string): string {
    "<a href=\"/wiki/" + x + "\" title=\"" + y + "\">"
  }

  /** `<a href="/search?query=X" title="Y" class="internal-link">`. */
  function SearchTitleTag(x: string, y: string): string {
    "<a href=\"/search?query=" + x + "\" title=\"" + y + "\" class=\"internal-link\">"
  }

  /** The rewrite of a tag laid out as `<a href="/wiki/X" title="Y">`, by positions. */
  lemma RewriteTitleTag(s: string, r: nat, e: nat)
    requires TitleTagAt(s, r, e)
    ensures RewriteLinks(s, Internal) == SearchTitleTag(s[15..r], s[r + 9..e - 1]) + RewriteLinks(s[e + 1..], Internal)
  {
    TitleTagHasOneHref(s, r, e);
    RewriteWikiLink(s, 3, r, e);
    InternalAnchorText(s, 3, r, e);
    TitleTagParts(s, r, e);
    TitleAnchorText(s[15..r], s[r + 9..e - 1], RewriteLinks(s[e + 1..], Internal));
  }

  /** The pieces of the tag that its rewrite keeps. */
  lemma TitleTagParts(s: string, r: nat, e: nat)
    requires TitleTagAt(s, r, e)
    ensures s[2..3] == " " && s[r + 1..e] == " title=\"" + s[r + 9..e - 1] + "\""
  {
    assert s[2..3] == s[..15][2..3];
    assert s[r + 1..r + 9] == s[r..r + 9][1..] && s[e - 1..e] == s[e - 1..e + 1][..1];
    assert s[r + 1..e] == s[r + 1..r + 9] + s[r + 9..e - 1] + s[e - 1..e] by {
      assert s[r + 1..e] == s[r + 1..e - 1] + s[e - 1..e];
      assert s[r + 1..e - 1] == s[r + 1..r + 9] + s[r + 9..e - 1];
    }
  }

  lemma TitleAnchorText(x: string, y: string, t: string)
    ensures "<a" + " " + "href=\"" + ("/search?query=" + x) + "\"" + (" title=\"" + y + "\"")
            + " class=\"internal-link\">" + t
         == SearchTitleTag(x, y) + t
  {
    var head, mid, tail := "<a href=\"/search?query=", "\" title=\"", "\" class=\"internal-link\">";
    assert "<a" + " " + "href=\"" + "/search?query=" == head;
    assert "\"" + " title=\"" == mid;
    assert "\"" + " class=\"internal-link\">" == tail;
  }

  /** Where the parts of `<a href="/wiki/X" title="Y">` sit. */
  predicate TitleTagAt(s: string, r: nat, e: nat) {
    15 < r && r + 10 <= e < |s|
    && s[..15] == "<a href=\"/wiki/" && s[r..r + 9] == "\" title=\"" && s[e - 1..e + 1] == "\">"
    && (forall k :: 15 <= k < r ==> PlainAttrChar(s[k]))
    && (forall k :: r + 9 <= k < e - 1 ==> PlainAttrChar(s[k]))
  }

  lemma TitleTagLayout(s: string, x: string, y: string, rest: string)
    requires s == WikiTitleTag(x, y) + rest
    requires x != [] && forall k :: 0 <= k < |x| ==> PlainAttrChar(x[k])
    requires forall k :: 0 <= k < |y| ==> PlainAttrChar(y[k])
    ensures TitleTagAt(s, 15 + |x|, 25 + |x| + |y|)
    ensures s[15..15 + |x|] == x && s[24 + |x|..24 + |x| + |y|] == y && s[26 + |x| + |y|..] == rest
  {
    var a, b, c := "<a href=\"/wiki/", "\" title=\"", "\">";
    var u := a + x + b + y;
    assert s == u + c + rest;
    var r := 15 + |x|;
    assert s[..|u|] == u && s[|u|..|u| + 2] == c && s[|u| + 2..] == rest;
    assert u[..15] == a && u[15..r] == x && u[r..r + 9] == b && u[r + 9..] == y;
  }

  /** Of the quotes in that tag only the value's closing one follows `href=`. */
  lemma TitleTagHasOneHref(s: string, r: nat, e: nat)
    requires TitleTagAt(s, r, e)
    ensures StartsWith(s, "<a") && OccursAt(s, "href=\"/wiki/", 3) && 3 + 12 < r
    ensures s[r] == '"' && s[e] == '>'
    ensures forall k :: 2 <= k < e ==> s[k] != '>'
    ensures forall k :: 9 <= k < r ==> s[k] != '"'
    ensures forall k :: 3 < k && k + 6 <= e ==> !OccursAt(s, "href=\"", k)
  {
    assert forall k :: 0 <= k < 15 ==> s[k] == s[..15][k];
    assert forall k :: r <= k < r + 9 ==> s[k] == s[r..r + 9][k - r];
    assert s[e - 1] == s[e - 1..e + 1][0] && s[e] == s[e - 1..e + 1][1];
    assert s[..2] == "<a" && s[3..15] == "href=\"/wiki/";
    forall k | 3 < k && k + 6 <= e ensures !OccursAt(s, "href=\"", k) {
      if k + 5 == r || k + 5 == e - 1 {
        NotHrefAt(s, k, 4);
      } else if k + 5 == r + 8 {
        NotHrefAt(s, k, 0);
      } else {
        NotHrefAt(s, k, 5);
      }
    }
  }

  // ---------------------------------------------------------------------
  // Tag stripping: /<[^>]*>/g (plain text for word counts),
  // /<\/?span[^>]*>/g and /<[^>]+>/g (search snippets)
  // ---------------------------------------------------------------------

  /** If `<[^>]*>` (or `<[^>]+>` when `allowEmpty` is false) matches at the start of `s`, the index of its `>`. */
  function TagEnd(s: string, allowEmpty: bool): (r: Option<nat>)
    ensures r.Some? ==> s != [] && s[0] == '<' && 1 <= r.value < |s| && s[r.value] == '>'
    ensures r.Some? && !allowEmpty ==> r.value > 1
    ensures r.None? && s != [] && s[0] == '<' ==>
              (!allowEmpty && |s| > 1 && s[1] == '>') || forall k :: 1 <= k < |s| ==> s[k] != '>'
  {
    if s != [] && s[0] == '<' && FindChar(s, '>', 1) < |s| && (allowEmpty || FindChar(s, '>', 1) > 1)
    then Some(FindChar(s, '>', 1)) else None
  }

  /** `s.replace(/<[^>]*>/g, repl)` when `allowEmpty`, `s.replace(/<[^>]+>/g, repl)` otherwise. */
  function ReplaceTags(s: string, allowEmpty: bool, repl: string): string
    decreases |s|
  {
    if s == [] then []
    else match TagEnd(s, allowEmpty)
      case Some(g) => repl + ReplaceTags(s[g + 1..], allowEmpty, repl)
      case None => [s[0]] + ReplaceTags(s[1..], allowEmpty, repl)
  }

  /** No `<[^>]+>` match is left anywhere: a `<` sees a later `>` only right after it. */
  predicate TagFree(t: string) {
    forall i, j :: 0 <= i < j < |t| && t[i] == '<' && t[j] == '>' ==> t[i + 1] == '>'
  }

  lemma {:induction false} ReplaceTagsAddsNoClose(s: string, allowEmpty: bool)
    requires forall k :: 0 <= k < |s| ==> s[k] != '>'
    ensures ReplaceTags(s, allowEmpty, "") == s
    decreases |s|
  {
    if s != [] { ReplaceTagsAddsNoClose(s[1..], allowEmpty); }
  }

  lemma ReplaceTagsKeepsLeadingClose(s: string)
    requires s != [] && s[0] == '>'
    ensures ReplaceTags(s, false, "") == [s[0]] + ReplaceTags(s[1..], false, "")
  {}

  /** Removing `<[^>]+>` leaves no tag behind. */
  lemma {:induction false} StrippedIsTagFree(s: string)
    ensures TagFree(ReplaceTags(s, false, ""))
    decreases |s|
  {
    var out := ReplaceTags(s, false, "");
    if s != [] {
      match TagEnd(s, false)
      case Some(g) =>
        StrippedIsTagFree(s[g + 1..]);
        assert out == ReplaceTags(s[g + 1..], false, "");
      case None =>
        var rest := ReplaceTags(s[1..], false, "");
        StrippedIsTagFree(s[1..]);
        assert out == [s[0]] + rest;
        if s[0] == '<' {
          if |s| > 1 && s[1] == '>' {
            ReplaceTagsKeepsLeadingClose(s[1..]);
            assert rest[0] == '>';
          } else {
            ReplaceTagsAddsNoClose(s[1..], false);
            assert rest == s[1..];
          }
        }
        forall i, j | 0 <= i < j < |out| && out[i] == '<' && out[j] == '>'
          ensures out[i + 1] == '>'
        {
          if i > 0 { assert out[i] == rest[i - 1] && out[j] == rest[j - 1]; }
        }
    }
  }

  /** If `<\/?span[^>]*>` matches at the start of `s`, the index of its `>`. */
  function SpanTagEnd(s: string): (r: Option<nat>)
    ensures r.Some? ==> 5 <= r.value < |s|
  {
    match TagClose(s, "</span")
    case Some(g) => Some(g)
    case None => TagClose(s, "<span")
  }

  /** `s.replace(/<\/?span[^>]*>/g, '')`. */
  function StripSpans(s: string): string
    decreases |s|
  {
    if s == [] then []
    else match SpanTagEnd(s)
      case Some(g) => StripSpans(s[g + 1..])
      case None => [s[0]] + StripSpans(s[1..])
  }

  /** The snippet cleanup of the search surface: span tags first, then any tag. */
  function CleanSnippet(snippet: string): (r: string)
    ensures TagFree(r)
  {
    StrippedIsTagFree(StripSpans(snippet));
    ReplaceTags(StripSpans(snippet), false, "")
  }

  /** Text without `<` has no tag to strip. */
  lemma {:induction false} StripSpansPlain(s: string)
    requires forall k :: 0 <= k < |s| ==> s[k] != '<'
    ensures StripSpans(s) == s
    decreases |s|
  {
    if s != [] {
      assert SpanTagEnd(s).None? by {
        if |s| >= 5 { assert s[..5][0] == s[0]; }
        if |s| >= 6 { assert s[..6][0] == s[0]; }
      }
      StripSpansPlain(s[1..]);
    }
  }

  lemma {:induction false} ReplaceTagsPlain(s: string, allowEmpty: bool, repl: string)
    requires forall k :: 0 <= k < |s| ==> s[k] != '<'
    ensures ReplaceTags(s, allowEmpty, repl) == s
    decreases |s|
  {
    if s != [] { ReplaceTagsPlain(s[1..], allowEmpty, repl); }
  }

  /** A snippet without markup is its own description. */
  lemma PlainSnippetKept(snippet: string)
    requires forall k :: 0 <= k < |snippet| ==> snippet[k] != '<'
    ensures CleanSnippet(snippet) == snippet
  {
    StripSpansPlain(snippet);
    ReplaceTagsPlain(snippet, false, "");
  }

  // ---------------------------------------------------------------------
  // The full sanitiser
  // ---------------------------------------------------------------------

  /**
   * The removal passes of the sanitiser that rely on lazy `.*?` matching:
   * infobox, navigation, coordinate, edit-section, reference, citation
   * passes before the tag rewrites, and the table-of-contents and hatnote
   * passes after them. The model leaves them unspecified.
   */
  datatype RemovalPasses = RemovalPasses(before: string -> string, after: string -> string)

  /** `sanitizeArticleHtml`: the rewrites in the order the source applies them. */
  function Sanitize(html: string, passes: RemovalPasses): string {
    var cleaned := passes.before(html);
    var tables := RewriteTags(cleaned, NormaliseTable);
    var images := RewriteTags(tables, LazyImage);
    var external := RewriteLinks(images, External);
    var internal := RewriteLinks(external, Internal);
    passes.after(internal)
  }
}

/**
 * Category-link extraction `/<a[^>]*href="\/wiki\/Category:([^"]+)"[^>]*>([^<]+)<\/a>/g`,
 * applied with repeated `exec` calls from the pattern's `lastIndex`.
 */
module Categories {
  import opened Wrappers
  import opened Text

  const CategoryHref: string := "href=\"/wiki/Category:"
  const MaxCategories: nat := 5

  /** A match of the category pattern: where it starts, where its `href=` is, where it ends, and the link text. */
  datatype Match = Match(start: nat, href: nat, end: nat, text: string)

  /**
   * Whether the pattern matches from `href="/wiki/Category:` at `p` on:
   * the end of the match and the link text (the second group).
   */
  function CategoryLinkAt(s: string, p: nat): (m: Option<(nat, string)>)
    requires p <= |s|
    ensures m.Some? ==> p + 28 <= m.value.0 <= |s|
  {
    if !OccursAt(s, CategoryHref, p) then None
    else
      var r := FindChar(s, '"', p + 21);
      if r == |s| || r == p + 21 then None
      else
        var t := FindChar(s, '>', r + 1);
        if t == |s| then None
        else
          var u := FindChar(s, '<', t + 1);
          if u == t + 1 || !OccursAt(s, "</a>", u) then None
          else Some((u + 4, s[t + 1..u]))
  }

  /** The link text of a match is non-empty, free of `<`, and sits right before `</a>`. */
  lemma CategoryLinkText(s: string, p: nat)
    requires p <= |s| && CategoryLinkAt(s, p).Some?
    ensures var (end, text) := CategoryLinkAt(s, p).value;
            text != [] && p <= end - 4 - |text| && s[end - 4 - |text|..end - 4] == text
            && OccursAt(s, "</a>", end - 4) && forall k :: 0 <= k < |text| ==> text[k] != '<'
  {}

  /** Greedy `[^>]*` before `href=`: the largest `href` position at or below `p` from which the rest matches. */
  function LastCategoryLink(s: string, lo: nat, p: nat): (m: Option<(nat, nat, string)>)
    requires lo <= p <= |s|
    ensures m.Some? ==> lo <= m.value.0 <= p && CategoryLinkAt(s, m.value.0) == Some((m.value.1, m.value.2))
    decreases p - lo
  {
    match CategoryLinkAt(s, p)
    case Some(m) => Some((p, m.0, m.1))
    case None => if p == lo then None else LastCategoryLink(s, lo, p - 1)
  }

  /** The match of the pattern starting at index `i`, if any. */
  function CategoryMatchAt(s: string, i: nat): (m: Option<Match>)
    requires i <= |s|
    ensures m.Some? ==> m.value.start == i < m.value.href && m.value.href + 28 <= m.value.end <= |s|
    ensures m.Some? ==> CategoryLinkAt(s, m.value.href) == Some((m.value.end, m.value.text))
  {
    if !OccursAt(s, "<a", i) then None
    else match LastCategoryLink(s, i + 2, FindChar(s, '>', i + 2))
      case None => None
      case Some(l) => Some(Match(i, l.0, l.1, l.2))
  }

  /** One `exec` from `lastIndex = from`: the leftmost match at or after `from`. */
  function NextCategory(s: string, from: nat): (m: Option<Match>)
    requires from <= |s|
    ensures m.Some? ==> from <= m.value.start < m.value.end <= |s|
    decreases |s| - from
  {
    match CategoryMatchAt(s, from)
    case Some(m) => Some(m)
    case None => if from == |s| then None else NextCategory(s, from + 1)
  }

  /** All matches from `from` on, as the exec loop meets them. */
  function CategoryMatches(s: string, from: nat): seq<Match>
    requires from <= |s|
    decreases |s| - from
  {
    match NextCategory(s, from)
    case None => []
    case Some(m) => [m] + CategoryMatches(s, m.end)
  }

  /** The second group of each match. */
  function Texts(ms: seq<Match>): (r: seq<string>)
    ensures |r| == |ms|
  {
    if ms == [] then [] else [ms[0].text] + Texts(ms[1..])
  }

  lemma {:induction false} TextsAt(ms: seq<Match>, k: nat)
    requires k < |ms|
    ensures Texts(ms)[k] == ms[k].text
  {
    if k > 0 { TextsAt(ms[1..], k - 1); }
  }

  lemma {:induction false} TextsAppend(a: seq<Match>, b: seq<Match>)
    ensures Texts(a + b) == Texts(a) + Texts(b)
  {
    if a != [] {
      assert (a + b)[1..] == a[1..] + b;
      TextsAppend(a[1..], b);
    } else {
      assert a + b == b;
    }
  }

  /** One `exec` step: the texts from a match on are its text, then the texts after it. */
  lemma TextsStep(s: string, from: nat)
    requires from <= |s| && NextCategory(s, from).Some?
    ensures var m := NextCategory(s, from).value;
            Texts(CategoryMatches(s, from)) == [m.text] + Texts(CategoryMatches(s, m.end))
  {
    var m := NextCategory(s, from).value;
    assert CategoryMatches(s, from) == [m] + CategoryMatches(s, m.end);
    TextsAppend([m], CategoryMatches(s, m.end));
  }

  /** `extractCategories`: the link texts of the first five category links. */
  function CategoriesOf(html: string): (r: seq<string>) {
    var all := Texts(CategoryMatches(html, 0));
    if |all| <= MaxCategories then all else all[..MaxCategories]
  }

  /** The source's exec loop: collect every match's text, then keep the first five. */
  method ExtractCategories(html: string) returns (categories: seq<string>)
    ensures categories == CategoriesOf(html)
  {
    var found: seq<string> := [];
    var lastIndex := 0;
    var m := NextCategory(html, lastIndex);
    while m.Some?
      invariant lastIndex <= |html|
      invariant m == NextCategory(html, lastIndex)
      invariant found + Texts(CategoryMatches(html, lastIndex)) == Texts(CategoryMatches(html, 0))
      decreases |html| - lastIndex
    {
      var next := m.value.end;
      TextsStep(html, lastIndex);
      assert (found + [m.value.text]) + Texts(CategoryMatches(html, next))
             == found + ([m.value.text] + Texts(CategoryMatches(html, next)));
      found := found + [m.value.text];
      lastIndex := next;
      m := NextCategory(html, lastIndex);
    }
    assert found + [] == found;
    categories := if |found| <= MaxCategories then found else found[..MaxCategories];
  }

  /** Every match lies at or after `from` and inside the text, and ends after it starts. */
  predicate AllFrom(ms: seq<Match>, from: nat, n: nat) {
    forall k :: 0 <= k < |ms| ==> from <= ms[k].start < ms[k].end <= n
  }

  /** Each match ends before the next one begins. */
  predicate InOrder(ms: seq<Match>) {
    forall j, k :: 0 <= j < k < |ms| ==> ms[j].end <= ms[k].start
  }

  /** Every match is one the pattern makes at its start. */
  predicate Genuine(s: string, ms: seq<Match>) {
    forall k :: 0 <= k < |ms| ==> ms[k].start <= |s| && CategoryMatchAt(s, ms[k].start) == Some(ms[k])
  }

  /** Every match starts at or after where the search began, and ends inside the text. */
  lemma {:induction false} MatchesFrom(s: string, from: nat)
    requires from <= |s|
    ensures AllFrom(CategoryMatches(s, from), from, |s|)
    decreases |s| - from
  {
    match NextCategory(s, from)
    case None =>
    case Some(m) =>
      var rest := CategoryMatches(s, m.end);
      MatchesFrom(s, m.end);
      var ms := CategoryMatches(s, from);
      assert ms == [m] + rest;
      assert CategoryMatchAt(s, m.start) == Some(m) by { NextCategoryMatch(s, from); }
      forall k | 0 <= k < |ms| ensures from <= ms[k].start < ms[k].end <= |s| {
        if k > 0 { assert ms[k] == rest[k - 1]; }
      }
  }

  /** The match `NextCategory` reports is the one at its start. */
  lemma {:induction false} NextCategoryMatch(s: string, from: nat)
    requires from <= |s| && NextCategory(s, from).Some?
    ensures CategoryMatchAt(s, NextCategory(s, from).value.start) == NextCategory(s, from)
    decreases |s| - from
  {
    if CategoryMatchAt(s, from).None? {
      NextCategoryMatch(s, from + 1);
    }
  }

  /** No match starts at an index from `from` up to, not including, `to`. */
  predicate NoCategoryBetween(s: string, from: nat, to: nat) {
    forall k :: from <= k < to && k <= |s| ==> CategoryMatchAt(s, k).None?
  }

  lemma NoCategoryExtend(s: string, from: nat, to: nat)
    requires from <= |s| && CategoryMatchAt(s, from).None? && NoCategoryBetween(s, from + 1, to)
    ensures NoCategoryBetween(s, from, to)
  {}

  /**
   * `NextCategory` finds the leftmost match: none starts between `from` and
   * the one it reports, and none at all when it reports none.
   */
  lemma {:induction false} NextCategoryLeftmost(s: string, from: nat)
    requires from <= |s|
    ensures var m := NextCategory(s, from);
            NoCategoryBetween(s, from, if m.Some? then m.value.start else |s| + 1)
    decreases |s| - from
  {
    var m := NextCategory(s, from);
    var to := if m.Some? then m.value.start else |s| + 1;
    if CategoryMatchAt(s, from).None? {
      if from < |s| {
        assert m == NextCategory(s, from + 1);
        NextCategoryLeftmost(s, from + 1);
        NoCategoryExtend(s, from, to);
      }
    }
  }

  /** The matches are leftmost and do not overlap: each one ends before the next begins. */
  lemma {:induction false} MatchesInOrder(s: string, from: nat)
    requires from <= |s|
    ensures InOrder(CategoryMatches(s, from))
    decreases |s| - from
  {
    match NextCategory(s, from)
    case None =>
    case Some(m) =>
      var rest := CategoryMatches(s, m.end);
      var ms := CategoryMatches(s, from);
      assert ms == [m] + rest;
      MatchesInOrder(s, m.end);
      MatchesFrom(s, m.end);
      ConsInOrder(m, rest, |s|);
  }

  lemma ConsInOrder(m: Match, rest: seq<Match>, n: nat)
    requires InOrder(rest) && AllFrom(rest, m.end, n)
    ensures InOrder([m] + rest)
  {
    var ms := [m] + rest;
    forall j, k | 0 <= j < k < |ms| ensures ms[j].end <= ms[k].start {
      assert ms[k] == rest[k - 1];
      if j > 0 { assert ms[j] == rest[j - 1]; }
    }
  }

  /** Every listed match is one the pattern makes at its start. */
  lemma {:induction false} MatchesAreMatches(s: string, from: nat)
    requires from <= |s|
    ensures Genuine(s, CategoryMatches(s, from))
    decreases |s| - from
  {
    match NextCategory(s, from)
    case None =>
    case Some(m) =>
      var rest := CategoryMatches(s, m.end);
      MatchesAreMatches(s, m.end);
      NextCategoryMatch(s, from);
      var ms := CategoryMatches(s, from);
      assert ms == [m] + rest;
      forall k | 0 <= k < |ms| ensures ms[k].start <= |s| && CategoryMatchAt(s, ms[k].start) == Some(ms[k]) {
        if k > 0 { assert ms[k] == rest[k - 1]; }
      }
  }

  /**
   * At most five categories are kept, they are the first ones in document
   * order, and each is the non-empty text of a category link, free of `<`.
   */
  lemma CategoriesAreFirstLinkTexts(html: string)
    ensures var cats := CategoriesOf(html);
            var ms := CategoryMatches(html, 0);
            |cats| == (if |ms| < MaxCategories then |ms| else MaxCategories)
            && forall k :: 0 <= k < |cats| ==>
                cats[k] == ms[k].text && cats[k] != [] && forall j :: 0 <= j < |cats[k]| ==> cats[k][j] != '<'
  {
    var ms := CategoryMatches(html, 0);
    MatchesAreMatches(html, 0);
    forall k | 0 <= k < |ms| ensures Texts(ms)[k] == ms[k].text && ms[k].text != []
                                     && forall j :: 0 <= j < |ms[k].text| ==> ms[k].text[j] != '<' {
      TextsAt(ms, k);
      assert CategoryMatchAt(html, ms[k].start) == Some(ms[k]);
      CategoryLinkText(html, ms[k].href);
    }
  }

  /** Text without any anchor tag yields no category. */
  lemma NoAnchorNoCategories(html: string)
    requires forall i :: 0 <= i <= |html| ==> !OccursAt(html, "<a", i)
    ensures CategoriesOf(html) == []
  {
    NoMatchNoNext(html, 0);
  }

  lemma {:induction false} NoMatchNoNext(s: string, from: nat)
    requires from <= |s|
    requires forall i :: from <= i <= |s| ==> !OccursAt(s, "<a", i)
    ensures NextCategory(s, from).None?
    decreases |s| - from
  {
    assert CategoryMatchAt(s, from).None?;
    if from < |s| { NoMatchNoNext(s, from + 1); }
  }
}
