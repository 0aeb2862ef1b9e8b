# Wikipedia reader, notebooks and dot maps — a Dafny model

The application is a Next.js Wikipedia reader. A user searches for an article
and gets a result record with a summary, sanitised article HTML, categories,
related articles and a reading-time estimate. Lookups are served from a
one-day in-memory cache. The user can keep Markdown notebooks, stored per
user behind a session check, and draw "dot maps": diagrams of notes and
articles joined by arrows.

This project models the logic behind those features and proves what it
promises:

- `wikipedia.dfy`
  - module `Wikipedia`: the server-side article lookup (`fetchWikipediaData`)
    - its cache keyed by the normalised title;
    - the not-found and error records;
    - the related-article selection.
  - module `Trending`: the trending list.
  - module `Search`: the search suggestions.
- `markup.dfy`
  - module `Markup`: the HTML rewrites of the sanitiser and the tag stripping.
  - module `Categories`: the category extraction.
- `article_text.dfy`: word splitting, the reading time and the image name that locates a caption.
- `text.dfy`, `uri.dfy`: the JavaScript built-ins the code relies on, with their exact semantics:
  - `trim`, `\s`, `substring`, `toLowerCase` on ASCII, `String(n)`, UTF-16 length;
  - `encodeURIComponent` (UTF-8 percent-encoding);
  - `Buffer#toString('base64')`.
- `notebook_editor.dfy`: the Markdown toolbar of the notebook editor.
  - `formatText`, `isAtLineStart`, the `insertAtLineStart` loop and the initial content;
  - the editor state as a class.
- `notebook_store.dfy`: the notebook store functions.
  - The database is a map of rows plus, per kind of query, an optional fault.
  - Each call returns its response, the rows afterwards and the queries it made.
- `notebook_actions.dfy`: the authorised server actions as guard chains over the session, the input and the store.
- `dotmap.dfy`: the dot-map editor.
  - The nodes, the edges, the three modes, the selection, the dialogs and the form are fields of a class.
  - Each handler is a method.
- `maps_container.dfy`: the list of maps, the active map and the new-map dialog, saved to browser storage.
- `homespace.dfy`: the search workspace.
  - Search history, summary truncation, the reading-time label and the search route.
  - The URL splitting of `parseTextWithLinks`.
  - Adding an article to the default map.
- `wrappers.dfy`: `Option` and `Result`.

The model has no I/O and runs nothing in the background. The Wikipedia
endpoints, the database, the clock, the random source and browser storage
are all inputs: parameters or class fields.

## Model

| member | source | states |
|---|---|---|
| Text.Trim | src/app/actions/fetchWikipedia.ts:128 | `trim()` returns text that neither starts nor ends with white space and is no longer than its input |
| Text.TrimIgnoresSurroundingSpace | src/app/actions/fetchWikipedia.ts:128 | white space added before or after a text never changes its trim |
| Text.TrimIdempotent | src/app/actions/fetchWikipedia.ts:128 | trimming twice is trimming once |
| Text.TrimLower | src/app/actions/fetchWikipedia.ts:128-129 | ASCII lower-casing and trimming commute |
| Text.NatToString | src/app/actions/fetchWikipedia.ts:296-297 | `String(n)` is a non-empty string of decimal digits with no leading zero, of two digits for 10 to 99 |
| Text.Utf16Length | src/app/actions/fetchWikipedia.ts:342 | a string's JavaScript length lies between its number of characters and twice that |
| Uri.EncodeUriComponent | src/app/actions/fetchWikipedia.ts:128 | the output holds only unreserved characters and `%`; text made only of unreserved characters is returned unchanged |
| Uri.EncodeHidesAsciiCase | src/app/actions/fetchWikipedia.ts:128-129 | lower-casing the encoding of a text equals lower-casing the encoding of its ASCII-lower-cased form |
| Uri.Utf8 | src/app/actions/fetchWikipedia.ts:139 | the UTF-8 form of a text has between one and four bytes per character |
| Uri.Utf8Char | src/app/actions/fetchWikipedia.ts:139 | a character encodes to one to four bytes, and to a single byte exactly when it is ASCII |
| Uri.PercentEncode | src/app/actions/fetchWikipedia.ts:128 | each byte becomes three characters: `%` and two upper-case hexadecimal digits |
| Uri.Base64 | src/app/actions/fetchWikipedia.ts:139 | base64 gives four characters from the base64 alphabet per started group of three bytes |
| Wikipedia.ArticleId | src/app/actions/fetchWikipedia.ts:139 | an article id has at most twelve base64 characters, and at least four for a non-empty title |
| Wikipedia.CacheKeyIgnoresSurroundingSpace | src/app/actions/fetchWikipedia.ts:128-129 | titles that differ only in surrounding white space get the same cache key |
| Wikipedia.CacheKeyIgnoresAsciiCase | src/app/actions/fetchWikipedia.ts:128-129 | titles that differ only in the case of ASCII letters get the same cache key |
| Wikipedia.CacheKeyKeepsAccentedCase | src/app/actions/fetchWikipedia.ts:128-129 | lower-casing happens after encoding, so `É` and `é` get different keys (`%c3%89`, `%c3%a9`) |
| Wikipedia.FreshEntryIsReturned | src/app/actions/fetchWikipedia.ts:132-136 | an entry younger than a day is returned as stored, and the cache does not change |
| Wikipedia.StaleEntryIsRefetched | src/app/actions/fetchWikipedia.ts:133 | an entry a day old or older is bypassed, and the result is whatever a fresh fetch gives |
| Wikipedia.LookupTouchesOnlyItsKey | src/app/actions/fetchWikipedia.ts:132-270 | a lookup changes at most its own key's slot, and only to store its own result stamped with the current time; no entry is ever removed |
| Wikipedia.LookupOnHit | src/app/actions/fetchWikipedia.ts:132-136 | a lookup that is not a miss leaves the cache as it was |
| Wikipedia.LookupOnMiss | src/app/actions/fetchWikipedia.ts:138-272 | on a miss, exactly what the upstream steps decide is stored under the title's key |
| Wikipedia.RememberTouchesOnlyItsKey | src/app/actions/fetchWikipedia.ts:270 | storing a result changes only its key's slot |
| Wikipedia.StoredRecordIsServedForADay | src/app/actions/fetchWikipedia.ts:132-136 | for strictly less than a day, and whatever upstream answers, any title with the same key gets back a stored record |
| Wikipedia.EmptyTitleRejected | src/app/actions/fetchWikipedia.ts:124-126 | an empty title yields an error record whose summary says "Invalid search title"; nothing is fetched or stored |
| Wikipedia.NotFoundIsStored | src/app/actions/fetchWikipedia.ts:148-162 | a 404 yields the not-found record, which is cached under the same key and duration as a success. It has empty url, media and content, no related articles and reading time 0 |
| Wikipedia.ErrorRecordIs | src/app/actions/fetchWikipedia.ts:274-286 | the error record names the title and has no content, no related articles and no reading time |
| Wikipedia.IdIsNotAnErrorId | src/app/actions/fetchWikipedia.ts:282 | no article id can equal an error id `error-<time>` |
| Wikipedia.MissStoresNonErrors | src/app/actions/fetchWikipedia.ts:138-286 | after a miss, a record is stored exactly when it is not an error record. Stored records carry the article id; every failure becomes the error record |
| Wikipedia.PageMissStoresNonErrors | src/app/actions/fetchWikipedia.ts:170-286 | once the summary request has succeeded, a stored record carries the article id and an unstored one is the error record |
| Wikipedia.SuccessfulMiss | src/app/actions/fetchWikipedia.ts:254-270 | when all three requests succeed, the miss builds the success record from the summary, the body step and the related step, and stores it |
| Wikipedia.SuccessfulLookup | src/app/actions/fetchWikipedia.ts:248-270 | a successful miss stores the summary's title and extract, at most five categories and at most three related articles. The record has a language, and its reading time counts the words of the content with tags replaced by spaces |
| Wikipedia.SuccessRecordShape | src/app/actions/fetchWikipedia.ts:254-267 | each field of the success record comes from its step, the language is never empty, and the reading time counts the words of the content with tags replaced by spaces |
| Wikipedia.RelatedFor | src/app/actions/fetchWikipedia.ts:210-236 | a suggestion yields no entry exactly when it is the current article's title |
| Wikipedia.RelatedCandidates | src/app/actions/fetchWikipedia.ts:210 | only the first three suggestions are resolved, in order, each by its own position |
| Wikipedia.RelatedSummaryShape | src/app/actions/fetchWikipedia.ts:222 | a related summary is empty, or at most 150 characters followed by `...` |
| Wikipedia.RelatedSelection | src/app/actions/fetchWikipedia.ts:210-243 | at most three related articles, each made from one of the first three suggestions other than the current title; when no suggestion equals the title, all of the first three are kept |
| Wikipedia.CollectRelated | src/app/actions/fetchWikipedia.ts:241-243 | the push loop keeps exactly the resolved entries that are present, in order |
| Wikipedia.PresentFrom | src/app/actions/fetchWikipedia.ts:241-243 | each kept related article is one of the resolved entries |
| Wikipedia.BodyCategoriesBounded | src/app/actions/fetchWikipedia.ts:185-195 | the article-HTML step keeps at most five categories |
| Wikipedia.RelatedBounded | src/app/actions/fetchWikipedia.ts:204-245 | the suggestions step keeps at most three related articles |
| Wikipedia.FetchArticleBody | src/app/actions/fetchWikipedia.ts:178-196 | the HTML step computes the body the lookup specification uses: sanitised HTML, the categories of the raw HTML and the caption |
| Wikipedia.FetchRelatedArticles | src/app/actions/fetchWikipedia.ts:198-245 | the suggestions step computes the related list the lookup specification uses |
| Wikipedia.ArticleCache.constructor | src/app/actions/fetchWikipedia.ts:40 | the cache starts empty |
| Wikipedia.ArticleCache.FetchWikipediaData | src/app/actions/fetchWikipedia.ts:121-287 | the result and the new cache are those of the lookup specification, about which the lemmas above are proved |
| Wikipedia.ArticleCache.FetchMiss | src/app/actions/fetchWikipedia.ts:138-286 | the upstream part of the lookup computes the miss specification: the record and whether it is cached |
| Trending.Pad2 | src/app/actions/fetchWikipedia.ts:296-297 | `padStart(2, '0')` gives two characters below 100: a `'0'` before the single digit below 10, the number as it is from 10 on |
| Trending.SliceEnd | src/app/actions/fetchWikipedia.ts:316 | `slice(0, limit)` ends at the limit clamped to the list, a negative limit counting from the end |
| Trending.TrendingIsFeedPrefix | src/app/actions/fetchWikipedia.ts:308-331 | the trending list is the first `limit` most-read articles in feed order, with their titles, extracts, URLs and thumbnails and no related articles; any failure gives the empty list |
| Trending.TrendingRespectsLimit | src/app/actions/fetchWikipedia.ts:316 | a non-negative limit caps the list, and with enough articles it is met exactly |
| Trending.TrendingIdsDistinguishOrigin | src/app/actions/fetchWikipedia.ts:323 | an id from a page id is all digits, so it never equals a `trending-` id |
| Trending.FeaturedUrlExample | src/app/actions/fetchWikipedia.ts:294-300 | the feed URL writes the month and day with two digits |
| Search.ShortQueryIgnored | src/app/actions/fetchWikipedia.ts:342 | a query shorter than two UTF-16 units gets no suggestions and makes no request |
| Search.AstralCharIsLongEnough | src/app/actions/fetchWikipedia.ts:342 | one character above U+FFFF already has length 2, so it passes the guard |
| Search.SuggestionsFollowHits | src/app/actions/fetchWikipedia.ts:353-359 | each hit gives one suggestion, in order, with its title and a tag-free description; a snippet without markup is kept as it is |
| Search.FailedSearchGivesNothing | src/app/actions/fetchWikipedia.ts:348-364 | a failed request, a missing result list or a hit without a snippet gives no suggestions |
| Markup.TagClose | src/app/actions/fetchWikipedia.ts:61 | `open[^>]*>` matches at the start exactly up to the first `>` after the tag name |
| Markup.NormalisedTablesAreNormal | src/app/actions/fetchWikipedia.ts:61 | after the table rewrite, every table opening tag is exactly `<table class="wikipedia-table">` |
| Markup.NormalTablesFixed | src/app/actions/fetchWikipedia.ts:61 | text whose table tags are all normalised is left unchanged |
| Markup.NormaliseTablesIdempotent | src/app/actions/fetchWikipedia.ts:61 | normalising the tables twice is normalising them once |
| Markup.NormaliseOneTable | src/app/actions/fetchWikipedia.ts:61 | one `<table…>` tag becomes exactly the normalised tag, and the scan goes on after it |
| Markup.UnclosedTableKept | src/app/actions/fetchWikipedia.ts:61 | a `<table` without a later `>` is copied through unchanged |
| Markup.RewriteTagsNoClose | src/app/actions/fetchWikipedia.ts:61-63 | text without `>` holds no table or image tag to rewrite |
| Markup.RewriteTablesPrefix | src/app/actions/fetchWikipedia.ts:61 | the rewrite does not create a `<`-free prefix that the input lacks |
| Markup.HrefMatch | src/app/actions/fetchWikipedia.ts:65-69 | a match of `href="value"…>` starts with `href="`. The value ends at the first quote after it, the match ends at the first `>` after that quote, and the value is one the rule accepts |
| Markup.LastHref | src/app/actions/fetchWikipedia.ts:65-69 | the greedy `[^>]*` before `href=` settles on the last position that lets the rest match |
| Markup.LastHrefFinds | src/app/actions/fetchWikipedia.ts:65-69 | the search settles on the matching position above which nothing matches |
| Markup.AnchorMatch | src/app/actions/fetchWikipedia.ts:65-69 | an anchor match at the scan position has `href=` after `<a`, an accepted value and a closing `>` |
| Markup.RewriteLinksNoAnchor | src/app/actions/fetchWikipedia.ts:65-69 | text in which no `<a` starts is left unchanged by the link rewrites |
| Markup.AnchorAt | src/app/actions/fetchWikipedia.ts:65-69 | given where `href=`, the value's quote and the `>` are, the anchor pattern matches there |
| Markup.RewriteWikiLink | src/app/actions/fetchWikipedia.ts:68-69 | a tag `<a … href="/wiki/X" …>` with no second `href="` before its `>` is rewritten in place, and the scan continues after the tag. Other quoted attributes after the href are allowed |
| Markup.RewriteWikiLinkWithTitle | src/app/actions/fetchWikipedia.ts:68-69 | `<a href="/wiki/X" title="Y">` becomes `<a href="/search?query=X" title="Y" class="internal-link">`, for every X and Y without quotes, `=` or `>` |
| Markup.InternalAnchorText | src/app/actions/fetchWikipedia.ts:68-69 | the rewrite keeps the other attributes, turns the href into `/search?query=X` and adds the internal-link class |
| Markup.TagEnd | src/app/actions/fetchWikipedia.ts:358 | `<[^>]*>`, or `<[^>]+>`, matches at the start exactly up to the first `>`; the second needs something in between |
| Markup.ReplaceTagsAddsNoClose | src/app/actions/fetchWikipedia.ts:250 | text without `>` has no tag to replace |
| Markup.StrippedIsTagFree | src/app/actions/fetchWikipedia.ts:358 | removing `<[^>]+>` leaves no tag behind |
| Markup.SpanTagEnd | src/app/actions/fetchWikipedia.ts:358 | a span tag match covers at least `<span` and its `>` |
| Markup.CleanSnippet | src/app/actions/fetchWikipedia.ts:358 | the cleaned snippet contains no tag |
| Markup.StripSpansPlain | src/app/actions/fetchWikipedia.ts:358 | text without `<` has no span tag to strip |
| Markup.ReplaceTagsPlain | src/app/actions/fetchWikipedia.ts:358 | text without `<` has no tag to replace |
| Markup.PlainSnippetKept | src/app/actions/fetchWikipedia.ts:358 | a snippet without markup is its own description |
| Categories.CategoryLinkAt | src/app/actions/fetchWikipedia.ts:108 | a category-link match runs past `href="/wiki/Category:` |
| Categories.CategoryLinkText | src/app/actions/fetchWikipedia.ts:108 | the link text of a match is non-empty, contains no `<`, and sits right before `</a>` |
| Categories.LastCategoryLink | src/app/actions/fetchWikipedia.ts:108 | the greedy `[^>]*` settles on a position from which the rest of the pattern matches |
| Categories.CategoryMatchAt | src/app/actions/fetchWikipedia.ts:108 | a match that starts at an index has its `href` inside it and ends within the text |
| Categories.NextCategory | src/app/actions/fetchWikipedia.ts:111 | one `exec` finds a match starting at or after `lastIndex`, ending later |
| Categories.NextCategoryMatch | src/app/actions/fetchWikipedia.ts:111 | the match an `exec` reports is the pattern's match at that start |
| Categories.NextCategoryLeftmost | src/app/actions/fetchWikipedia.ts:111 | `exec` finds the leftmost match: none starts between `lastIndex` and the one reported, and none at all when it reports none |
| Categories.MatchesFrom | src/app/actions/fetchWikipedia.ts:111-113 | every match of the loop starts at or after where it began, and ends inside the text |
| Categories.MatchesInOrder | src/app/actions/fetchWikipedia.ts:111-113 | the loop's matches come in document order and do not overlap |
| Categories.MatchesAreMatches | src/app/actions/fetchWikipedia.ts:111-113 | every listed match is the pattern's match at its start |
| Categories.TextsStep | src/app/actions/fetchWikipedia.ts:111-112 | one iteration appends the match's second group, then the loop goes on from the end of the match |
| Categories.Texts | src/app/actions/fetchWikipedia.ts:112 | the texts are one per match |
| Categories.TextsAppend | src/app/actions/fetchWikipedia.ts:112 | texts of consecutive match lists concatenate |
| Categories.ExtractCategories | src/app/actions/fetchWikipedia.ts:106-116 | the exec loop followed by `slice(0, 5)` computes the first five category texts |
| Categories.CategoriesAreFirstLinkTexts | src/app/actions/fetchWikipedia.ts:106-116 | at most five categories are kept. They are the first matches in document order, and each is the non-empty, `<`-free text of a category link |
| Categories.NoAnchorNoCategories | src/app/actions/fetchWikipedia.ts:108-115 | HTML without an anchor tag has no categories |
| Categories.NoMatchNoNext | src/app/actions/fetchWikipedia.ts:111 | `exec` finds nothing when no `<a` is left |
| ArticleText.Split | src/app/actions/fetchWikipedia.ts:99 | `split(/\s+/)` always gives at least one piece |
| ArticleText.SplitPiecesHaveNoSpace | src/app/actions/fetchWikipedia.ts:99 | no piece of the split contains white space |
| ArticleText.SplitAfterWord | src/app/actions/fetchWikipedia.ts:99 | a space-free word is glued to the first piece of what follows it |
| ArticleText.SplitAtSpace | src/app/actions/fetchWikipedia.ts:99 | one space before a word starts a new piece |
| ArticleText.SplitJoin | src/app/actions/fetchWikipedia.ts:99 | splitting words joined by single spaces gives the words back |
| ArticleText.JoinStartsWithWord | src/app/actions/fetchWikipedia.ts:99 | words joined by single spaces start and end with a word character, so `trim` keeps them |
| ArticleText.CeilDiv | src/app/actions/fetchWikipedia.ts:100 | `Math.ceil(n / d)` is the least whole number of `d`-sized groups covering `n` |
| ArticleText.ReadingTimeOfWords | src/app/actions/fetchWikipedia.ts:97-101 | a text of `n` words separated by single spaces reads in `ceil(n / 250)` minutes: 500 words take 2, one word takes 1 |
| ArticleText.ReadingTimeZeroIffEmpty | src/app/actions/fetchWikipedia.ts:97-101 | only the empty text takes 0 minutes; text made only of white space counts as one piece |
| ArticleText.AfterLast | src/app/actions/fetchWikipedia.ts:85 | `split(c).pop()` is the suffix after the last `c`, or the whole text when there is no `c` |
| ArticleText.AfterLastIs | src/app/actions/fetchWikipedia.ts:85 | that suffix starts right after the last `c` |
| ArticleText.BeforeFirst | src/app/actions/fetchWikipedia.ts:85 | `split(c)[0]` is the prefix before the first `c`, or the whole text |
| ArticleText.ImageName | src/app/actions/fetchWikipedia.ts:85 | the image name contains no `/` and no `.` |
| ArticleText.ImageNameOfPath | src/app/actions/fetchWikipedia.ts:85 | the name of `dir/name.ext` is `name`, whatever the directory and the extension |
| ArticleText.ImageNameExample | src/app/actions/fetchWikipedia.ts:85 | for a thumbnail URL, the name is the last segment cut at its first dot |
| ArticleText.ExtractImageCaption | src/app/actions/fetchWikipedia.ts:81-91 | without a media URL, HTML or image name the caption is `''`; a found caption is trimmed; an invalid built pattern throws |
| NotebookEditor.LineStart | packages/components/Notebook.tsx:292-295 | the line start is the text start, or the position right after a newline, with no newline between it and the position |
| NotebookEditor.LineStartUnique | packages/components/Notebook.tsx:292-295 | each position has exactly one line start |
| NotebookEditor.AtLineStartIffOwnLine | packages/components/Notebook.tsx:285-288 | `isAtLineStart` holds exactly when the position is its own line start: position 0 or just after a `\n` |
| NotebookEditor.InsertAtLineStart | packages/components/Notebook.tsx:290-298 | the backward loop inserts at the line start, so the result is prefix + insertText + rest and its length grows by exactly the insert's length |
| NotebookEditor.WrapKeepsSelection | packages/components/Notebook.tsx:200-227 | bold, italic, code and code block put their markers around the selection and leave the text on either side unchanged. The selection shifts by the opening marker's length and still covers the same text |
| NotebookEditor.LineMarkerAtLineStart | packages/components/Notebook.tsx:172-254 | at a line start, headings, quote and lists insert their marker there. The selection shifts by the marker's length and covers the same text |
| NotebookEditor.LineMarkerInsideLine | packages/components/Notebook.tsx:172-254 | inside a line they insert a newline and the marker before the selection, and the selection shifts by the marker's length plus one |
| NotebookEditor.TemplateSelectsUrl | packages/components/Notebook.tsx:255-278 | after a link or image template the selection lies exactly on `url`, with or without a selection (corrected offsets) |
| NotebookEditor.TemplateKeepsSelectedText | packages/components/Notebook.tsx:255-278 | with a selection of length L, the template keeps it as the link text and selects `url`: from start+L+3 to start+L+6 for a link, from start+L+4 to start+L+7 for an image |
| NotebookEditor.Formatted | packages/components/Notebook.tsx:161-282 | the intended `formatText` edit, with a link or image selection placed on `url`; its contract is stated by the lemmas above and `UnknownFormatChangesNothing` |
| NotebookEditor.FormattedAsWritten | packages/components/Notebook.tsx:161-282 | `formatText` as written, with a link or image selection at start + L + 3 (link) or start + L + 4 (image), where L is the selected text's length; its contract is stated by the two lemmas below |
| NotebookEditor.AsWrittenLinkMissesUrl | packages/components/Notebook.tsx:262-265 | as written, a link inserted with an empty selection leaves `nk ` selected instead of `url` |
| NotebookEditor.AsWrittenAgreesWithSelection | packages/components/Notebook.tsx:255-278 | as written and corrected agree whenever something is selected |
| NotebookEditor.UnknownFormatChangesNothing | packages/components/Notebook.tsx:279-281 | every format name outside the switch's cases leaves the text and the selection unchanged, both as written and corrected |
| NotebookEditor.InitialContent | packages/components/Notebook.tsx:41-52 | given content is used as it is. Otherwise the content is the whole template: a heading with the name or "Untitled Notebook", the description or "No description provided.", then the Notes section and its placeholder line |
| NotebookEditor.Editor.constructor | packages/components/Notebook.tsx:41-56 | the editor starts with the initial content and an empty selection at 0 |
| NotebookEditor.Editor.Select | packages/components/Notebook.tsx:137-144 | selecting records the textarea selection and keeps the content |
| NotebookEditor.Editor.FormatText | packages/components/Notebook.tsx:147-282 | with a textarea, the content and selection become the as-written edit `FormattedAsWritten`, including its offsets for link and image templates; without one nothing changes |
| NotebookStore.CreateDefaults | src/app/actions/saveNotebook.ts:9-28 | a created notebook has the given title, empty content and a description defaulting to `""`; it belongs to the user and its id is returned. A failed insert changes nothing |
| NotebookStore.TitleFallback | src/app/actions/saveNotebook.ts:52 | the supplied title wins, then the existing one, then `""` |
| NotebookStore.OptionalFieldsFallback | src/app/actions/saveNotebook.ts:46-61 | for description and content, any supplied value but `undefined` wins, even `null`; otherwise the existing value, otherwise `null`. `updatedAt` is always the current time |
| NotebookStore.PayloadHasNoUndefined | src/app/actions/saveNotebook.ts:41-67 | no merged field is `undefined`, so the filter keeps all four entries |
| NotebookStore.Defined | src/app/actions/saveNotebook.ts:65-67 | the filter keeps only entries of the payload that are not `undefined` |
| NotebookStore.DefinedKeepsDefined | src/app/actions/saveNotebook.ts:65-67 | filtering a list with no `undefined` entry changes nothing |
| NotebookStore.UpdateMissingIsNotFound | src/app/actions/saveNotebook.ts:33-37 | updating a missing notebook reports "Notebook not found" after one lookup, and writes nothing |
| NotebookStore.UpdateWritesMerge | src/app/actions/saveNotebook.ts:31-82 | an update succeeds exactly when the lookup and the write succeed on an existing row. It writes the merged fields into that row alone; a failure changes nothing |
| NotebookActions.NoSessionNoCalls | src/app/actions/notebookActions.ts:27-211 | without a signed-in user, every action fails with its own message before any store call |
| NotebookActions.EmptyIdNoCalls | src/app/actions/notebookActions.ts:77-79 | with a signed-in user, an empty id makes update fail with its own "Notebook ID is required…" message, as do content update (lines 125-127) and view (lines 192-194), with no store call and no change |
| NotebookActions.MissingNotebookNotFound | src/app/actions/notebookActions.ts:84-87 | an id that is not stored makes both updates fail with "Notebook not found." after one lookup, with nothing changed |
| NotebookActions.BlankTitleRejected | src/app/actions/notebookActions.ts:39-41 | an empty or blank title is refused before the store is called; any other title reaches the insert |
| NotebookActions.CreatedForSignedInUser | src/app/actions/notebookActions.ts:27-58 | a created notebook belongs to the signed-in user, has a non-blank title and empty content, and its id is returned |
| NotebookActions.CheckOwnerCases | src/app/actions/notebookActions.ts:84-91 | the ownership check lets through exactly the owner of an existing notebook, after one lookup, and changes nothing |
| NotebookActions.UpdateOnlyByOwner | src/app/actions/notebookActions.ts:65-106 | the store is written, or success reported, only for a non-empty id naming an existing notebook of the signed-in user. Rows change only on success |
| NotebookActions.UpdateByOwnerStoresMerge | src/app/actions/notebookActions.ts:84-98 | with all checks passed, the update stores exactly the merged fields, after the session, id, existence and ownership checks. The lemmas above and below show each check refusing in that order: `NoSessionNoCalls`, `EmptyIdNoCalls`, `MissingNotebookNotFound`, `UpdateOfOthersNotebookRefused` |
| NotebookActions.UpdateOfOthersNotebookRefused | src/app/actions/notebookActions.ts:84-91 | another user's notebook is refused after one lookup by update, content update and view, and nothing changes |
| NotebookActions.ContentMustBePresent | src/app/actions/notebookActions.ts:125-147 | `null` or `undefined` content is refused before any lookup; the empty string is stored for the owner |
| NotebookActions.ViewOnlyByOwner | src/app/actions/notebookActions.ts:184-210 | a notebook is returned exactly to its owner, nothing is written, and a missing one is reported as not found |
| NotebookActions.ListIsOwnNotebooks | src/app/actions/notebookActions.ts:162-180 | the list holds exactly the signed-in user's notebooks |
| DotMap.WithoutNodeMembers | packages/components/dotmaps/dotmap.tsx:108 | after the node filter, the nodes are exactly the old ones with another id |
| DotMap.WithoutIncidentMembers | packages/components/dotmaps/dotmap.tsx:109 | after the edge filter, the edges are exactly the old ones touching neither end of the deleted node |
| DotMap.HasNodeWithout | packages/components/dotmaps/dotmap.tsx:108 | removing a node keeps every other id |
| DotMap.WithoutIncidentUnique | packages/components/dotmaps/dotmap.tsx:109 | removing edges never creates a duplicate connection |
| DotMap.DeleteCascades | packages/components/dotmaps/dotmap.tsx:107-109 | deleting a node removes it and every incident edge, and keeps everything else. Edges still join nodes of the map, without duplicates |
| DotMap.AddEdgeConnects | packages/components/dotmaps/dotmap.tsx:116-127 | `addEdge` appends the edge exactly when both ends are given and not yet connected, and otherwise changes nothing. The two ends are connected afterwards, and no connection is duplicated |
| DotMap.AddEdgeKeepsEndpoints | packages/components/dotmaps/dotmap.tsx:110-127 | an edge between two nodes of the map keeps every edge joining nodes |
| DotMap.UpdatedNodes | packages/components/dotmaps/dotmap.tsx:192-209 | the map keeps the count, and exactly the nodes with the selected id get the new data |
| DotMap.UpdateChangesOnlySelected | packages/components/dotmaps/dotmap.tsx:189-212 | `updateNode` changes only the data of the node with the selected id; the count, ids, positions and every other node stay |
| DotMap.ToggleLeavesOneMode | packages/components/dotmaps/dotmap.tsx:215-234 | after any toggle at most one mode is on: the toggled one flips and the other two are off |
| DotMap.ToggleTwice | packages/components/dotmaps/dotmap.tsx:215-234 | pressing a toggle twice restores its mode and leaves the others off |
| DotMap.Editor.constructor | packages/components/dotmaps/dotmap.tsx:64-78 | the editor starts with no nodes, no edges, no mode, no selection, closed dialogs and an empty note form |
| DotMap.Editor.SelectNode | packages/components/dotmaps/dotmap.tsx:237-243 | selecting a node fills the form with its title, content and type, the type defaulting to `note` |
| DotMap.Editor.NodeClick | packages/components/dotmaps/dotmap.tsx:106-135 | delete mode removes the node and its edges. In connect mode the first click selects a source, and a click on a different node adds the edge `e{src}-{tgt}` and clears the selection. A click on the same node changes nothing. Otherwise the node's details open. Selecting a node, in regular mode or as a connect source, fills the form with its data, the type defaulting to `note`. A delete click and a second connect click leave the form as it was, and connect mode never opens or closes the details |
| DotMap.Editor.PaneClick | packages/components/dotmaps/dotmap.tsx:138-158 | in add mode a background click opens an empty note dialog at that point; in connect mode it cancels the selection |
| DotMap.Editor.EditForm | packages/components/dotmaps/dotmap.tsx:76-78 | the form inputs change only the form |
| DotMap.Editor.CreateNode | packages/components/dotmaps/dotmap.tsx:167-186 | without a stored position nothing changes. Otherwise exactly one node is appended at that position, its title defaulting to "Untitled", and add mode is left |
| DotMap.Editor.UpdateNode | packages/components/dotmaps/dotmap.tsx:189-212 | the nodes with the selected id take the form's data and the details close; edges, modes, the selection and the form itself stay |
| DotMap.Editor.ToggleMode | packages/components/dotmaps/dotmap.tsx:215-234 | a toggle flips its mode, turns the others off and clears the selection |
| MapsContainer.InitialMaps | packages/components/dotmaps/dot-maps-container.tsx:27-34 | the list is the saved one in a browser with a saved list, else `["default"]` |
| MapsContainer.FirstMap | packages/components/dotmaps/dot-maps-container.tsx:36 | the active map is the first entry of the list |
| MapsContainer.NothingSavedStartsWithDefault | packages/components/dotmaps/dot-maps-container.tsx:27-36 | with nothing saved, the default map is active |
| MapsContainer.Container.constructor | packages/components/dotmaps/dot-maps-container.tsx:27-39 | the container starts with the initial list, its first map active, an empty name and closed dialogs |
| MapsContainer.Container.SetNewMapName | packages/components/dotmaps/dot-maps-container.tsx:37 | typing a name changes only the name |
| MapsContainer.Container.SetCreateDialogOpen | packages/components/dotmaps/dot-maps-container.tsx:38 | opening or closing the dialog changes only the dialog |
| MapsContainer.Container.CreateNewMap | packages/components/dotmaps/dot-maps-container.tsx:42-53 | a blank name does nothing. Any other name is appended, made active and cleared from the input, and the saved list equals the new list. The new list is `AfterCreate` of the old one, which the lemmas below characterise |
| MapsContainer.Container.ToggleFullscreen | packages/components/dotmaps/dot-maps-container.tsx:56-58 | fullscreen flips and nothing else changes |
| MapsContainer.AfterCreateGrows | packages/components/dotmaps/dot-maps-container.tsx:43-45 | a non-blank name grows the list by exactly one at the end, with no duplicate check |
| MapsContainer.SameNameTwice | packages/components/dotmaps/dot-maps-container.tsx:45 | creating the same name twice lists it twice |
| Homespace.HistoryUpdate | src/workspaces/Homespace.tsx:61-67 | the history changes exactly for a new, non-empty title. The title then comes first, followed by the newest old entries, five at most |
| Homespace.HistoryStaysDistinct | src/workspaces/Homespace.tsx:62-63 | a duplicate-free history stays duplicate-free and at most five long |
| Homespace.HistorySettles | src/workspaces/Homespace.tsx:61-67 | once the title is recorded, running the effect again changes nothing |
| Homespace.MountedHistory | src/workspaces/Homespace.tsx:53-67 | the history after the first commit as written: the history effect's update, computed from the empty initial list, wins over the load. Its contract is stated by `MountDropsSavedHistory` |
| Homespace.MountDropsSavedHistory | src/workspaces/Homespace.tsx:53-67 | as written, a page opened with a non-empty `search` title ends its first commit with that single title, whatever history was saved; without a title the saved history is loaded |
| Homespace.IntendedMountedHistory | src/workspaces/Homespace.tsx:53-67 | the intended history after the first commit: the title recorded in front of the saved list. Its contract is stated by `IntendedMountKeepsSavedHistory` |
| Homespace.IntendedMountKeepsSavedHistory | src/workspaces/Homespace.tsx:53-67 | as intended, a new title goes in front of the newest saved entries, at most five in all. A known or empty title leaves the saved list as it was, and a duplicate-free list stays duplicate-free |
| Homespace.MountDropsSavedEntry | src/workspaces/Homespace.tsx:53-67 | for saved `["Ada Lovelace"]` and title `Alan Turing` the first commit gives `["Alan Turing"]` as written and `["Alan Turing", "Ada Lovelace"]` as intended |
| Homespace.TruncatedSummaryShape | src/workspaces/Homespace.tsx:182-188 | a summary over 200 characters keeps its first 200 and gains `...` (203 in all); a shorter one is unchanged; a missing one gives `""` |
| Homespace.ReadingTimeLabelCases | src/workspaces/Homespace.tsx:176-179 | "< 1 min read" appears exactly for a missing or zero time; otherwise the label is the number's decimal digits followed by " min read" |
| Homespace.OnSearchRoute | src/workspaces/Homespace.tsx:100-106 | a blank query is ignored. Any other query becomes a single search parameter that no `&`, `#`, `=` or space can cut short |
| Homespace.UriCharsAreNoSeparators | src/workspaces/Homespace.tsx:103 | encoded text contains no query separator |
| Homespace.FindSpace | src/workspaces/Homespace.tsx:135 | `[^\s]+` runs to the first white space or the end |
| Homespace.NextUrl | src/workspaces/Homespace.tsx:135-136 | the split finds the leftmost `https?://` match |
| Homespace.SplitLinks | src/workspaces/Homespace.tsx:136 | a split gives at least one part |
| Homespace.UrlRun | src/workspaces/Homespace.tsx:135 | a match runs from the scheme to the next white space, over more than the scheme |
| Homespace.SchemeRun | src/workspaces/Homespace.tsx:135 | past the scheme and one more character, the match runs on to the next white space |
| Homespace.SplitLinksStep | src/workspaces/Homespace.tsx:136-137 | the split and the match list both advance past the leftmost match |
| Homespace.SplitLinksLast | src/workspaces/Homespace.tsx:136-137 | with no match left, the rest is one plain part and there are no more matches |
| Homespace.SplitLinksConcat | src/workspaces/Homespace.tsx:136 | concatenating the parts gives back the text |
| Homespace.SplitLinksAlternate | src/workspaces/Homespace.tsx:136-137 | the parts alternate: plain text at even places, the matches in order at odd places |
| Homespace.MatchesAreUrls | src/workspaces/Homespace.tsx:137 | every match is a scheme followed by non-space characters |
| Homespace.SliceHasNoUrl | src/workspaces/Homespace.tsx:136 | a stretch in which no match starts contains no URL |
| Homespace.PlainPartsHaveNoUrl | src/workspaces/Homespace.tsx:136 | the plain parts contain no URL |
| Homespace.Classify | src/workspaces/Homespace.tsx:139-152 | each part is rendered once, in order |
| Homespace.ClassifyAlternating | src/workspaces/Homespace.tsx:139-152 | with the matches at odd places only, the links are exactly the odd parts |
| Homespace.LinksAreExactlyUrls | src/workspaces/Homespace.tsx:132-154 | the parts spell out the text, the links are exactly the `https?://` runs, and no plain part contains one |
| Homespace.ArticleNodeShape | src/workspaces/Homespace.tsx:204-213 | the new node is an article node with the result's title. Its content is a prefix of the summary, at most 100 characters, followed by `...` |
| Homespace.Workspace.constructor | src/workspaces/Homespace.tsx:43-50 | the workspace starts with an empty history, the stored entries as given and no dialog |
| Homespace.Workspace.Mount | src/workspaces/Homespace.tsx:53-67 | the first commit as written: both effects read the same render's history. A new title's update, and its saved list, win over the load; otherwise the saved history is loaded. From the empty initial history the result is `MountedHistory` |
| Homespace.Workspace.LoadHistory | src/workspaces/Homespace.tsx:53-58 | the load effect on its own: a saved history replaces the one in memory |
| Homespace.Workspace.RecordSearch | src/workspaces/Homespace.tsx:61-67 | the history effect on its own, in a later commit (a new `search` title): it updates the list, and the saved list, exactly as the update function says |
| Homespace.Workspace.AddToDotMap | src/workspaces/Homespace.tsx:191-223 | without a result nothing happens. Otherwise exactly one article node is appended to the saved default map, or to an empty one, and the confirmation opens |

## Left out

- Transport:
  - network fetches are inputs: the `Upstream` functions, the search endpoint and the trending feed;
  - the concurrent related-article requests and `Promise.all` are modelled as a sequential map over the suggestions;
  - request abort in the workspace is not modelled.
- The sanitiser's removal passes (lines 48-59 and 71-73 of `fetchWikipedia.ts`) are parameters with no stated behaviour. They are the `.*?` / `s`-flag rewrites, whose lazy-matching semantics are not modelled. The table, image, external-link and internal-link rewrites are modelled exactly.
- ArticleText.ExtractImageCaption: the figcaption regex is built at run time from the image name and matched case-insensitively. Its result is an input, so the contract states only the guards and the trimming.
- String lengths and offsets:
  - strings are sequences of Unicode scalar values, while JavaScript counts UTF-16 code units;
  - only the `searchWikipedia` length guard uses UTF-16 length (`Utf16Length`);
  - elsewhere a character above U+FFFF counts as one.
- Homespace.TruncatedSummaryShape, Wikipedia.RelatedSummaryShape, Homespace.ArticleNodeShape: the 200-, 150- and 100-character limits count code points, not UTF-16 units. Text made only of BMP characters is therefore not affected.
- NotebookEditor.Formatted: selection offsets count code points, not UTF-16 units.
- NotebookEditor.Editor.FormatText: the `selection` field stands for two things. One is the textarea's own selection, which `updateContent` sets in a `setTimeout` callback (Notebook.tsx:150-158). The other is the `selection` state, which `onSelect` refreshes from it (Notebook.tsx:649). The model writes the new selection at once and does not model the delay or the focus change.
- The `typeof searchTitle !== 'string'` guard is not modelled because a title is always a string here.
- The clock:
  - `Date.now()` is one `now` parameter per call;
  - the source reads the clock separately for the error id and each timestamp, which is indistinguishable within one call.
- `Math.random`:
  - in `handleAddToDotMap`, the random values are the parameters `rx` and `ry`;
  - in the trending list, the random id suffix is a parameter.
- Upstream response fields:
  - a missing `data[3][index]` suggestion URL is modelled as `""`;
  - a summary body that is not JSON is folded into the unreachable-request failure;
  - a missing `extract` or `lang` is the empty string, which the source treats the same way (`||`).
- reactflow's `addEdge` is not visible here. It is modelled as version 11 behaves: an edge without both ends, or between two nodes already connected, is refused; otherwise it is appended.
- `onConnect`, the drag-to-connect handler of reactflow, is not modelled: it goes through the library's own connection events.
- `onNodesChange` and `onEdgesChange` (dotmap.tsx:250-251) are reactflow's own change handlers: dragging, selecting, and deleting with Backspace. They are not modelled, because their behaviour is inside the library.
- DotMap.Editor.NodeClick: the form is filled on every node selection. The source's effect (dotmap.tsx:237-243) runs only when the selected node object changes, so clicking the node that is already selected keeps any unsaved form edits there.
- Browser storage:
  - `localStorage` entries are class fields;
  - JSON parse errors are not modelled;
  - an empty stored string is treated as no entry;
  - the dot-map save effect and the map-loading effect of `dotmap.tsx` are not modelled.
- Not modelled in the workspace and the editor:
  - `handleSubmitNotebook`, `handleReadFullArticle`, `handleBookmark` and `handleOpenDotMaps` of the workspace are event wiring with no logic of their own;
  - the notebook editor's save, preview and slash-command handlers are not part of this model.
- The actions' `try`/`catch` around the store calls is not modelled: the modelled store functions report every fault as a failure value, so nothing reaches the outer handler. `revalidatePath` and logging are left out.
- `deleteNotebook` is modelled in the store, but no action uses it.
- The store's `getNotebook` and `getUserNotebooks` read rows without side effects; the drizzle query builder itself is not visible.
- The update payload is a record rather than an object built field by field. The `Object.entries` filter is modelled by `Defined`.
- The JSX rendering of every component, the tests, the reading-progress script and the configuration files are not part of this model.

## Findings

| source | as written | input that shows it | evidently intended | confidence | as-written member | corrected member |
|---|---|---|---|---|---|---|
| packages/components/Notebook.tsx:262-265 | the link template's new selection is offset by `selectedText.length`, which is 0 when nothing is selected, while the placeholder `Link text` is inserted instead (the image case at 274-277 is the same) | text `""`, selection 0 to 0, format `link`: the text becomes `[Link text](url)` and the selection covers `nk `, indices 3 to 6 | the selection lands on `url`, as it does whenever something is selected | not executed; high — the offsets ignore the placeholder's length | NotebookEditor.AsWrittenLinkMissesUrl | NotebookEditor.TemplateSelectsUrl |
| src/workspaces/Homespace.tsx:53-67 | two effects run in the first commit. The load effect sets the saved history, but the history effect's closure still reads the initial `[]` and sets `[title]`, and that later update wins. `[title]` is then written over the saved entry | saved history `["Ada Lovelace"]`, page opened with `?search=Alan Turing`: the history and the saved entry become `["Alan Turing"]` | `["Alan Turing", "Ada Lovelace"]`: the title in front of the saved history | not executed; medium — read from React's effect and state-update order | Homespace.MountDropsSavedHistory | Homespace.IntendedMountKeepsSavedHistory |
