/**
 * The Markdown toolbar of the notebook editor: each format either wraps
 * the selection in markers, puts a block marker at the start of the line,
 * or inserts a link or image template, and moves the selection with it.
 *
 * Offsets are indices into the sequence of characters.
 */
module NotebookEditor {
  import opened Text

  /** The textarea selection, `start` to `end`. */
  datatype Selection = Selection(start: nat, end: nat)

  /** The text after a format, and where the selection goes. */
  datatype Edit = Edit(text: string, selection: Selection)

  datatype Format =
    | H1 | H2 | H3 | Quote | BulletList | NumberedList
    | Bold | Italic | Code | CodeBlock
    | Link | Image
    | Unknown

  /** The toolbar's format names. */
  function ParseFormat(name: string): Format {
    if name == "h1" then H1 else if name == "h2" then H2 else if name == "h3" then H3
    else if name == "quote" then Quote else if name == "ul" then BulletList else if name == "ol" then NumberedList
    else if name == "bold" then Bold else if name == "italic" then Italic else if name == "code" then Code
    else if name == "codeblock" then CodeBlock else if name == "link" then Link else if name == "image" then Image
    else Unknown
  }

  predicate IsLineFormat(f: Format) {
    f.H1? || f.H2? || f.H3? || f.Quote? || f.BulletList? || f.NumberedList?
  }

  /** The marker a line format puts at the start of a line. */
  function LineMarker(f: Format): string
    requires IsLineFormat(f)
  {
    match f
    case H1 => "# "
    case H2 => "## "
    case H3 => "### "
    case Quote => "> "
    case BulletList => "- "
    case NumberedList => "1. "
  }

  predicate IsWrapFormat(f: Format) {
    f.Bold? || f.Italic? || f.Code? || f.CodeBlock?
  }

  /** The opening and closing markers a wrap format puts around the selection. */
  function WrapMarkers(f: Format): (m: (string, string))
    requires IsWrapFormat(f)
  {
    match f
    case Bold => ("**", "**")
    case Italic => ("*", "*")
    case Code => ("`", "`")
    case CodeBlock => ("```\n", "\n```")
  }

  /** `text.charAt(i) === "\n"`; `charAt` past the end gives the empty string. */
  predicate NewlineAt(text: string, i: nat) {
    i < |text| && text[i] == '\n'
  }

  /** `isAtLineStart`. */
  predicate IsAtLineStart(text: string, position: nat) {
    position == 0 || NewlineAt(text, position - 1)
  }

  /** `l` starts the line that holds `position`: a text start or a newline before it, none in between. */
  predicate IsLineStartOf(text: string, position: nat, l: nat) {
    l <= position && l <= |text| && (l == 0 || text[l - 1] == '\n')
    && forall k :: l <= k < position ==> !NewlineAt(text, k)
  }

  /** The start of the line holding `position`. */
  function LineStart(text: string, position: nat): (l: nat)
    ensures IsLineStartOf(text, position, l)
    decreases position
  {
    if position == 0 || NewlineAt(text, position - 1) then position
    else LineStart(text, position - 1)
  }

  /** There is one line start for each position. */
  lemma LineStartUnique(text: string, position: nat, l1: nat, l2: nat)
    requires IsLineStartOf(text, position, l1) && IsLineStartOf(text, position, l2)
    ensures l1 == l2
  {
    assert l1 > 0 ==> NewlineAt(text, l1 - 1);
    assert l2 > 0 ==> NewlineAt(text, l2 - 1);
  }

  /** A position inside the text is at a line start exactly when its line starts there. */
  lemma AtLineStartIffOwnLine(text: string, position: nat)
    requires position <= |text|
    ensures IsAtLineStart(text, position) <==> LineStart(text, position) == position
  {
    if IsAtLineStart(text, position) {
      LineStartUnique(text, position, position, LineStart(text, position));
    }
  }

  /** `insertAtLineStart`: walk back to the line start, insert there. */
  method InsertAtLineStart(text: string, position: nat, insertText: string) returns (r: string)
    ensures var l := LineStart(text, position); r == text[..l] + insertText + text[l..]
    ensures |r| == |text| + |insertText|
  {
    var lineStart: nat := position;
    while lineStart > 0 && !NewlineAt(text, lineStart - 1)
      invariant lineStart <= position
      invariant forall k :: lineStart <= k < position ==> !NewlineAt(text, k)
    {
      lineStart := lineStart - 1;
    }
    LineStartUnique(text, position, lineStart, LineStart(text, position));
    r := Substring(text, 0, lineStart) + insertText + Substring(text, lineStart, |text|);
  }

  function Shifted(s: Selection, d: nat): Selection {
    Selection(s.start + d, s.end + d)
  }

  /**
   * The link or image template: `[linkText](url)` after `opener`, and the
   * selection `anchor` characters past the opener and the linkText's `](`,
   * three characters long.
   */
  function MediaLink(before: string, after: string, start: nat, opener: string, linkText: string, anchor: nat): Edit {
    Edit(before + opener + linkText + "](url)" + after,
         Selection(start + |opener| + anchor + 2, start + |opener| + anchor + 5))
  }

  /** The template linkText: the selection, or a placeholder when nothing is selected. */
  function Label(selected: string, f: Format): string
    requires f.Link? || f.Image?
  {
    if selected != [] then selected else if f.Link? then "Link text" else "Image alt text"
  }

  function Opener(f: Format): string
    requires f.Link? || f.Image?
  {
    if f.Link? then "[" else "!["
  }

  /**
   * `formatText` with the selection placed on `url` after a link or image
   * template; the source places it by the length of the selection, which
   * misses `url` when nothing is selected (see `FormattedAsWritten`).
   */
  function Formatted(text: string, sel: Selection, f: Format): Edit {
    var before := Substring(text, 0, sel.start);
    var selected := Substring(text, sel.start, sel.end);
    var after := Substring(text, sel.end, |text|);
    if IsLineFormat(f) then
      var m := LineMarker(f);
      if IsAtLineStart(text, sel.start) then
        var l := LineStart(text, sel.start);
        Edit(text[..l] + m + text[l..], Shifted(sel, |m|))
      else Edit(before + "\n" + m + selected + after, Shifted(sel, |m| + 1))
    else if IsWrapFormat(f) then
      var (open, close) := WrapMarkers(f);
      Edit(before + open + selected + close + after, Shifted(sel, |open|))
    else if f.Link? || f.Image? then
      var linkText := Label(selected, f);
      MediaLink(before, after, sel.start, Opener(f), linkText, |linkText|)
    else Edit(text, sel)
  }

  /** `formatText` as the source writes it: links and images place the selection by the selection's length. */
  function FormattedAsWritten(text: string, sel: Selection, f: Format): Edit {
    if f.Link? || f.Image? then
      var selected := Substring(text, sel.start, sel.end);
      MediaLink(Substring(text, 0, sel.start), Substring(text, sel.end, |text|), sel.start,
                Opener(f), Label(selected, f), |selected|)
    else Formatted(text, sel, f)
  }

  /** A selection the textarea can hold. */
  predicate ValidSelection(text: string, sel: Selection) {
    sel.start <= sel.end <= |text|
  }

  // ---------------------------------------------------------------------
  // Properties of the formats
  // ---------------------------------------------------------------------

  /**
   * A wrap format puts its markers around the selection, leaves the text on
   * either side as it was, and the new selection covers the same text.
   */
  lemma WrapKeepsSelection(text: string, sel: Selection, f: Format)
    requires ValidSelection(text, sel) && IsWrapFormat(f)
    ensures var e := Formatted(text, sel, f);
            var (open, close) := WrapMarkers(f);
            e.text == text[..sel.start] + open + text[sel.start..sel.end] + close + text[sel.end..]
            && e.selection == Shifted(sel, |open|)
            && e.selection.end <= |e.text|
            && e.text[e.selection.start..e.selection.end] == text[sel.start..sel.end]
  {
    var (open, close) := WrapMarkers(f);
    var e := Formatted(text, sel, f);
    var a, b, c := text[..sel.start], text[sel.start..sel.end], text[sel.end..];
    assert Substring(text, 0, sel.start) == a && Substring(text, sel.start, sel.end) == b;
    assert Substring(text, sel.end, |text|) == c;
    assert e.text == a + open + b + close + c;
    assert a + open + b + close + c == (a + open) + b + (close + c);
    MiddleSlice(a + open, b, close + c);
  }

  /** The middle part of a concatenation is the slice between the other two. */
  lemma MiddleSlice(x: string, y: string, z: string)
    ensures (x + y + z)[|x|..|x| + |y|] == y
  {}

  /**
   * At a line start a line format inserts its marker there; the selection
   * shifts by the marker's length and still covers the same text.
   */
  lemma LineMarkerAtLineStart(text: string, sel: Selection, f: Format)
    requires ValidSelection(text, sel) && IsLineFormat(f) && IsAtLineStart(text, sel.start)
    ensures var e := Formatted(text, sel, f);
            var m := LineMarker(f);
            e.text == text[..sel.start] + m + text[sel.start..]
            && |e.text| == |text| + |m|
            && e.selection == Shifted(sel, |m|)
            && e.text[e.selection.start..e.selection.end] == text[sel.start..sel.end]
  {
    AtLineStartIffOwnLine(text, sel.start);
    var m := LineMarker(f);
    var a, b, c := text[..sel.start], text[sel.start..sel.end], text[sel.end..];
    assert text[sel.start..] == b + c;
    assert a + m + (b + c) == (a + m) + b + c;
    MiddleSlice(a + m, b, c);
  }

  /**
   * Inside a line a line format starts a new line with its marker before the
   * selection; the selection shifts by the marker's length plus one.
   */
  lemma LineMarkerInsideLine(text: string, sel: Selection, f: Format)
    requires ValidSelection(text, sel) && IsLineFormat(f) && !IsAtLineStart(text, sel.start)
    ensures var e := Formatted(text, sel, f);
            var m := LineMarker(f);
            e.text == text[..sel.start] + "\n" + m + text[sel.start..sel.end] + text[sel.end..]
            && |e.text| == |text| + |m| + 1
            && e.selection == Shifted(sel, |m| + 1)
            && e.text[e.selection.start..e.selection.end] == text[sel.start..sel.end]
  {
    var m := LineMarker(f);
    var a, b, c := text[..sel.start], text[sel.start..sel.end], text[sel.end..];
    assert |a + "\n" + m| == sel.start + |m| + 1;
    assert (a + "\n" + m + b + c)[|a| + 1 + |m|..|a| + 1 + |m| + |b|] == b;
  }

  /** After a link or image template the selection is exactly on `url`, whatever was selected. */
  lemma TemplateSelectsUrl(text: string, sel: Selection, f: Format)
    requires ValidSelection(text, sel) && (f.Link? || f.Image?)
    ensures var e := Formatted(text, sel, f);
            e.selection.end <= |e.text| && e.text[e.selection.start..e.selection.end] == "url"
  {
    var linkText := Label(Substring(text, sel.start, sel.end), f);
    var x := Substring(text, 0, sel.start) + Opener(f) + linkText;
    assert |x| == sel.start + |Opener(f)| + |linkText|;
    UrlInTemplate(x, Substring(text, sel.end, |text|));
  }

  /** In `x](url)c` the placeholder `url` sits two characters after `x`. */
  lemma UrlInTemplate(x: string, c: string)
    ensures |x| + 5 <= |x + "](url)" + c| && (x + "](url)" + c)[|x| + 2..|x| + 5] == "url"
  {
    var t := x + "](url)" + c;
    assert t[|x| + 2] == 'u' && t[|x| + 3] == 'r' && t[|x| + 4] == 'l';
  }

  /** With a selection the template keeps it as the linkText and grows the text by the template's length. */
  lemma TemplateKeepsSelectedText(text: string, sel: Selection, f: Format)
    requires ValidSelection(text, sel) && (f.Link? || f.Image?) && sel.start < sel.end
    ensures var e := Formatted(text, sel, f);
            e.text == text[..sel.start] + Opener(f) + text[sel.start..sel.end] + "](url)" + text[sel.end..]
            && e.selection == Selection(sel.end + |Opener(f)| + 2, sel.end + |Opener(f)| + 5)
  {}

  /** As written, an empty selection before a link template ends up on `nk `, inside the placeholder. */
  lemma AsWrittenLinkMissesUrl()
    ensures var e := FormattedAsWritten("", Selection(0, 0), Link);
            e.text == "[Link text](url)" && e.selection == Selection(3, 6)
            && e.text[3..6] == "nk " && e.text[3..6] != "url"
  {
    var e := FormattedAsWritten("", Selection(0, 0), Link);
    assert Substring("", 0, 0) == [];
    assert e.text == "[Link text](url)";
  }

  /** As written, the template follows the corrected one whenever something is selected. */
  lemma AsWrittenAgreesWithSelection(text: string, sel: Selection, f: Format)
    requires ValidSelection(text, sel) && sel.start < sel.end
    ensures FormattedAsWritten(text, sel, f) == Formatted(text, sel, f)
  {}

  /** A format name the toolbar does not know leaves the text and the selection as they were. */
  lemma UnknownFormatChangesNothing(text: string, sel: Selection, name: string)
    requires ParseFormat(name).Unknown?
    ensures Formatted(text, sel, ParseFormat(name)) == Edit(text, sel)
    ensures FormattedAsWritten(text, sel, ParseFormat(name)) == Edit(text, sel)
  {}

  // ---------------------------------------------------------------------
  // The editor state
  // ---------------------------------------------------------------------

  const NotesSection: string := "\n\n## Notes\n\nStart typing your notes here...\n\n"

  /** The initial content: the given content, or a template with the name and the description. */
  function InitialContent(name: string, description: string, initialContent: string): (r: string)
    ensures initialContent != [] ==> r == initialContent
    ensures initialContent == [] ==>
              r == "# " + (if name != [] then name else "Untitled Notebook") + "\n\n"
                   + (if description != [] then description else "No description provided.")
                   + "\n\n## Notes\n\nStart typing your notes here...\n\n"
    ensures initialContent == [] ==> StartsWith(r, "# " + (if name != [] then name else "Untitled Notebook") + "\n\n")
  {
    if initialContent != [] then initialContent
    else
      var heading := "# " + (if name != [] then name else "Untitled Notebook") + "\n\n";
      var body := (if description != [] then description else "No description provided.") + NotesSection;
      assert (heading + body)[..|heading|] == heading;
      heading + body
  }

  /** The editor's content and the textarea selection. */
  class Editor {
    var content: string
    var selection: Selection

    constructor(name: string, description: string, initialContent: string)
      ensures content == InitialContent(name, description, initialContent)
      ensures selection == Selection(0, 0)
    {
      content := InitialContent(name, description, initialContent);
      selection := Selection(0, 0);
    }

    /** `handleSelect`: remember the textarea selection. */
    method Select(start: nat, end: nat)
      modifies this
      ensures content == old(content) && selection == Selection(start, end)
    {
      selection := Selection(start, end);
    }

    /**
     * `formatText` followed by `updateContent`, as the source writes it: a link
     * or image template places the selection by the length of the selected
     * text (see `AsWrittenLinkMissesUrl`); nothing happens without a mounted
     * textarea.
     */
    method FormatText(f: Format, hasTextarea: bool)
      modifies this
      ensures hasTextarea ==> Edit(content, selection) == FormattedAsWritten(old(content), old(selection), f)
      ensures !hasTextarea ==> content == old(content) && selection == old(selection)
    {
      if !hasTextarea {
        return;
      }
      var currentText := content;
      var selStart := selection.start;
      var selEnd := selection.end;
      var selectedText := Substring(currentText, selStart, selEnd);
      var newText := currentText;
      var newSelection := selection;
      if IsLineFormat(f) {
        var marker := LineMarker(f);
        if IsAtLineStart(currentText, selStart) {
          newText := InsertAtLineStart(currentText, selStart, marker);
          newSelection := Selection(selStart + |marker|, selEnd + |marker|);
        } else {
          newText := Substring(currentText, 0, selStart) + "\n" + marker + selectedText + Substring(currentText, selEnd, |currentText|);
          newSelection := Selection(selStart + |marker| + 1, selEnd + |marker| + 1);
        }
      } else if IsWrapFormat(f) {
        var (open, close) := WrapMarkers(f);
        newText := Substring(currentText, 0, selStart) + open + selectedText + close + Substring(currentText, selEnd, |currentText|);
        newSelection := Selection(selStart + |open|, selEnd + |open|);
      } else if f.Link? || f.Image? {
        var linkText := Label(selectedText, f);
        var opener := Opener(f);
        newText := Substring(currentText, 0, selStart) + opener + linkText + "](url)" + Substring(currentText, selEnd, |currentText|);
        newSelection := Selection(selStart + |opener| + |selectedText| + 2, selStart + |opener| + |selectedText| + 5);
      }
      assert Edit(newText, newSelection) == FormattedAsWritten(currentText, selection, f);
      content := newText;
      selection := newSelection;
    }
  }
}
