/**
 * Plain-text helpers of the article lookup: word splitting and the
 * reading-time estimate, and the image name used to find a caption.
 */
module ArticleText {
  import opened Wrappers
  import opened Text

  const WordsPerMinute: nat := 250

  /** `s.split(/\s+/)`: the pieces between maximal runs of white space. */
  function Split(s: string): (pieces: seq<string>)
    ensures |pieces| >= 1
    decreases |s|
  {
    if s == [] then [[]]
    else if IsSpace(s[0]) then [[]] + Split(TrimStart(s))
    else var r := Split(s[1..]); [[s[0]] + r[0]] + r[1..]
  }

  /** `words.join(sep)`. */
  function Join(words: seq<string>, sep: string): string {
    if words == [] then []
    else if |words| == 1 then words[0]
    else words[0] + sep + Join(words[1..], sep)
  }

  /** `Math.ceil(n / d)` for a positive divisor. */
  function CeilDiv(n: nat, d: nat): (q: nat)
    requires d > 0
    ensures q * d >= n && (q == 0 || (q - 1) * d < n)
  {
    (n + d - 1) / d
  }

  /** `calculateReadingTime`: whole minutes at 250 words per minute; the empty text takes none. */
  function ReadingTime(text: string): nat {
    if text == [] then 0 else CeilDiv(|Split(Trim(text))|, WordsPerMinute)
  }

  /** No piece of a split contains white space. */
  lemma {:induction false} SplitPiecesHaveNoSpace(s: string)
    ensures forall k :: 0 <= k < |Split(s)| ==> NoSpace(Split(s)[k])
    decreases |s|
  {
    if s != [] {
      if IsSpace(s[0]) {
        SplitPiecesHaveNoSpace(TrimStart(s));
        var r := Split(TrimStart(s));
        assert Split(s) == [[]] + r;
        forall k | 0 <= k < |Split(s)| ensures NoSpace(Split(s)[k]) {
          if k > 0 { assert Split(s)[k] == r[k - 1]; }
        }
      } else {
        SplitPiecesHaveNoSpace(s[1..]);
        var r := Split(s[1..]);
        assert Split(s) == [[s[0]] + r[0]] + r[1..];
        forall k | 0 <= k < |Split(s)| ensures NoSpace(Split(s)[k]) {
          if k > 0 { assert Split(s)[k] == r[k]; }
          else { assert NoSpace(r[0]); }
        }
      }
    }
  }

  /** A word without white space is glued to the first piece of what follows it. */
  lemma {:induction false} SplitAfterWord(w: string, t: string)
    requires NoSpace(w)
    ensures Split(w + t) == [w + Split(t)[0]] + Split(t)[1..]
    decreases |w|
  {
    if w == [] {
      assert w + t == t;
      assert w + Split(t)[0] == Split(t)[0];
      assert Split(t) == [Split(t)[0]] + Split(t)[1..];
    } else {
      assert (w + t)[0] == w[0];
      assert (w + t)[1..] == w[1..] + t;
      SplitAfterWord(w[1..], t);
      assert [w[0]] + w[1..] == w;
      assert [w[0]] + (w[1..] + Split(t)[0]) == w + Split(t)[0];
    }
  }

  /** One separating space before a word starts a new piece. */
  lemma SplitAtSpace(rest: string)
    requires rest == [] || !IsSpace(rest[0])
    ensures Split(" " + rest) == [[]] + Split(rest)
  {
    var s := " " + rest;
    assert s[1..] == rest;
    assert TrimStart(s) == TrimStart(rest);
  }

  /** Splitting words joined by single spaces gives the words back. */
  lemma {:induction false} SplitJoin(words: seq<string>)
    requires |words| >= 1
    requires forall k :: 0 <= k < |words| ==> words[k] != [] && NoSpace(words[k])
    ensures Split(Join(words, " ")) == words
    decreases |words|
  {
    if |words| == 1 {
      SplitAfterWord(words[0], []);
      assert words[0] + [] == words[0];
    } else {
      var rest := Join(words[1..], " ");
      SplitJoin(words[1..]);
      JoinStartsWithWord(words[1..]);
      assert Join(words, " ") == words[0] + (" " + rest);
      SplitWordThenRest(words[0], rest);
      assert words == [words[0]] + words[1..];
    }
  }

  /** A word, one space and a text that starts with a word: the word, then the pieces of the text. */
  lemma SplitWordThenRest(w: string, rest: string)
    requires NoSpace(w) && (rest == [] || !IsSpace(rest[0]))
    ensures Split(w + (" " + rest)) == [w] + Split(rest)
  {
    SplitAtSpace(rest);
    var sp := Split(" " + rest);
    assert sp[0] == [] && sp[1..] == Split(rest);
    SplitAfterWord(w, " " + rest);
    assert w + sp[0] == w;
  }

  /** Words joined by single spaces start and end with a word character. */
  lemma {:induction false} JoinStartsWithWord(words: seq<string>)
    requires |words| >= 1
    requires forall k :: 0 <= k < |words| ==> words[k] != [] && NoSpace(words[k])
    ensures var j := Join(words, " "); j != [] && !IsSpace(j[0]) && !IsSpace(j[|j| - 1])
    decreases |words|
  {
    if |words| > 1 {
      JoinStartsWithWord(words[1..]);
      var rest := Join(words[1..], " ");
      assert Join(words, " ") == words[0] + " " + rest;
      assert (words[0] + " " + rest)[0] == words[0][0];
    }
  }

  /** The estimate for `n` words separated by single spaces is `ceil(n / 250)` minutes. */
  lemma ReadingTimeOfWords(words: seq<string>)
    requires |words| >= 1
    requires forall k :: 0 <= k < |words| ==> words[k] != [] && NoSpace(words[k])
    ensures ReadingTime(Join(words, " ")) == CeilDiv(|words|, WordsPerMinute)
  {
    JoinStartsWithWord(words);
    TrimOfTrimmed(Join(words, " "));
    SplitJoin(words);
  }

  /** Only the empty text takes no time; text made only of white space still counts one piece. */
  lemma ReadingTimeZeroIffEmpty(text: string)
    ensures ReadingTime(text) == 0 <==> text == []
    ensures text != [] && AllSpace(text) ==> ReadingTime(text) == 1
  {
    if text != [] && AllSpace(text) {
      TrimStartOfSpace(text);
      assert Trim(text) == [];
    }
  }

  // ---------------------------------------------------------------------
  // The image name of `extractImageCaption`
  // ---------------------------------------------------------------------

  /** `s.split(c).pop()`: the text after the last `c`, or all of `s`. */
  function AfterLast(s: string, c: char): (r: string)
    ensures |r| <= |s| && r == s[|s| - |r|..]
    ensures forall k :: 0 <= k < |r| ==> r[k] != c
    ensures |r| < |s| ==> s[|s| - |r| - 1] == c
  {
    if s == [] || s[|s| - 1] == c then []
    else AfterLast(s[..|s| - 1], c) + [s[|s| - 1]]
  }

  /** `s.split(c)[0]`: the text before the first `c`, or all of `s`. */
  function BeforeFirst(s: string, c: char): (r: string)
    ensures |r| <= |s| && r == s[..|r|]
    ensures forall k :: 0 <= k < |r| ==> r[k] != c
    ensures |r| < |s| ==> s[|r|] == c
  {
    s[..FindChar(s, c, 0)]
  }

  /** The image file name from its URL: the last path segment up to its first dot. */
  function ImageName(mediaUrl: string): (name: string)
    ensures forall k :: 0 <= k < |name| ==> name[k] != '/' && name[k] != '.'
  {
    BeforeFirst(AfterLast(mediaUrl, '/'), '.')
  }

  /** The name of an image at `dir/name.ext` is `name`, whatever the directory and the extension. */
  lemma ImageNameOfPath(dir: string, name: string, ext: string)
    requires forall k :: 0 <= k < |name| ==> name[k] != '/' && name[k] != '.'
    requires forall k :: 0 <= k < |ext| ==> ext[k] != '/'
    ensures ImageName(dir + "/" + name + "." + ext) == name
  {
    var u := dir + "/" + name + "." + ext;
    var i := |dir| + 1;
    assert u[i - 1] == '/';
    assert u[i..] == name + "." + ext;
    forall k | i <= k < |u| ensures u[k] != '/' {
      assert u[k] == (name + "." + ext)[k - i];
    }
    AfterLastIs(u, '/', i);
    var last := name + "." + ext;
    assert last[|name|] == '.';
    FindCharIs(last, '.', 0, |name|);
    assert last[..|name|] == name;
  }

  lemma ImageNameExample()
    ensures ImageName("https://upload.wikimedia.org/thumb/Ada_Lovelace.jpg/320px-Ada.jpg") == "320px-Ada"
  {
    ImageNameOfPath("https://upload.wikimedia.org/thumb/Ada_Lovelace.jpg", "320px-Ada", "jpg");
    assert "https://upload.wikimedia.org/thumb/Ada_Lovelace.jpg" + "/" + "320px-Ada" + "." + "jpg"
           == "https://upload.wikimedia.org/thumb/Ada_Lovelace.jpg/320px-Ada.jpg";
  }

  /** `AfterLast` starts right after the last occurrence of `c`. */
  lemma {:induction false} AfterLastIs(s: string, c: char, i: nat)
    requires 0 < i <= |s| && s[i - 1] == c
    requires forall k :: i <= k < |s| ==> s[k] != c
    ensures AfterLast(s, c) == s[i..]
    decreases |s|
  {
    if i < |s| {
      var t := s[..|s| - 1];
      AfterLastIs(t, c, i);
      assert t[i..] + [s[|s| - 1]] == s[i..];
    }
  }

  /**
   * What the figcaption search of `extractImageCaption` gives: the pattern is
   * built from the image name and matched case-insensitively, so it is an
   * input here; a name that is not a valid pattern makes the build throw.
   */
  datatype CaptionSearch = NoCaption | CaptionFound(group: string) | InvalidPattern(message: string)

  /** `extractImageCaption`: the trimmed caption, `''` when there is nothing to look for; a throw is `Failure`. */
  function ExtractImageCaption(html: string, mediaUrl: string, search: (string, string) -> CaptionSearch)
    : (r: Result<string, string>)
    ensures (mediaUrl == [] || html == [] || ImageName(mediaUrl) == []) ==> r == Success([])
    ensures r.Success? ==> r.value == Trim(r.value)
  {
    if mediaUrl == [] || html == [] then Success([])
    else
      var name := ImageName(mediaUrl);
      if name == [] then Success([])
      else match search(html, name)
        case NoCaption => Success([])
        case CaptionFound(g) => TrimIdempotent(g); Success(Trim(g))
        case InvalidPattern(m) => Failure(m)
  }
}
