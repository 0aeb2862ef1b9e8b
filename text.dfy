/**
 * String primitives with the semantics of the JavaScript built-ins the
 * application uses: `\s` / `trim`, `substring`, `toLowerCase` on ASCII
 * text, number-to-string conversion and UTF-16 length.
 *
 * Strings are sequences of Unicode scalar values.
 */
module Text {

  /** ECMAScript's WhiteSpace and LineTerminator code points: the class `\s` and what `trim` removes. */
  predicate IsSpace(c: char) {
    ('\U{9}' <= c <= '\U{D}') || c == ' ' || c == '\U{A0}' || c == '\U{1680}'
    || ('\U{2000}' <= c <= '\U{200A}') || c == '\U{2028}' || c == '\U{2029}'
    || c == '\U{202F}' || c == '\U{205F}' || c == '\U{3000}' || c == '\U{FEFF}'
  }

  predicate AllSpace(s: string) {
    forall k :: 0 <= k < |s| ==> IsSpace(s[k])
  }

  predicate NoSpace(s: string) {
    forall k :: 0 <= k < |s| ==> !IsSpace(s[k])
  }

  predicate StartsWith(s: string, prefix: string) {
    |prefix| <= |s| && s[..|prefix|] == prefix
  }

  /** `s.trimStart()`: the suffix of `s` left after dropping leading white space. */
  function TrimStart(s: string): (r: string)
    ensures |r| <= |s| && r == s[|s| - |r|..]
    ensures AllSpace(s[..|s| - |r|])
    ensures r == [] || !IsSpace(r[0])
  {
    if s == [] || !IsSpace(s[0]) then s else TrimStart(s[1..])
  }

  /** `s.trimEnd()`: the prefix of `s` left after dropping trailing white space. */
  function TrimEnd(s: string): (r: string)
    ensures |r| <= |s| && r == s[..|r|]
    ensures AllSpace(s[|r|..])
    ensures r == [] || !IsSpace(r[|r| - 1])
  {
    if s == [] || !IsSpace(s[|s| - 1]) then s else TrimEnd(s[..|s| - 1])
  }

  /** `s.trim()`. */
  function Trim(s: string): (r: string)
    ensures |r| <= |s|
    ensures r == [] || (!IsSpace(r[0]) && !IsSpace(r[|r| - 1]))
  {
    TrimEnd(TrimStart(s))
  }

  lemma {:induction false} TrimStartAfterSpace(a: string, s: string)
    requires AllSpace(a)
    ensures TrimStart(a + s) == TrimStart(s)
  {
    if a != [] {
      assert (a + s)[1..] == a[1..] + s;
      TrimStartAfterSpace(a[1..], s);
    } else {
      assert a + s == s;
    }
  }

  lemma {:induction false} TrimEndBeforeSpace(s: string, b: string)
    requires AllSpace(b)
    ensures TrimEnd(s + b) == TrimEnd(s)
  {
    if b != [] {
      assert (s + b)[..|s + b| - 1] == s + b[..|b| - 1];
      TrimEndBeforeSpace(s, b[..|b| - 1]);
    } else {
      assert s + b == s;
    }
  }

  lemma {:induction false} TrimStartBeforeSpace(s: string, b: string)
    requires AllSpace(b)
    ensures TrimStart(s + b) == if AllSpace(s) then TrimStart(b) else TrimStart(s) + b
  {
    if s != [] {
      assert (s + b)[0] == s[0] && (s + b)[1..] == s[1..] + b;
      AllSpaceCons(s);
      if IsSpace(s[0]) {
        assert TrimStart(s + b) == TrimStart(s[1..] + b);
        TrimStartBeforeSpace(s[1..], b);
      }
    } else {
      assert s + b == b;
    }
  }

  lemma AllSpaceCons(s: string)
    requires s != []
    ensures AllSpace(s) <==> IsSpace(s[0]) && AllSpace(s[1..])
  {
    if IsSpace(s[0]) && AllSpace(s[1..]) {
      forall k | 0 < k < |s| ensures IsSpace(s[k]) {
        assert s[k] == s[1..][k - 1];
      }
    }
  }

  lemma TrimStartOfSpace(s: string)
    requires AllSpace(s)
    ensures TrimStart(s) == []
  {}

  /** Text that starts and ends with a non-space character is its own trim. */
  lemma TrimOfTrimmed(s: string)
    requires s == [] || (!IsSpace(s[0]) && !IsSpace(s[|s| - 1]))
    ensures Trim(s) == s
  {}

  lemma TrimIdempotent(s: string)
    ensures Trim(Trim(s)) == Trim(s)
  {
    TrimOfTrimmed(Trim(s));
  }

  /** Surrounding white space never changes what `trim` returns. */
  lemma TrimIgnoresSurroundingSpace(a: string, s: string, b: string)
    requires AllSpace(a) && AllSpace(b)
    ensures Trim(a + s + b) == Trim(s)
  {
    assert a + s + b == a + (s + b);
    TrimStartAfterSpace(a, s + b);
    TrimStartBeforeSpace(s, b);
    if AllSpace(s) {
      TrimStartOfSpace(b);
      TrimStartOfSpace(s);
    } else {
      TrimEndBeforeSpace(TrimStart(s), b);
    }
  }

  /** `String.prototype.substring(start, end)`: both ends clamped to the string, swapped when reversed. */
  function Substring(s: string, start: int, end: int): (r: string)
    ensures var a, b := Clamp(start, |s|), Clamp(end, |s|);
            r == if a <= b then s[a..b] else s[b..a]
  {
    var a, b := Clamp(start, |s|), Clamp(end, |s|);
    if a <= b then s[a..b] else s[b..a]
  }

  function Clamp(i: int, n: nat): (r: nat)
    ensures r <= n
    ensures 0 <= i <= n ==> r == i
  {
    if i < 0 then 0 else if i > n then n else i
  }

  function AsciiLowerChar(c: char): (r: char)
    ensures 'A' <= c <= 'Z' ==> 'a' <= r <= 'z'
    ensures !('A' <= c <= 'Z') ==> r == c
  {
    if 'A' <= c <= 'Z' then (c as int + 32) as char else c
  }

  /** `s.toLowerCase()` restricted to the characters it changes in ASCII text. */
  function AsciiLower(s: string): (r: string)
    ensures |r| == |s|
    ensures forall k :: 0 <= k < |s| ==> r[k] == AsciiLowerChar(s[k])
  {
    if s == [] then [] else [AsciiLowerChar(s[0])] + AsciiLower(s[1..])
  }

  lemma AsciiLowerAppend(a: string, b: string)
    ensures AsciiLower(a + b) == AsciiLower(a) + AsciiLower(b)
  {
    assert forall k :: 0 <= k < |a + b| ==> AsciiLower(a + b)[k] == (AsciiLower(a) + AsciiLower(b))[k];
  }

  /** Lower-casing twice is lower-casing once. */
  lemma AsciiLowerIdempotent(s: string)
    ensures AsciiLower(AsciiLower(s)) == AsciiLower(s)
  {
    assert forall k :: 0 <= k < |s| ==> AsciiLower(AsciiLower(s))[k] == AsciiLower(s)[k];
  }

  /** No letter is white space, so lower-casing never makes or removes any. */
  lemma LowerKeepsSpace(c: char)
    ensures IsSpace(AsciiLowerChar(c)) == IsSpace(c)
  {}

  /** ASCII lower-casing and trimming commute. */
  lemma {:induction false} TrimStartLower(s: string)
    ensures TrimStart(AsciiLower(s)) == AsciiLower(TrimStart(s))
    decreases |s|
  {
    if s != [] {
      var l := AsciiLower(s);
      assert l == [AsciiLowerChar(s[0])] + AsciiLower(s[1..]);
      LowerKeepsSpace(s[0]);
      if IsSpace(s[0]) {
        assert l[1..] == AsciiLower(s[1..]);
        TrimStartLower(s[1..]);
        assert TrimStart(l) == TrimStart(l[1..]);
      } else {
        assert TrimStart(l) == l;
      }
    }
  }

  lemma {:induction false} TrimEndLower(s: string)
    ensures TrimEnd(AsciiLower(s)) == AsciiLower(TrimEnd(s))
    decreases |s|
  {
    if s != [] {
      var l, n := AsciiLower(s), |s| - 1;
      assert l[n] == AsciiLowerChar(s[n]);
      LowerKeepsSpace(s[n]);
      TrimEndStep(s);
      TrimEndStep(l);
      if IsSpace(s[n]) {
        LowerPrefix(s, n);
        TrimEndLower(s[..n]);
      }
    }
  }

  /** One step of `trimEnd`: a trailing space goes, anything else stays. */
  lemma TrimEndStep(s: string)
    requires s != []
    ensures TrimEnd(s) == if IsSpace(s[|s| - 1]) then TrimEnd(s[..|s| - 1]) else s
  {}

  lemma LowerPrefix(s: string, n: nat)
    requires n <= |s|
    ensures AsciiLower(s)[..n] == AsciiLower(s[..n])
  {}

  lemma TrimLower(s: string)
    ensures Trim(AsciiLower(s)) == AsciiLower(Trim(s))
  {
    TrimStartLower(s);
    TrimEndLower(TrimStart(s));
  }

  predicate IsDigit(c: char) { '0' <= c <= '9' }

  function DigitChar(d: nat): (c: char)
    requires d < 10
    ensures IsDigit(c)
  {
    ('0' as int + d) as char
  }

  /** `String(n)` for a non-negative integer: its decimal digits, no leading zero. */
  function NatToString(n: nat): (r: string)
    ensures |r| > 0
    ensures forall k :: 0 <= k < |r| ==> IsDigit(r[k])
    ensures r[0] == '0' ==> n == 0
    ensures (n < 10 ==> |r| == 1) && (10 <= n < 100 ==> |r| == 2) && (n >= 10 ==> |r| >= 2)
    decreases n
  {
    if n < 10 then [DigitChar(n)] else NatToString(n / 10) + [DigitChar(n % 10)]
  }

  /** `String(i)` for an integer. */
  function IntToString(i: int): (r: string)
    ensures i >= 0 ==> r == NatToString(i)
    ensures i < 0 ==> r == "-" + NatToString(-i)
  {
    if i < 0 then "-" + NatToString(-i) else NatToString(i)
  }

  /** JavaScript's `s.length`: UTF-16 code units, two for a character above U+FFFF. */
  function Utf16Length(s: string): (n: nat)
    ensures |s| <= n <= 2 * |s|
  {
    if s == [] then 0 else (if s[0] as int > 0xFFFF then 2 else 1) + Utf16Length(s[1..])
  }

  /** The index of the first `c` at or after `from`, or `|s|` when there is none. */
  function FindChar(s: string, c: char, from: nat): (r: nat)
    requires from <= |s|
    ensures from <= r <= |s|
    ensures r < |s| ==> s[r] == c
    ensures forall k :: from <= k < r ==> s[k] != c
    decreases |s| - from
  {
    if from == |s| || s[from] == c then from else FindChar(s, c, from + 1)
  }

  /** A prefix test on a string with a known first character. */
  lemma StartsWithCons(c: char, t: string, d: char, w: string)
    ensures StartsWith([c] + t, [d] + w) <==> c == d && StartsWith(t, w)
  {
    if |w| <= |t| {
      assert ([c] + t)[..|w| + 1] == [c] + t[..|w|];
      assert ([c] + t[..|w|])[1..] == t[..|w|];
      assert ([d] + w)[1..] == w;
    }
  }

  /** `FindChar` stops at the first `c` from `from` on. */
  lemma {:induction false} FindCharIs(s: string, c: char, from: nat, k: nat)
    requires from <= k <= |s|
    requires k < |s| ==> s[k] == c
    requires forall j :: from <= j < k ==> s[j] != c
    ensures FindChar(s, c, from) == k
    decreases k - from
  {
    if from < k {
      FindCharIs(s, c, from + 1, k);
    }
  }

  /** True when `s` holds `w` starting at index `i`. */
  predicate OccursAt(s: string, w: string, i: nat) {
    i + |w| <= |s| && s[i..i + |w|] == w
  }

  /** Concatenation of a list of strings. */
  function Concat(parts: seq<string>): string {
    if parts == [] then "" else parts[0] + Concat(parts[1..])
  }
}
