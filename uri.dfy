/**
 * Byte-level encodings the article lookup relies on: UTF-8,
 * `encodeURIComponent`, and Node's `Buffer#toString('base64')`.
 */
module Uri {
  import opened Text

  type Byte = b: int | 0 <= b < 256

  /** The UTF-8 encoding of one Unicode scalar value. */
  function Utf8Char(c: char): (r: seq<Byte>)
    ensures 1 <= |r| <= 4
    ensures (|r| == 1) == (c as int < 0x80)
  {
    var cp := c as int;
    if cp < 0x80 then [cp]
    else if cp < 0x800 then [0xC0 + cp / 64, 0x80 + cp % 64]
    else if cp < 0x10000 then [0xE0 + cp / 4096, 0x80 + (cp / 64) % 64, 0x80 + cp % 64]
    else [0xF0 + cp / 262144, 0x80 + (cp / 4096) % 64, 0x80 + (cp / 64) % 64, 0x80 + cp % 64]
  }

  /** `Buffer.from(s)`: the UTF-8 bytes of a string. */
  function Utf8(s: string): (r: seq<Byte>)
    ensures |s| <= |r| <= 4 * |s|
  {
    if s == [] then [] else Utf8Char(s[0]) + Utf8(s[1..])
  }

  /** The characters `encodeURIComponent` leaves as they are. */
  predicate IsUnreserved(c: char) {
    ('A' <= c <= 'Z') || ('a' <= c <= 'z') || ('0' <= c <= '9')
    || c == '-' || c == '_' || c == '.' || c == '!' || c == '~' || c == '*'
    || c == '\'' || c == '(' || c == ')'
  }

  function HexDigit(d: nat): (c: char)
    requires d < 16
    ensures ('0' <= c <= '9') || ('A' <= c <= 'F')
  {
    if d < 10 then ('0' as int + d) as char else ('A' as int + d - 10) as char
  }

  /** `%XX` for each byte, upper-case hexadecimal. */
  function PercentEncode(bytes: seq<Byte>): (r: string)
    ensures |r| == 3 * |bytes|
    ensures forall k :: 0 <= k < |r| ==> r[k] == '%' || ('0' <= r[k] <= '9') || ('A' <= r[k] <= 'F')
  {
    if bytes == [] then []
    else ['%', HexDigit(bytes[0] / 16), HexDigit(bytes[0] % 16)] + PercentEncode(bytes[1..])
  }

  function EncodeChar(c: char): (r: string)
    ensures IsUnreserved(c) ==> r == [c]
    ensures !IsUnreserved(c) ==> r == PercentEncode(Utf8Char(c))
  {
    if IsUnreserved(c) then [c] else PercentEncode(Utf8Char(c))
  }

  /** The characters that can appear in the output of `encodeURIComponent`. */
  predicate IsUriChar(c: char) {
    IsUnreserved(c) || c == '%'
  }

  /** `encodeURIComponent(s)`. Total here: a scalar value is never a lone surrogate. */
  function EncodeUriComponent(s: string): (r: string)
    ensures forall k :: 0 <= k < |r| ==> IsUriChar(r[k])
    ensures (forall k :: 0 <= k < |s| ==> IsUnreserved(s[k])) ==> r == s
  {
    if s == [] then [] else EncodeChar(s[0]) + EncodeUriComponent(s[1..])
  }

  /** Lower-casing the output hides the ASCII case of the input: letters pass through unescaped. */
  lemma {:induction false} EncodeHidesAsciiCase(s: string)
    ensures AsciiLower(EncodeUriComponent(AsciiLower(s))) == AsciiLower(EncodeUriComponent(s))
    decreases |s|
  {
    if s != [] {
      var l := AsciiLower(s);
      assert l[0] == AsciiLowerChar(s[0]) && l[1..] == AsciiLower(s[1..]);
      EncodeHidesAsciiCase(s[1..]);
      AsciiLowerAppend(EncodeChar(l[0]), EncodeUriComponent(l[1..]));
      AsciiLowerAppend(EncodeChar(s[0]), EncodeUriComponent(s[1..]));
      if 'A' <= s[0] <= 'Z' {
        assert AsciiLower(EncodeChar(l[0])) == [l[0]] == AsciiLower(EncodeChar(s[0]));
      }
    }
  }

  /** The base64 alphabet: letters, digits, `+`, `/`, and `=` for padding. */
  predicate IsBase64Char(c: char) {
    ('A' <= c <= 'Z') || ('a' <= c <= 'z') || ('0' <= c <= '9') || c == '+' || c == '/' || c == '='
  }

  /** The character for a six-bit value: `A`-`Z`, `a`-`z`, `0`-`9`, `+`, `/`. */
  function Sextet(n: nat): (c: char)
    requires n < 64
    ensures IsBase64Char(c) && c != '='
  {
    if n < 26 then ('A' as int + n) as char
    else if n < 52 then ('a' as int + n - 26) as char
    else if n < 62 then ('0' as int + n - 52) as char
    else if n == 62 then '+' else '/'
  }

  /** The four characters for one group of up to three bytes, `=` standing in for each missing byte. */
  function Quad(b0: Byte, b1: Byte, b2: Byte, n: nat): (r: string)
    requires 1 <= n <= 3
    ensures |r| == 4
    ensures forall k :: 0 <= k < 4 ==> IsBase64Char(r[k])
  {
    [Sextet(b0 / 4), Sextet((b0 % 4) * 16 + b1 / 16),
     if n == 1 then '=' else Sextet((b1 % 16) * 4 + b2 / 64),
     if n <= 2 then '=' else Sextet(b2 % 64)]
  }

  /** Standard base64 with `=` padding, four characters per three bytes. */
  function Base64(bytes: seq<Byte>): (r: string)
    ensures |r| == 4 * ((|bytes| + 2) / 3)
    ensures forall k :: 0 <= k < |r| ==> IsBase64Char(r[k])
  {
    if bytes == [] then []
    else if |bytes| == 1 then Quad(bytes[0], 0, 0, 1)
    else if |bytes| == 2 then Quad(bytes[0], bytes[1], 0, 2)
    else
      var q, rest := Quad(bytes[0], bytes[1], bytes[2], 3), Base64(bytes[3..]);
      assert (|bytes| + 2) / 3 == (|bytes[3..]| + 2) / 3 + 1;
      assert forall k :: 0 <= k < |q + rest| ==> IsBase64Char((q + rest)[k]) by {
        forall k | 0 <= k < |q + rest| ensures IsBase64Char((q + rest)[k]) {
          if k < 4 { assert (q + rest)[k] == q[k]; } else { assert (q + rest)[k] == rest[k - 4]; }
        }
      }
      q + rest
  }
}
