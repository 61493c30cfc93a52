/**
 * `urllib.parse.quote(s)` with its default `safe='/'`: the percent-encoding of
 * section 2.1 of RFC 3986 applied to the UTF-8 bytes of `s`.
 */
module UrlQuote {

  /** Characters left as they are: ASCII letters and digits, `_.-~` (the unreserved set of RFC 3986) and `/`. */
  predicate IsSafe(c: char) {
    ('A' <= c <= 'Z') || ('a' <= c <= 'z') || ('0' <= c <= '9')
    || c == '_' || c == '.' || c == '-' || c == '~' || c == '/'
  }

  /** The UTF-8 encoding of one Unicode scalar value. */
  function Utf8(c: char): (bytes: seq<nat>)
    ensures 1 <= |bytes| <= 4
    ensures forall i :: 0 <= i < |bytes| ==> bytes[i] < 256
    ensures c as int < 0x80 <==> |bytes| == 1
    ensures |bytes| == 1 ==> bytes[0] == c as int
  {
    var n := c as int;
    if n < 0x80 then [n]
    else if n < 0x800 then [0xC0 + n / 64, 0x80 + n % 64]
    else if n < 0x10000 then [0xE0 + n / 4096, 0x80 + (n / 64) % 64, 0x80 + n % 64]
    else [0xF0 + n / 262144, 0x80 + (n / 4096) % 64, 0x80 + (n / 64) % 64, 0x80 + n % 64]
  }

  /** Upper-case hexadecimal digit, as `quote` writes them. */
  function HexDigit(d: nat): (c: char)
    requires d < 16
    ensures IsSafe(c)
  {
    if d < 10 then ('0' as int + d) as char else ('A' as int + d - 10) as char
  }

  /** `%XX` for each byte. */
  function Escape(bytes: seq<nat>): (e: string)
    requires forall i :: 0 <= i < |bytes| ==> bytes[i] < 256
    ensures |e| == 3 * |bytes|
    ensures forall c :: c in e ==> IsSafe(c) || c == '%'
  {
    if bytes == [] then []
    else ['%', HexDigit(bytes[0] / 16), HexDigit(bytes[0] % 16)] + Escape(bytes[1..])
  }

  function QuoteChar(c: char): (q: string)
    ensures forall d :: d in q ==> IsSafe(d) || d == '%'
  {
    if IsSafe(c) then [c] else Escape(Utf8(c))
  }

  /** `quote(s)`: safe characters are kept, every other character becomes the `%XX` escapes of its UTF-8 bytes. */
  function Quote(s: string): (q: string)
    ensures forall c :: c in q ==> IsSafe(c) || c == '%'
  {
    if s == [] then [] else QuoteChar(s[0]) + Quote(s[1..])
  }

  /** A quoted string never holds `#` (so a URL fragment separator cannot come from the path) nor a quote mark. */
  lemma {:induction false} QuoteHasNoDelimiters(s: string)
    ensures '#' !in Quote(s) && '\'' !in Quote(s) && ' ' !in Quote(s)
  {
  }

  /** Quoting works character by character, so it distributes over concatenation. */
  lemma {:induction false} QuoteAppend(a: string, b: string)
    ensures Quote(a + b) == Quote(a) + Quote(b)
  {
    if a == [] {
      assert a + b == b;
    } else {
      assert (a + b)[0] == a[0] && (a + b)[1..] == a[1..] + b;
      QuoteAppend(a[1..], b);
    }
  }

  /** A string made only of safe characters is its own quoting. */
  lemma {:induction false} QuoteSafe(s: string)
    requires forall c :: c in s ==> IsSafe(c)
    ensures Quote(s) == s
  {
    if s != [] {
      QuoteSafe(s[1..]);
      assert s == [s[0]] + s[1..];
    }
  }

  /** An unsafe ASCII character becomes exactly three characters, a `%` and two hex digits. */
  lemma {:induction false} QuoteUnsafeAscii(c: char)
    requires !IsSafe(c) && c as int < 0x80
    ensures Quote([c]) == ['%', HexDigit(c as int / 16), HexDigit(c as int % 16)]
  {
    assert [c][1..] == [];
  }
}
