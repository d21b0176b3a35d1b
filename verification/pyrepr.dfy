/**
 Python's `repr` of a `str`, which `NearEarthObject.fullname` applies to the designation
 (the `!r` conversion), together with a reader for the literal it produces.

 The quote is `'` unless the string holds a `'` and no `"`, in which case it is `"`.
 Inside the quotes the chosen quote and the backslash are escaped with a backslash, tab,
 newline and carriage return become `\t`, `\n`, `\r`, and every other ASCII control
 character becomes `\x` followed by two lower-case hex digits. Every other character is
 copied unchanged (Python also escapes non-ASCII characters it deems unprintable; those
 are not modelled).
 */
module PyRepr {
  import opened Wrappers

  const HexDigits: string := "0123456789abcdef"

  predicate IsQuote(q: char) {
    q == '\'' || q == '"'
  }

  /** Characters below U+0020 and U+007F, which Python prints as `\xhh` unless named. */
  predicate IsAsciiControl(c: char) {
    c as int < 0x20 || c as int == 0x7f
  }

  /** The quote character Python chooses for `s`. */
  function QuoteFor(s: string): (q: char)
    ensures IsQuote(q)
    ensures q == '"' ==> '\'' in s && '"' !in s
    ensures '\'' in s && '"' !in s ==> q == '"'
  {
    if '\'' in s && '"' !in s then '"' else '\''
  }

  function EscapeChar(c: char, q: char): string {
    if c == q || c == '\\' then ['\\', c]
    else if c == '\t' then "\\t"
    else if c == '\n' then "\\n"
    else if c == '\r' then "\\r"
    else if IsAsciiControl(c) then ['\\', 'x', HexDigits[c as int / 16], HexDigits[c as int % 16]]
    else [c]
  }

  function EscapeBody(s: string, q: char): string
    decreases |s|
  {
    if s == [] then [] else EscapeChar(s[0], q) + EscapeBody(s[1..], q)
  }

  /** `repr(s)` for a Python `str`. */
  function Repr(s: string): (r: string)
    ensures |r| >= 2 && IsQuote(r[0]) && r[|r| - 1] == r[0]
  {
    var q := QuoteFor(s);
    [q] + EscapeBody(s, q) + [q]
  }

  function HexValue(c: char): (v: Option<nat>)
    ensures v.Some? ==> v.value < 16
  {
    if '0' <= c <= '9' then Some(c as int - '0' as int)
    else if 'a' <= c <= 'f' then Some(c as int - 'a' as int + 10)
    else None
  }

  function Prepend(c: char, r: Option<(string, string)>): Option<(string, string)> {
    match r
    case None => None
    case Some((body, rest)) => Some(([c] + body, rest))
  }

  /**
   Decodes the escape sequence at the start of `t`, which begins with a backslash: the
   character it stands for and the number of characters it spans.
   */
  function ParseEscape(t: string, q: char): (r: Option<(char, nat)>)
    requires |t| >= 1 && t[0] == '\\'
    ensures r.Some? ==> 2 <= r.value.1 <= |t|
  {
    if |t| < 2 then None
    else if t[1] == 't' then Some(('\t', 2))
    else if t[1] == 'n' then Some(('\n', 2))
    else if t[1] == 'r' then Some(('\r', 2))
    else if t[1] == q || t[1] == '\\' then Some((t[1], 2))
    else if t[1] == 'x' && |t| >= 4 then
      match (HexValue(t[2]), HexValue(t[3]))
      case (Some(hi), Some(lo)) => Some(((16 * hi + lo) as char, 4))
      case _ => None
    else None
  }

  /**
   Reads the inside of a literal quoted by `q` up to its closing quote. On success the
   result holds the decoded string and the text that follows the closing quote.
   */
  function ParseBody(t: string, q: char): Option<(string, string)>
    decreases |t|
  {
    if t == [] then None
    else if t[0] == q then Some(([], t[1..]))
    else if t[0] != '\\' then Prepend(t[0], ParseBody(t[1..], q))
    else match ParseEscape(t, q)
      case Some((c, n)) => Prepend(c, ParseBody(t[n..], q))
      case None => None
  }

  /** Reads one quoted literal at the start of `t`: the decoded string and what follows it. */
  function ParseRepr(t: string): Option<(string, string)> {
    if t != [] && IsQuote(t[0]) then ParseBody(t[1..], t[0]) else None
  }

  lemma HexDigitsRoundTrip(v: int)
    requires 0 <= v < 16
    ensures HexValue(HexDigits[v]) == Some(v)
  {
  }

  /** A backslash escape produced for `c` decodes back to `c` and spans the whole escape. */
  lemma EscapeSequenceRoundTrip(c: char, q: char, t: string)
    requires IsQuote(q)
    requires c == q || c == '\\' || c == '\t' || c == '\n' || c == '\r' || IsAsciiControl(c)
    ensures ParseEscape(EscapeChar(c, q) + t, q) == Some((c, |EscapeChar(c, q)|))
  {
    var e := EscapeChar(c, q);
    if !(c == q || c == '\\' || c == '\t' || c == '\n' || c == '\r') {
      var hi, lo := c as int / 16, c as int % 16;
      HexDigitsRoundTrip(hi);
      HexDigitsRoundTrip(lo);
      assert (e + t)[1] == 'x' && (e + t)[2] == HexDigits[hi] && (e + t)[3] == HexDigits[lo];
      assert (16 * hi + lo) as char == c;
    }
  }

  /** Reading one escaped character yields that character, then reading carries on. */
  lemma EscapeCharRoundTrip(c: char, q: char, t: string)
    requires IsQuote(q)
    ensures ParseBody(EscapeChar(c, q) + t, q) == Prepend(c, ParseBody(t, q))
  {
    var e := EscapeChar(c, q);
    if c == q || c == '\\' || c == '\t' || c == '\n' || c == '\r' || IsAsciiControl(c) {
      EscapeSequenceRoundTrip(c, q, t);
      assert (e + t)[|e|..] == t;
    } else {
      assert (e + t)[1..] == t;
    }
  }

  lemma {:induction false} EscapeBodyRoundTrip(s: string, q: char, rest: string)
    requires IsQuote(q)
    ensures ParseBody(EscapeBody(s, q) + [q] + rest, q) == Some((s, rest))
    decreases |s|
  {
    if s == [] {
      assert EscapeBody(s, q) + [q] + rest == [q] + rest;
      assert ([q] + rest)[1..] == rest;
    } else {
      var t := EscapeBody(s[1..], q) + [q] + rest;
      assert EscapeBody(s, q) + [q] + rest == EscapeChar(s[0], q) + t;
      EscapeCharRoundTrip(s[0], q, t);
      EscapeBodyRoundTrip(s[1..], q, rest);
      assert [s[0]] + s[1..] == s;
    }
  }

  /**
   The literal `repr` produces reads back as the original string, and the reader stops
   exactly at its closing quote: a `repr` followed by any text is never ambiguous.
   */
  lemma ReprRoundTrip(s: string, rest: string)
    ensures ParseRepr(Repr(s) + rest) == Some((s, rest))
  {
    var q := QuoteFor(s);
    assert Repr(s) + rest == [q] + (EscapeBody(s, q) + [q] + rest);
    EscapeBodyRoundTrip(s, q, rest);
  }

  /** Two strings with the same `repr` are the same string. */
  lemma ReprInjective(s: string, t: string)
    requires Repr(s) == Repr(t)
    ensures s == t
  {
    ReprRoundTrip(s, []);
    ReprRoundTrip(t, []);
    assert Repr(s) + [] == Repr(s);
    assert Repr(t) + [] == Repr(t);
  }
}
