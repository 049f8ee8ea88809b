/**
 * The part of Python's json.dumps the package-info document uses: string
 * literals under the default ensure_ascii=True, which escapes the quote,
 * the backslash and every character outside ' '..'~', and writes
 * characters beyond the Basic Multilingual Plane as UTF-16 surrogate pairs.
 * A reader for those literals is given beside it, with the round trip.
 */
module Json {
  import opened Base
  import opened Text

  const Backspace: char := 8 as char
  const FormFeed: char := 12 as char

  function HexDigit(d: nat): (c: char)
    requires d < 16
    ensures IsAscii([c])
  {
    if d < 10 then ('0' as int + d) as char else ('a' as int + d - 10) as char
  }

  /** '{0:04x}'.format(n): four lower-case hexadecimal digits. */
  function Hex4(n: nat): (h: string)
    requires n < 0x10000
    ensures |h| == 4 && IsAscii(h) && '\n' !in h && '\r' !in h
  {
    [HexDigit(n / 16 / 16 / 16), HexDigit(n / 16 / 16 % 16), HexDigit(n / 16 % 16), HexDigit(n % 16)]
  }

  function HexValue(c: char): Option<nat>
  {
    if '0' <= c <= '9' then Some(c as int - '0' as int)
    else if 'a' <= c <= 'f' then Some(c as int - 'a' as int + 10)
    else if 'A' <= c <= 'F' then Some(c as int - 'A' as int + 10)
    else None
  }

  /** The code unit four hexadecimal digits denote. */
  function ParseHex4(h: string): (r: Option<nat>)
    requires |h| == 4
    ensures r.Some? ==> r.value < 0x10000
  {
    match (HexValue(h[0]), HexValue(h[1]), HexValue(h[2]), HexValue(h[3]))
    case (Some(a), Some(b), Some(c), Some(d)) =>
      if a < 16 && b < 16 && c < 16 && d < 16 then Some(((a * 16 + b) * 16 + c) * 16 + d) else None
    case _ => None
  }

  lemma HexDigitValue(d: nat)
    requires d < 16
    ensures HexValue(HexDigit(d)) == Some(d)
  {
  }

  lemma Hex4RoundTrip(n: nat)
    requires n < 0x10000
    ensures ParseHex4(Hex4(n)) == Some(n)
  {
    var q1 := n / 16;
    var q2 := q1 / 16;
    var a, b, c, d := q2 / 16, q2 % 16, q1 % 16, n % 16;
    HexDigitValue(a);
    HexDigitValue(b);
    HexDigitValue(c);
    HexDigitValue(d);
    assert q2 == a * 16 + b;
    assert q1 == q2 * 16 + c;
    assert n == q1 * 16 + d;
  }

  /** The escape json.dumps writes for one character. */
  function EscapeChar(c: char): (e: string)
    ensures 2 <= |e| || (|e| == 1 && e[0] == c && ' ' <= c <= '~' && c != '"' && c != '\\')
    ensures IsAscii(e) && '\n' !in e && '\r' !in e
  {
    if c == '\\' then "\\\\"
    else if c == '"' then "\\\""
    else if c == Backspace then "\\b"
    else if c == FormFeed then "\\f"
    else if c == '\n' then "\\n"
    else if c == '\r' then "\\r"
    else if c == '\t' then "\\t"
    else if ' ' <= c <= '~' then [c]
    else if c as int < 0x10000 then UnicodeEscape(c as int)
    else UnicodeEscape(HighSurrogate(c)) + UnicodeEscape(LowSurrogate(c))
  }

  /** "\\u" and four hexadecimal digits: the escape of one UTF-16 code unit. */
  function UnicodeEscape(u: nat): (e: string)
    requires u < 0x10000
    ensures |e| == 6 && IsAscii(e) && '\n' !in e && '\r' !in e
  {
    "\\u" + Hex4(u)
  }

  // The UTF-16 surrogate pair of a character beyond the Basic Multilingual
  // Plane. With v the code point minus 0x10000, Python writes
  // 0xd800 | ((v >> 10) & 0x3ff) and 0xdc00 | (v & 0x3ff), which equal these
  // sums because v < 0x100000.

  function HighSurrogate(c: char): (u: nat)
    requires 0x10000 <= c as int
    ensures 0xD800 <= u < 0xDC00
  {
    0xD800 + (c as int - 0x10000) / 1024
  }

  function LowSurrogate(c: char): (u: nat)
    requires 0x10000 <= c as int
    ensures 0xDC00 <= u < 0xE000
  {
    0xDC00 + (c as int - 0x10000) % 1024
  }

  /** The body of a JSON string literal for `s`. */
  function Escape(s: string): (e: string)
    ensures IsAscii(e) && '\n' !in e && '\r' !in e
  {
    if s == [] then [] else EscapeChar(s[0]) + Escape(s[1..])
  }

  /** Reads one (possibly escaped) character of a string literal body: the character and the length read. */
  function UnescapeStep(t: string): (r: Option<(char, nat)>)
    ensures r.Some? ==> 1 <= r.value.1 <= |t|
  {
    if t == [] then None
    else if t[0] == '"' || t[0] as int < 0x20 then None
    else if t[0] != '\\' then Some((t[0], 1))
    else if |t| < 2 then None
    else if t[1] == '"' then Some(('"', 2))
    else if t[1] == '\\' then Some(('\\', 2))
    else if t[1] == '/' then Some(('/', 2))
    else if t[1] == 'b' then Some((Backspace, 2))
    else if t[1] == 'f' then Some((FormFeed, 2))
    else if t[1] == 'n' then Some(('\n', 2))
    else if t[1] == 'r' then Some(('\r', 2))
    else if t[1] == 't' then Some(('\t', 2))
    else if t[1] != 'u' || |t| < 6 then None
    else match ParseHex4(t[2..6])
      case None => None
      case Some(u) =>
        if u < 0xD800 || 0xE000 <= u then Some((u as char, 6))
        else if 0xDC00 <= u || |t| < 12 || t[6] != '\\' || t[7] != 'u' then None
        else match ParseHex4(t[8..12])
          case None => None
          case Some(w) =>
            if 0xDC00 <= w < 0xE000 then Some(((0x10000 + (u - 0xD800) * 1024 + (w - 0xDC00)) as char, 12))
            else None
  }

  /** Reads a whole string literal body (json.loads of a quoted string, inside the quotes). */
  function Unescape(t: string): Option<string>
    decreases |t|
  {
    if t == [] then Some([])
    else match UnescapeStep(t)
      case None => None
      case Some((c, k)) =>
        match Unescape(t[k..])
        case None => None
        case Some(rest) => Some([c] + rest)
  }

  /** Every escape reads back as the character it was written for. */
  lemma UnescapeEscapeChar(c: char, rest: string)
    ensures UnescapeStep(EscapeChar(c) + rest) == Some((c, |EscapeChar(c)|))
  {
    var t := EscapeChar(c) + rest;
    if c == '\\' || c == '"' || c == Backspace || c == FormFeed || c == '\n' || c == '\r' || c == '\t' {
    } else if ' ' <= c <= '~' {
    } else if c as int < 0x10000 {
      Hex4RoundTrip(c as int);
      assert t[2..6] == Hex4(c as int);
    } else {
      UnescapeSurrogatePair(c, rest);
    }
  }

  lemma UnescapeSurrogatePair(c: char, rest: string)
    requires 0x10000 <= c as int
    ensures UnescapeStep(EscapeChar(c) + rest) == Some((c, 12))
  {
    SurrogatesCombine(c);
    UnescapePair(HighSurrogate(c), LowSurrogate(c), rest);
  }

  /** The surrogate pair gives back the code point. */
  lemma SurrogatesCombine(c: char)
    requires 0x10000 <= c as int
    ensures 0x10000 + (HighSurrogate(c) - 0xD800) * 1024 + (LowSurrogate(c) - 0xDC00) == c as int
  {
  }

  /** A high and a low surrogate escape read back as the code point they encode. */
  lemma UnescapePair(hi: nat, lo: nat, rest: string)
    requires 0xD800 <= hi < 0xDC00 && 0xDC00 <= lo < 0xE000
    ensures UnescapeStep(UnicodeEscape(hi) + UnicodeEscape(lo) + rest) ==
      Some(((0x10000 + (hi - 0xD800) * 1024 + (lo - 0xDC00)) as char, 12))
  {
    var t := UnicodeEscape(hi) + UnicodeEscape(lo) + rest;
    Hex4RoundTrip(hi);
    Hex4RoundTrip(lo);
    assert |t| >= 12 && t[0] == '\\' && t[1] == 'u' && t[6] == '\\' && t[7] == 'u';
    assert t[2..6] == Hex4(hi);
    assert t[8..12] == Hex4(lo);
  }

  /** Reading back an escaped string gives the original string. */
  lemma {:induction false} EscapeRoundTrip(s: string)
    ensures Unescape(Escape(s)) == Some(s)
  {
    if s != [] {
      var e := Escape(s);
      UnescapeEscapeChar(s[0], Escape(s[1..]));
      assert e[|EscapeChar(s[0])|..] == Escape(s[1..]);
      EscapeRoundTrip(s[1..]);
      assert s == [s[0]] + s[1..];
    }
  }
}
