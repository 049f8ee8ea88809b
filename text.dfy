/**
 * The string primitives the packager relies on, written out as Python
 * defines them: str.split and str.join with a one-character separator,
 * str.replace, str(int) for non-negative integers, posixpath.join and
 * str.encode("utf-8"). Each comes with its inverse or an invariant.
 */
module Text {
  import opened Base

  /* ---------------- str.split / str.join ---------------- */

  /** Python's s.split(sep): the maximal runs between separators, never empty. */
  function Split(s: string, sep: char): (parts: seq<string>)
    ensures |parts| >= 1
    ensures forall i :: 0 <= i < |parts| ==> sep !in parts[i]
  {
    if s == [] then [""]
    else
      var rest := Split(s[1..], sep);
      if s[0] == sep then [""] + rest
      else [[s[0]] + rest[0]] + rest[1..]
  }

  /** Python's sep.join(parts). */
  function Join(parts: seq<string>, sep: char): string
  {
    if parts == [] then ""
    else if |parts| == 1 then parts[0]
    else parts[0] + [sep] + Join(parts[1..], sep)
  }

  /** Joining the pieces of a split gives back the original string. */
  lemma {:induction false} JoinSplit(s: string, sep: char)
    ensures Join(Split(s, sep), sep) == s
  {
    if s != [] {
      var rest := Split(s[1..], sep);
      JoinSplit(s[1..], sep);
      if s[0] == sep {
        assert Split(s, sep) == [""] + rest;
        assert Join([""] + rest, sep) == "" + [sep] + Join(rest, sep);
      } else {
        var parts := [[s[0]] + rest[0]] + rest[1..];
        assert Split(s, sep) == parts;
        if |rest| == 1 {
          assert Join(parts, sep) == [s[0]] + rest[0];
        } else {
          assert parts[1..] == rest[1..];
          assert Join(parts, sep) == [s[0]] + rest[0] + [sep] + Join(rest[1..], sep);
        }
      }
    }
  }

  /** Splitting a string that starts with a separator-free piece `a`. */
  lemma {:induction false} SplitPrepend(a: string, t: string, sep: char)
    requires sep !in a
    ensures Split(a + t, sep) == [a + Split(t, sep)[0]] + Split(t, sep)[1..]
  {
    if a != [] {
      SplitPrepend(a[1..], t, sep);
      var ts := Split(t, sep);
      var rest := Split(a[1..] + t, sep);
      assert a[0] in a;
      assert (a + t)[0] == a[0] != sep;
      assert (a + t)[1..] == a[1..] + t;
      assert rest == [a[1..] + ts[0]] + ts[1..];
      assert Split(a + t, sep) == [[a[0]] + rest[0]] + rest[1..];
      assert [a[0]] + (a[1..] + ts[0]) == a + ts[0];
    } else {
      assert a + t == t;
      assert a + Split(t, sep)[0] == Split(t, sep)[0];
      assert Split(t, sep) == [Split(t, sep)[0]] + Split(t, sep)[1..];
    }
  }

  /** A separator-free string splits into itself alone. */
  lemma SplitNoSeparator(a: string, sep: char)
    requires sep !in a
    ensures Split(a, sep) == [a]
  {
    SplitPrepend(a, "", sep);
    assert a + "" == a;
  }

  /** Splitting the join of separator-free pieces gives back the pieces. */
  lemma {:induction false} SplitJoin(parts: seq<string>, sep: char)
    requires |parts| >= 1
    requires forall i :: 0 <= i < |parts| ==> sep !in parts[i]
    ensures Split(Join(parts, sep), sep) == parts
  {
    if |parts| == 1 {
      SplitNoSeparator(parts[0], sep);
    } else {
      var tail := Join(parts[1..], sep);
      SplitJoin(parts[1..], sep);
      SplitPrepend(parts[0], [sep] + tail, sep);
      assert parts[0] + [sep] + tail == parts[0] + ([sep] + tail);
      assert ([sep] + tail)[1..] == tail;
      assert Split([sep] + tail, sep) == [""] + Split(tail, sep);
      assert parts[0] + "" == parts[0];
      assert parts == [parts[0]] + parts[1..];
    }
  }

  /** Joining n+m pieces is joining the first n, a separator, and the rest. */
  lemma {:induction false} JoinSplitAt(parts: seq<string>, n: nat, sep: char)
    requires 1 <= n < |parts|
    ensures Join(parts, sep) == Join(parts[..n], sep) + [sep] + Join(parts[n..], sep)
  {
    if n > 1 {
      JoinSplitAt(parts[1..], n - 1, sep);
      assert parts[1..][..n - 1] == parts[..n][1..];
      assert parts[1..][n - 1..] == parts[n..];
    }
  }

  /** Lines each followed by a newline, the way a text file holds them. */
  function Terminated(ls: seq<string>): (t: string)
    ensures ls != [] ==> |t| >= 1 && t[|t| - 1] == '\n'
  {
    if ls == [] then "" else ls[0] + "\n" + Terminated(ls[1..])
  }

  /** Splitting newline-terminated lines at newlines gives the lines and a final empty piece. */
  lemma {:induction false} SplitTerminated(ls: seq<string>)
    requires forall i :: 0 <= i < |ls| ==> '\n' !in ls[i]
    ensures Split(Terminated(ls), '\n') == ls + [""]
  {
    if ls != [] {
      var rest := Terminated(ls[1..]);
      SplitTerminated(ls[1..]);
      SplitPrepend(ls[0], "\n" + rest, '\n');
      assert ls[0] + "\n" + rest == ls[0] + ("\n" + rest);
      assert ("\n" + rest)[1..] == rest;
      assert Split("\n" + rest, '\n') == [""] + Split(rest, '\n');
      assert ls[0] + "" == ls[0];
      assert ls == [ls[0]] + ls[1..];
    }
  }

  /** A character that is neither a newline nor in any line is not in the text. */
  lemma {:induction false} TerminatedExcludes(ls: seq<string>, c: char)
    requires c != '\n' && forall i :: 0 <= i < |ls| ==> c !in ls[i]
    ensures c !in Terminated(ls)
  {
    if ls != [] {
      TerminatedExcludes(ls[1..], c);
    }
  }

  lemma {:induction false} TerminatedAscii(ls: seq<string>)
    requires forall i :: 0 <= i < |ls| ==> IsAscii(ls[i])
    ensures IsAscii(Terminated(ls))
  {
    if ls != [] {
      TerminatedAscii(ls[1..]);
      var t := Terminated(ls);
      var rest := Terminated(ls[1..]);
      assert t == ls[0] + "\n" + rest;
      forall i | 0 <= i < |t| ensures t[i] as int < 0x80 {
        if i < |ls[0]| {
          assert t[i] == ls[0][i];
        } else if i > |ls[0]| {
          assert t[i] == rest[i - |ls[0]| - 1];
        }
      }
    }
  }

  /** The text ends with its last line and that line's newline. */
  lemma {:induction false} TerminatedEnd(ls: seq<string>)
    requires ls != []
    ensures var t := Terminated(ls); var last := ls[|ls| - 1];
      |t| >= |last| + 1 && t[|t| - |last| - 1..] == last + "\n"
  {
    if |ls| > 1 {
      TerminatedEnd(ls[1..]);
      assert ls[1..][|ls| - 2] == ls[|ls| - 1];
    } else {
      assert Terminated(ls) == ls[0] + "\n" + "";
    }
  }

  /* ---------------- str.replace ---------------- */

  /** Python's s.replace(from, to) for one-character `from` and `to` (used for os.sep). */
  function ReplaceChar(s: string, from: char, to: char): (r: string)
    ensures |r| == |s|
    ensures forall i :: 0 <= i < |s| ==> r[i] == (if s[i] == from then to else s[i])
  {
    if s == [] then [] else [if s[0] == from then to else s[0]] + ReplaceChar(s[1..], from, to)
  }

  /** Replacing a character by itself changes nothing (os.path.sep is already '/' on POSIX). */
  lemma ReplaceCharSame(s: string, c: char)
    ensures ReplaceChar(s, c, c) == s
  {
  }

  /**
   * Python's s.replace("\r\n", "\n"): one left-to-right scan over
   * non-overlapping occurrences, so "\r\r\n" becomes "\r\n".
   */
  function ReplaceCrlf(s: string): (r: string)
    ensures |r| <= |s|
  {
    if |s| >= 2 && s[0] == '\r' && s[1] == '\n' then "\n" + ReplaceCrlf(s[2..])
    else if s == [] then []
    else [s[0]] + ReplaceCrlf(s[1..])
  }

  /** `s` with every carriage return deleted. */
  function DropCr(s: string): (r: string)
    ensures '\r' !in r
  {
    if s == [] then [] else (if s[0] == '\r' then [] else [s[0]]) + DropCr(s[1..])
  }

  /** The replacement deletes carriage returns and nothing else. */
  lemma {:induction false} ReplaceCrlfOnlyDropsCr(s: string)
    ensures DropCr(ReplaceCrlf(s)) == DropCr(s)
  {
    if |s| >= 2 && s[0] == '\r' && s[1] == '\n' {
      ReplaceCrlfOnlyDropsCr(s[2..]);
      assert s[1..][1..] == s[2..];
      assert DropCr(s) == DropCr(s[1..]) == [s[1]] + DropCr(s[2..]);
      assert ("\n" + ReplaceCrlf(s[2..]))[1..] == ReplaceCrlf(s[2..]);
    } else if s != [] {
      ReplaceCrlfOnlyDropsCr(s[1..]);
      assert ([s[0]] + ReplaceCrlf(s[1..]))[1..] == ReplaceCrlf(s[1..]);
    }
  }

  /** Text without carriage returns is left as it is. */
  lemma {:induction false} ReplaceCrlfWithoutCr(s: string)
    requires '\r' !in s
    ensures ReplaceCrlf(s) == s
  {
    if s != [] {
      assert s[0] in s;
      assert '\r' !in s[1..] by { forall i | 0 <= i < |s[1..]| ensures s[1..][i] != '\r' { assert s[1..][i] == s[i + 1]; } }
      ReplaceCrlfWithoutCr(s[1..]);
    }
  }

  /**
   * Every CRLF is replaced where it stands: the text before it and the text
   * after it are replaced independently, so a CR not followed by LF stays.
   */
  lemma ReplaceCrlfSplice(a: string, b: string)
    ensures ReplaceCrlf(a + "\r\n" + b) == ReplaceCrlf(a) + "\n" + ReplaceCrlf(b)
  {
    var t := "\r\n" + b;
    SpliceBefore(a, t);
    assert t[2..] == b;
    assert a + "\r\n" + b == a + t;
  }

  /** The same, for any text `t` that starts with CRLF. */
  lemma {:induction false} SpliceBefore(a: string, t: string)
    requires |t| >= 2 && t[0] == '\r' && t[1] == '\n'
    ensures ReplaceCrlf(a + t) == ReplaceCrlf(a) + "\n" + ReplaceCrlf(t[2..])
  {
    if a == [] {
      assert a + t == t;
    } else if |a| >= 2 && a[0] == '\r' && a[1] == '\n' {
      SpliceBefore(a[2..], t);
      SpliceAfterCrlf(a, t);
    } else {
      SpliceBefore(a[1..], t);
      SpliceAfterChar(a, t);
    }
  }

  lemma SpliceAfterCrlf(a: string, t: string)
    requires |a| >= 2 && a[0] == '\r' && a[1] == '\n'
    requires |t| >= 2 && t[0] == '\r' && t[1] == '\n'
    requires ReplaceCrlf(a[2..] + t) == ReplaceCrlf(a[2..]) + "\n" + ReplaceCrlf(t[2..])
    ensures ReplaceCrlf(a + t) == ReplaceCrlf(a) + "\n" + ReplaceCrlf(t[2..])
  {
    ConcatTail(a, t, 2);
    ReplaceFirst(a + t);
    ReplaceFirst(a);
    Regroup("\n", ReplaceCrlf(a[2..]), ReplaceCrlf(t[2..]));
  }

  lemma SpliceAfterChar(a: string, t: string)
    requires a != [] && !(|a| >= 2 && a[0] == '\r' && a[1] == '\n')
    requires |t| >= 2 && t[0] == '\r' && t[1] == '\n'
    requires ReplaceCrlf(a[1..] + t) == ReplaceCrlf(a[1..]) + "\n" + ReplaceCrlf(t[2..])
    ensures ReplaceCrlf(a + t) == ReplaceCrlf(a) + "\n" + ReplaceCrlf(t[2..])
  {
    ConcatTail(a, t, 1);
    assert (a + t)[0] == a[0];
    assert !((a + t)[0] == '\r' && (a + t)[1] == '\n') by {
      if |a| == 1 { assert (a + t)[1] == t[0]; } else { assert (a + t)[1] == a[1]; }
    }
    ReplaceFirst(a + t);
    ReplaceFirst(a);
    Regroup([a[0]], ReplaceCrlf(a[1..]), ReplaceCrlf(t[2..]));
  }

  /** Dropping the first k characters of a + t, for k within a. */
  lemma ConcatTail(a: string, t: string, k: nat)
    requires k <= |a|
    ensures (a + t)[k..] == a[k..] + t
  {
  }

  lemma Regroup(c: string, x: string, y: string)
    ensures c + (x + "\n" + y) == (c + x) + "\n" + y
  {
  }

  /** One step of the scan: a leading CRLF becomes LF, any other first character is kept. */
  lemma ReplaceFirst(s: string)
    requires s != []
    ensures |s| >= 2 && s[0] == '\r' && s[1] == '\n' ==> ReplaceCrlf(s) == "\n" + ReplaceCrlf(s[2..])
    ensures !(|s| >= 2 && s[0] == '\r' && s[1] == '\n') ==> ReplaceCrlf(s) == [s[0]] + ReplaceCrlf(s[1..])
  {
  }

  /** The one case a naive "delete every CR" would get wrong. */
  lemma ReplaceCrlfKeepsLoneCr()
    ensures ReplaceCrlf("\r\r\n") == "\r\n"
  {
    ReplaceCrlfSplice("\r", "");
    ReplaceCrlfWithoutCr("");
    assert "\r" + "\r\n" + "" == "\r\r\n";
    assert ReplaceCrlf("\r") == "\r";
  }

  /* ---------------- str(int) ---------------- */

  function DigitChar(d: nat): (c: char)
    requires d < 10
    ensures '0' <= c <= '9' && c as int - '0' as int == d
  {
    ('0' as int + d) as char
  }

  predicate IsDigits(s: string)
  {
    forall i :: 0 <= i < |s| ==> '0' <= s[i] <= '9'
  }

  /** Python's str(n) for a non-negative integer: decimal, no leading zero. */
  function Decimal(n: nat): (s: string)
    ensures |s| >= 1 && IsDigits(s)
    ensures |s| > 1 ==> s[0] != '0'
  {
    if n < 10 then [DigitChar(n)] else Decimal(n / 10) + [DigitChar(n % 10)]
  }

  /** The number a string of decimal digits denotes. */
  function DecimalValue(s: string): nat
    requires IsDigits(s)
  {
    if s == [] then 0 else DecimalValue(s[..|s| - 1]) * 10 + (s[|s| - 1] as int - '0' as int)
  }

  /** Reading back the decimal rendering of n gives n. */
  lemma {:induction false} DecimalRoundTrip(n: nat)
    ensures DecimalValue(Decimal(n)) == n
  {
    if n >= 10 {
      DecimalRoundTrip(n / 10);
      var s := Decimal(n);
      assert s[..|s| - 1] == Decimal(n / 10);
    }
  }

  /** Distinct numbers render differently. */
  lemma DecimalInjective(m: nat, n: nat)
    requires Decimal(m) == Decimal(n)
    ensures m == n
  {
    DecimalRoundTrip(m);
    DecimalRoundTrip(n);
  }

  /* ---------------- posixpath.join ---------------- */

  /** Python's posixpath.join(a, b) for two components: the result always ends with `b`. */
  function PosixJoin(a: string, b: string): (r: string)
    ensures |b| <= |r| && r[|r| - |b|..] == b
  {
    if |b| > 0 && b[0] == '/' then b
    else if a == "" || a[|a| - 1] == '/' then a + b
    else a + "/" + b
  }

  /**
   * Below a directory that does not end in "/", joining a relative part is
   * the "/"-join of the two, the same join tar_addfile splits names at.
   */
  lemma PosixJoinIsJoin(a: string, b: string)
    requires a != "" && a[|a| - 1] != '/' && (b == "" || b[0] != '/')
    ensures PosixJoin(a, b) == Join([a, b], '/')
  {
    assert [a, b][1..] == [b];
  }

  /** An absolute second part discards the first; an empty first part adds nothing. */
  lemma PosixJoinAbsoluteOrEmpty(a: string, b: string)
    requires (b != "" && b[0] == '/') || a == ""
    ensures PosixJoin(a, b) == b
  {
  }

  /* ---------------- str.encode("utf-8") ---------------- */

  /** The UTF-8 encoding of one Unicode scalar value. */
  function EncodeChar(c: char): (bs: seq<byte>)
    ensures 1 <= |bs| <= 4
    ensures c as int < 0x80 <==> |bs| == 1
  {
    var n := c as int;
    if n < 0x80 then [n as byte]
    else if n < 0x800 then [(0xC0 + n / 64) as byte, (0x80 + n % 64) as byte]
    else if n < 0x10000 then
      [(0xE0 + n / 4096) as byte, (0x80 + (n / 64) % 64) as byte, (0x80 + n % 64) as byte]
    else
      [(0xF0 + n / 262144) as byte, (0x80 + (n / 4096) % 64) as byte,
       (0x80 + (n / 64) % 64) as byte, (0x80 + n % 64) as byte]
  }

  /** s.encode("utf-8"). */
  function Utf8(s: string): (bs: seq<byte>)
    ensures |s| <= |bs| <= 4 * |s|
  {
    if s == [] then [] else EncodeChar(s[0]) + Utf8(s[1..])
  }

  predicate IsAscii(s: string)
  {
    forall i :: 0 <= i < |s| ==> s[i] as int < 0x80
  }

  /** ASCII text encodes to one byte per character, each its code point. */
  lemma {:induction false} Utf8Ascii(s: string)
    requires IsAscii(s)
    ensures |Utf8(s)| == |s|
    ensures forall i :: 0 <= i < |s| ==> Utf8(s)[i] as int == s[i] as int
  {
    if s != [] {
      assert s[0] as int < 0x80;
      Utf8Ascii(s[1..]);
      assert forall i :: 1 <= i < |s| ==> s[1..][i - 1] == s[i];
    }
  }

  /** Decodes the UTF-8 sequence at the start of `bs`: the character and its byte length. */
  function DecodeChar(bs: seq<byte>): (r: Option<(char, nat)>)
    ensures r.Some? ==> 1 <= r.value.1 <= |bs|
  {
    if bs == [] then None
    else
      var b0 := bs[0] as int;
      if b0 < 0x80 then Some((b0 as char, 1))
      else if 0xC0 <= b0 < 0xE0 && |bs| >= 2 && IsContinuation(bs[1]) then
        var n := (b0 - 0xC0) * 64 + (bs[1] as int - 0x80);
        if n < 0x80 then None else Some((n as char, 2))
      else if 0xE0 <= b0 < 0xF0 && |bs| >= 3 && IsContinuation(bs[1]) && IsContinuation(bs[2]) then
        var n := ((b0 - 0xE0) * 64 + (bs[1] as int - 0x80)) * 64 + (bs[2] as int - 0x80);
        if n < 0x800 || 0xD800 <= n < 0xE000 then None else Some((n as char, 3))
      else if 0xF0 <= b0 < 0xF5 && |bs| >= 4 && IsContinuation(bs[1]) && IsContinuation(bs[2])
              && IsContinuation(bs[3]) then
        var n := (((b0 - 0xF0) * 64 + (bs[1] as int - 0x80)) * 64 + (bs[2] as int - 0x80)) * 64
                 + (bs[3] as int - 0x80);
        if 0x10000 <= n < 0x110000 then Some((n as char, 4)) else None
      else None
  }

  predicate IsContinuation(b: byte)
  {
    0x80 <= b as int < 0xC0
  }

  /** bytes.decode("utf-8") as a partial function. */
  function Utf8Decode(bs: seq<byte>): Option<string>
    decreases |bs|
  {
    if bs == [] then Some([])
    else match DecodeChar(bs)
      case None => None
      case Some((c, k)) =>
        match Utf8Decode(bs[k..])
        case None => None
        case Some(rest) => Some([c] + rest)
  }

  /** The decoder reads each encoded character back. */
  lemma DecodeEncodeChar(c: char, rest: seq<byte>)
    ensures DecodeChar(EncodeChar(c) + rest) == Some((c, |EncodeChar(c)|))
  {
    var n := c as int;
    if n < 0x80 {
    } else if n < 0x800 {
      DecodeTwo(c, rest);
    } else if n < 0x10000 {
      DecodeThree(c, rest);
    } else {
      DecodeFour(c, rest);
    }
  }

  lemma DecodeTwo(c: char, rest: seq<byte>)
    requires 0x80 <= c as int < 0x800
    ensures DecodeChar(EncodeChar(c) + rest) == Some((c, 2))
  {
    var n := c as int;
    assert (n / 64) * 64 + n % 64 == n;
  }

  lemma DecodeThree(c: char, rest: seq<byte>)
    requires 0x800 <= c as int < 0x10000
    ensures DecodeChar(EncodeChar(c) + rest) == Some((c, 3))
  {
    var n := c as int;
    var a, b, d := n / 4096, (n / 64) % 64, n % 64;
    assert n / 64 == a * 64 + b;
    assert (a * 64 + b) * 64 + d == n;
    var bs := EncodeChar(c) + rest;
    assert bs[0] as int == 0xE0 + a && bs[1] as int == 0x80 + b && bs[2] as int == 0x80 + d;
  }

  lemma DecodeFour(c: char, rest: seq<byte>)
    requires 0x10000 <= c as int
    ensures DecodeChar(EncodeChar(c) + rest) == Some((c, 4))
  {
    var n := c as int;
    var a, b, d, e := n / 262144, (n / 4096) % 64, (n / 64) % 64, n % 64;
    assert n / 4096 == a * 64 + b;
    assert n / 64 == (n / 4096) * 64 + d;
    assert ((a * 64 + b) * 64 + d) * 64 + e == n;
    var bs := EncodeChar(c) + rest;
    assert bs[0] as int == 0xF0 + a && bs[1] as int == 0x80 + b;
    assert bs[2] as int == 0x80 + d && bs[3] as int == 0x80 + e;
  }

  /** Decoding the UTF-8 encoding of a string gives the string back. */
  lemma {:induction false} Utf8RoundTrip(s: string)
    ensures Utf8Decode(Utf8(s)) == Some(s)
  {
    if s != [] {
      var bs := Utf8(s);
      DecodeEncodeChar(s[0], Utf8(s[1..]));
      assert bs[|EncodeChar(s[0])|..] == Utf8(s[1..]);
      Utf8RoundTrip(s[1..]);
      assert s == [s[0]] + s[1..];
    }
  }
}
