/**
 * String operations of Ruby's core library that the linter relies on:
 * Array#join, Integer#to_s, String#strip, String#inspect and the `$`
 * substitution applied to the quoted option string.
 */
module Text {
  import opened Wrappers

  // ---------------------------------------------------------------- join

  /** `parts.join(sep)` for parts that are already strings. */
  function Join(sep: string, parts: seq<string>): string
  {
    if parts == [] then "" else if |parts| == 1 then parts[0] else parts[0] + sep + Join(sep, parts[1..])
  }

  /**
   * The pieces of s between occurrences of c, empty ones kept. This is
   * `s.split(c, -1)` except on the empty string, where Ruby gives `[]` and
   * this gives `[""]`, so that splitting undoes Join on every non-empty list.
   */
  function Split(s: string, c: char): (r: seq<string>)
    ensures |r| >= 1
  {
    if s == [] then [""]
    else if s[0] == c then [""] + Split(s[1..], c)
    else var t := Split(s[1..], c); [[s[0]] + t[0]] + t[1..]
  }

  lemma {:induction false} SplitPlainPrefix(p: string, t: string, c: char)
    requires c !in p
    ensures Split(p + t, c) == [p + Split(t, c)[0]] + Split(t, c)[1..]
  {
    if p != [] {
      assert (p + t)[1..] == p[1..] + t;
      SplitPlainPrefix(p[1..], t, c);
      assert [p[0]] + (p[1..] + Split(t, c)[0]) == p + Split(t, c)[0];
    } else {
      assert p + t == t;
      assert p + Split(t, c)[0] == Split(t, c)[0];
      assert [Split(t, c)[0]] + Split(t, c)[1..] == Split(t, c);
    }
  }

  /**
   * Joining with a one-character separator can be undone by splitting, as long
   * as no part contains the separator: join does no escaping.
   */
  lemma {:induction false} SplitJoin(parts: seq<string>, c: char)
    requires parts != []
    requires forall i :: 0 <= i < |parts| ==> c !in parts[i]
    ensures Split(Join([c], parts), c) == parts
  {
    if |parts| == 1 {
      SplitPlainPrefix(parts[0], "", c);
      assert parts[0] + "" == parts[0];
    } else {
      var rest := Join([c], parts[1..]);
      SplitJoin(parts[1..], c);
      assert parts[0] + [c] + rest == parts[0] + ([c] + rest);
      SplitPlainPrefix(parts[0], [c] + rest, c);
      assert ([c] + rest)[1..] == rest;
      assert parts[0] + "" == parts[0];
      assert [parts[0]] + parts[1..] == parts;
    }
  }

  /** The limitation: a part holding the separator is indistinguishable from two parts. */
  lemma JoinDoesNotEscape()
    ensures Join(",", ["a,b"]) == Join(",", ["a", "b"])
  {
  }

  // ------------------------------------------------------------ integers

  predicate IsDigit(c: char) { '0' <= c <= '9' }

  function DigitChar(d: nat): char
    requires d < 10
  {
    "0123456789"[d]
  }

  /** `n.to_s` for n >= 0: decimal digits, no leading zero. */
  function NatText(n: nat): (r: string)
    ensures r != [] && (forall i :: 0 <= i < |r| ==> IsDigit(r[i]))
    ensures r[0] == '0' ==> n == 0 && r == "0"
  {
    if n < 10 then [DigitChar(n)] else NatText(n / 10) + [DigitChar(n % 10)]
  }

  /** `i.to_s` (also `i.inspect`): a minus sign for negatives, then the digits. */
  function DecimalText(i: int): string
  {
    if i < 0 then "-" + NatText(-i) else NatText(i)
  }

  /** The number a string of decimal digits denotes. */
  function DigitsValue(s: string): nat
    requires forall i :: 0 <= i < |s| ==> IsDigit(s[i])
  {
    if s == [] then 0
    else
      assert forall i :: 0 <= i < |s| - 1 ==> s[..|s| - 1][i] == s[i];
      var d := s[|s| - 1] as int - '0' as int;
      assert IsDigit(s[|s| - 1]);
      DigitsValue(s[..|s| - 1]) * 10 + d
  }

  /** The decimal text of n reads back as n. */
  lemma {:induction false} NatTextValue(n: nat)
    ensures DigitsValue(NatText(n)) == n
  {
    if n >= 10 {
      NatTextValue(n / 10);
      var t := NatText(n / 10) + [DigitChar(n % 10)];
      assert t[..|t| - 1] == NatText(n / 10);
    }
  }

  /** Length of the run of digits that s starts with. */
  function DigitRun(s: string): (k: nat)
    ensures k <= |s|
    ensures forall i :: 0 <= i < k ==> IsDigit(s[i])
    ensures k < |s| ==> !IsDigit(s[k])
  {
    if s != [] && IsDigit(s[0]) then 1 + DigitRun(s[1..]) else 0
  }

  lemma {:induction false} DigitRunOf(t: string, rest: string)
    requires forall i :: 0 <= i < |t| ==> IsDigit(t[i])
    requires rest == [] || !IsDigit(rest[0])
    ensures DigitRun(t + rest) == |t|
  {
    if t != [] {
      assert (t + rest)[1..] == t[1..] + rest;
      DigitRunOf(t[1..], rest);
    } else {
      assert t + rest == rest;
    }
  }

  /** Reads the longest run of digits s starts with, as a number. */
  function ParseDigits(s: string): (r: Option<(nat, string)>)
    ensures r.Some? ==> |r.value.1| < |s|
  {
    var k := DigitRun(s);
    if k == 0 then None else Some((DigitsValue(s[..k]), s[k..]))
  }

  /** Reads an optional minus sign and the longest run of digits after it. */
  function ParseInt(s: string): (r: Option<(int, string)>)
    ensures r.Some? ==> |r.value.1| < |s|
  {
    var neg := s != [] && s[0] == '-';
    var d := ParseDigits(if neg then s[1..] else s);
    if d.None? then None
    else
      var n: int := d.value.0;
      Some((if neg then -n else n, d.value.1))
  }

  /** Integer round trip: the decimal text of i, followed by a non-digit, reads back as i. */
  lemma ParseDecimalText(i: int, rest: string)
    requires rest == [] || !IsDigit(rest[0])
    ensures ParseInt(DecimalText(i) + rest) == Some((i, rest))
  {
    if i < 0 {
      var t := NatText(-i);
      assert DecimalText(i) == "-" + t;
      Associate("-", t, rest);
      ReadNatText(-i, rest);
      ParseNegative(i, t + rest, rest);
      calc {
        ParseInt(DecimalText(i) + rest);
        ParseInt("-" + (t + rest));
        Some((i, rest));
      }
    } else {
      ParseNonNegative(i, rest);
    }
  }

  lemma ParseNonNegative(n: nat, rest: string)
    requires rest == [] || !IsDigit(rest[0])
    ensures ParseInt(NatText(n) + rest) == Some((n, rest))
  {
    ReadNatText(n, rest);
    assert (NatText(n) + rest)[0] == NatText(n)[0];
  }

  lemma ParseNegative(i: int, u: string, rest: string)
    requires i <= 0 && ParseDigits(u) == Some((-i, rest))
    ensures ParseInt("-" + u) == Some((i, rest))
  {
    var s := "-" + u;
    assert s[0] == '-' && s[1..] == u;
  }

  lemma Associate(a: string, b: string, c: string)
    ensures a + b + c == a + (b + c)
  {
  }

  /** The digits of n, followed by a non-digit, split into exactly those digits and the rest. */
  lemma ReadNatText(n: nat, rest: string)
    requires rest == [] || !IsDigit(rest[0])
    ensures ParseDigits(NatText(n) + rest) == Some((n, rest))
  {
    var t := NatText(n);
    DigitRunOf(t, rest);
    NatTextValue(n);
    assert (t + rest)[..|t|] == t;
    assert (t + rest)[|t|..] == rest;
  }

  // --------------------------------------------------------------- strip

  /** What String#strip removes: NUL, tab, line feed, vertical tab, form feed, carriage return, space. */
  predicate IsStripSpace(c: char)
  {
    c == '\0' || c == '\t' || c == '\n' || c == '\U{0B}' || c == '\U{0C}' || c == '\r' || c == ' '
  }

  predicate AllSpace(s: string)
  {
    forall i :: 0 <= i < |s| ==> IsStripSpace(s[i])
  }

  /** Neither begins nor ends with a strippable character. */
  predicate Trimmed(s: string)
  {
    s == [] || (!IsStripSpace(s[0]) && !IsStripSpace(s[|s| - 1]))
  }

  /** How many strippable characters s starts with. */
  function LeadingSpace(s: string): (n: nat)
    ensures n <= |s| && AllSpace(s[..n])
    ensures n < |s| ==> !IsStripSpace(s[n])
  {
    if s != [] && IsStripSpace(s[0]) then
      var k := LeadingSpace(s[1..]);
      1 + k
    else 0
  }

  /** How many strippable characters s ends with. */
  function TrailingSpace(s: string): (n: nat)
    ensures n <= |s| && AllSpace(s[|s| - n..])
    ensures n < |s| ==> !IsStripSpace(s[|s| - n - 1])
  {
    if s != [] && IsStripSpace(s[|s| - 1]) then
      var t := s[..|s| - 1];
      var k := TrailingSpace(t);
      assert s[|s| - 1 - k..] == t[|t| - k..] + [s[|s| - 1]];
      1 + k
    else 0
  }

  /** `s.strip`: the text left once strippable characters are taken off both ends. */
  function Strip(s: string): (r: string)
    ensures Trimmed(r)
  {
    var t := s[LeadingSpace(s)..];
    t[..|t| - TrailingSpace(t)]
  }

  /** What strip returns sits in s between two runs of strippable characters. */
  lemma StripSplits(s: string) returns (i: nat)
    ensures i + |Strip(s)| <= |s|
    ensures s == s[..i] + Strip(s) + s[i + |Strip(s)|..]
    ensures AllSpace(s[..i]) && AllSpace(s[i + |Strip(s)|..])
  {
    i := LeadingSpace(s);
    var t := s[i..];
    var j := |t| - TrailingSpace(t);
    assert Strip(s) == t[..j] == s[i..i + j];
    assert AllSpace(t[j..]);
    assert t[j..] == s[i + j..];
    ThreeParts(s, i, i + j);
  }

  lemma ThreeParts(s: string, i: nat, j: nat)
    requires i <= j <= |s|
    ensures s == s[..i] + s[i..j] + s[j..]
  {
  }

  /** A run of strippable characters adds its length to the leading count. */
  lemma {:induction false} LeadingSpaceOf(p: string, m: string)
    requires AllSpace(p)
    ensures LeadingSpace(p + m) == |p| + LeadingSpace(m)
  {
    if p != [] {
      assert (p + m)[0] == p[0];
      assert (p + m)[1..] == p[1..] + m;
      LeadingSpaceOf(p[1..], m);
    } else {
      assert p + m == m;
    }
  }

  lemma {:induction false} TrailingSpaceOf(m: string, q: string)
    requires AllSpace(q)
    ensures TrailingSpace(m + q) == TrailingSpace(m) + |q|
  {
    if q != [] {
      assert (m + q)[|m + q| - 1] == q[|q| - 1];
      assert (m + q)[..|m + q| - 1] == m + q[..|q| - 1];
      TrailingSpaceOf(m, q[..|q| - 1]);
    } else {
      assert m + q == m;
    }
  }

  /**
   * strip removes exactly the surrounding strippable characters: a trimmed m
   * surrounded by any strippable characters strips to m.
   */
  lemma StripSurrounded(p: string, m: string, q: string)
    requires AllSpace(p) && AllSpace(q) && Trimmed(m)
    ensures Strip(p + m + q) == m
  {
    var s := p + m + q;
    if m == [] {
      assert s == p + q;
      assert AllSpace(p + q);
      LeadingSpaceOf(p + q, []);
      assert (p + q) + [] == p + q;
    } else {
      assert s == p + (m + q);
      LeadingSpaceOf(p, m + q);
      assert s[|p|..] == m + q;
      TrailingSpaceOf(m, q);
      assert (m + q)[..|m|] == m;
    }
  }

  // ------------------------------------------------------------- inspect

  function HexDigit(d: nat): char
    requires d < 16
  {
    "0123456789ABCDEF"[d]
  }

  /** The letter of the one-letter escape String#inspect uses for c, if any. */
  function NamedEscape(c: char): Option<char>
  {
    if c == '"' then Some('"')
    else if c == '\\' then Some('\\')
    else if c == '\n' then Some('n')
    else if c == '\r' then Some('r')
    else if c == '\t' then Some('t')
    else if c == '\U{0C}' then Some('f')
    else if c == '\U{0B}' then Some('v')
    else if c == '\U{08}' then Some('b')
    else if c == '\U{07}' then Some('a')
    else if c == '\U{1B}' then Some('e')
    else None
  }

  /** A control character without a one-letter escape, written as `\u00XX`. */
  predicate IsUnprintable(c: char)
  {
    NamedEscape(c).None? && (c < ' ' || c == '\U{7F}')
  }

  /** How String#inspect writes the first character of s (it looks one ahead for `#`). */
  function EscapeFirst(s: string): string
    requires s != []
  {
    var c := s[0];
    if c == '#' then (if |s| > 1 && (s[1] == '{' || s[1] == '$' || s[1] == '@') then "\\#" else "#")
    else if NamedEscape(c).Some? then ['\\', NamedEscape(c).value]
    else if IsUnprintable(c) then "\\u00" + [HexDigit(c as int / 16), HexDigit(c as int % 16)]
    else [c]
  }

  function InspectBody(s: string): string
  {
    if s == [] then [] else EscapeFirst(s) + InspectBody(s[1..])
  }

  /** `s.inspect` for a String: the escaped text between double quotes. */
  function Inspect(s: string): (r: string)
    ensures |r| >= 2 && r[0] == '"' && r[|r| - 1] == '"'
  {
    "\"" + InspectBody(s) + "\""
  }

  function HexValue(c: char): Option<nat>
  {
    if '0' <= c <= '9' then Some(c as int - '0' as int)
    else if 'A' <= c <= 'F' then Some(c as int - 'A' as int + 10)
    else None
  }

  /** The character a one-letter escape `\e` stands for, if it is one. */
  function SimpleEscape(e: char): Option<char>
  {
    if e == '"' then Some('"')
    else if e == '\\' then Some('\\')
    else if e == '#' then Some('#')
    else if e == 'n' then Some('\n')
    else if e == 'r' then Some('\r')
    else if e == 't' then Some('\t')
    else if e == 'f' then Some('\U{0C}')
    else if e == 'v' then Some('\U{0B}')
    else if e == 'b' then Some('\U{08}')
    else if e == 'a' then Some('\U{07}')
    else if e == 'e' then Some('\U{1B}')
    else None
  }

  function Cons(c: char, r: Option<(string, string)>): Option<(string, string)>
  {
    if r.None? then None else Some(([c] + r.value.0, r.value.1))
  }

  /**
   * Reads the inside of a double-quoted literal up to its closing quote:
   * the unescaped text and what follows the quote.
   */
  function ReadQuoted(s: string): (r: Option<(string, string)>)
    ensures r.Some? ==> |r.value.1| < |s|
    decreases |s|
  {
    if s == [] then None
    else if s[0] == '"' then Some(("", s[1..]))
    else if s[0] != '\\' then Cons(s[0], ReadQuoted(s[1..]))
    else if |s| < 2 then None
    else if s[1] == 'u' then
      if |s| < 6 then None
      else
        var h := [HexValue(s[2]), HexValue(s[3]), HexValue(s[4]), HexValue(s[5])];
        if h[0].None? || h[1].None? || h[2].None? || h[3].None? then None
        else
          var code := ((h[0].value * 16 + h[1].value) * 16 + h[2].value) * 16 + h[3].value;
          if code >= 0xD800 then None
          else Cons(code as char, ReadQuoted(s[6..]))
    else
      var e := SimpleEscape(s[1]);
      if e.None? then None else Cons(e.value, ReadQuoted(s[2..]))
  }

  /** Reads a whole double-quoted literal at the front of s. */
  function ReadLiteral(s: string): (r: Option<(string, string)>)
    ensures r.Some? ==> |r.value.1| < |s|
  {
    if s != [] && s[0] == '"' then ReadQuoted(s[1..]) else None
  }

  lemma EscapeFirstReads(s: string, rest: string)
    requires s != []
    ensures ReadQuoted(EscapeFirst(s) + rest) == Cons(s[0], ReadQuoted(rest))
  {
    var c := s[0];
    if c == '#' {
      if |s| > 1 && (s[1] == '{' || s[1] == '$' || s[1] == '@') {
        ReadSimpleEscape('#', rest);
      } else {
        ReadPlain(c, rest);
      }
    } else if NamedEscape(c).Some? {
      NamedEscapeInverse(c);
      ReadSimpleEscape(NamedEscape(c).value, rest);
    } else if IsUnprintable(c) {
      ReadUnicodeEscape(c, rest);
    } else {
      ReadPlain(c, rest);
    }
  }

  /** Every one-letter escape inspect writes, the reader maps back to its character. */
  lemma NamedEscapeInverse(c: char)
    requires NamedEscape(c).Some?
    ensures NamedEscape(c).value != 'u' && SimpleEscape(NamedEscape(c).value) == Some(c)
  {
  }

  lemma ReadPlain(c: char, rest: string)
    requires c != '"' && c != '\\'
    ensures ReadQuoted([c] + rest) == Cons(c, ReadQuoted(rest))
  {
    assert ([c] + rest)[1..] == rest;
  }

  lemma ReadSimpleEscape(e: char, rest: string)
    requires e != 'u' && SimpleEscape(e).Some?
    ensures ReadQuoted(['\\', e] + rest) == Cons(SimpleEscape(e).value, ReadQuoted(rest))
  {
    assert (['\\', e] + rest)[2..] == rest;
  }

  lemma ReadUnicodeEscape(c: char, rest: string)
    requires IsUnprintable(c)
    ensures ReadQuoted("\\u00" + [HexDigit(c as int / 16), HexDigit(c as int % 16)] + rest) == Cons(c, ReadQuoted(rest))
  {
    var n := c as int;
    var t := "\\u00" + [HexDigit(n / 16), HexDigit(n % 16)] + rest;
    assert t[0] == '\\' && t[1] == 'u' && t[2] == '0' && t[3] == '0';
    assert t[4] == HexDigit(n / 16) && t[5] == HexDigit(n % 16);
    assert HexValue(HexDigit(n / 16)) == Some(n / 16);
    assert HexValue(HexDigit(n % 16)) == Some(n % 16);
    assert t[6..] == rest;
  }

  /** What inspect escapes, the reader unescapes: the body reads back up to the closing quote. */
  lemma {:induction false} InspectBodyReads(s: string, rest: string)
    ensures ReadQuoted(InspectBody(s) + "\"" + rest) == Some((s, rest))
  {
    if s == [] {
      assert InspectBody(s) + "\"" + rest == "\"" + rest;
      assert ("\"" + rest)[1..] == rest;
    } else {
      var tail := InspectBody(s[1..]) + "\"" + rest;
      InspectBodyReads(s[1..], rest);
      assert InspectBody(s) + "\"" + rest == EscapeFirst(s) + tail;
      EscapeFirstReads(s, tail);
      assert [s[0]] + s[1..] == s;
    }
  }

  /** String round trip: `s.inspect` followed by anything reads back as s. */
  lemma InspectReads(s: string, rest: string)
    ensures ReadLiteral(Inspect(s) + rest) == Some((s, rest))
  {
    InspectBodyReads(s, rest);
    assert (Inspect(s) + rest)[1..] == InspectBody(s) + "\"" + rest;
  }

  // ---------------------------------------------------- `$` substitution

  /** `s.gsub(/\$/, "\\$")`: a backslash put in front of every dollar sign. */
  function EscapeDollars(s: string): (r: string)
    ensures forall i :: 0 <= i < |r| && r[i] == '$' ==> 0 < i && r[i - 1] == '\\'
  {
    if s == [] then []
    else
      var head: string := if s[0] == '$' then "\\$" else [s[0]];
      var t := EscapeDollars(s[1..]);
      assert forall i :: |head| <= i < |head + t| ==> (head + t)[i] == t[i - |head|];
      head + t
  }

  /** Removes the backslash in front of every dollar sign: the inverse of EscapeDollars. */
  function UnescapeDollars(s: string): string
  {
    if s == [] then []
    else if |s| >= 2 && s[0] == '\\' && s[1] == '$' then "$" + UnescapeDollars(s[2..])
    else [s[0]] + UnescapeDollars(s[1..])
  }

  /** Dollar escaping loses nothing: undoing it gives the text back. */
  lemma {:induction false} UnescapeEscapeDollars(s: string)
    ensures UnescapeDollars(EscapeDollars(s)) == s
  {
    if s != [] {
      UnescapeEscapeDollars(s[1..]);
      var t := EscapeDollars(s[1..]);
      if s[0] == '$' {
        assert ("\\$" + t)[2..] == t;
      } else {
        assert ([s[0]] + t)[1..] == t;
        assert t != [] ==> t[0] != '$' by {
          if t != [] && t[0] == '$' {
            assert false;
          }
        }
      }
    }
  }
}
