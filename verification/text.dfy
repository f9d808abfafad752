/** The string kernel the system relies on: ASCII case mapping (`str.lower`,
    `str.upper`), whitespace stripping (`str.strip`), splitting on one
    character (`str.split(',')`), joining (`', '.join(...)`) and decimal
    rendering of integers (`str(n)`, f-string `{n}`). Only ASCII letters change
    case and only ASCII whitespace is stripped. */
module Text {

  predicate IsUpper(c: char) { 'A' <= c <= 'Z' }

  predicate IsLower(c: char) { 'a' <= c <= 'z' }

  function LowerChar(c: char): char
  {
    if IsUpper(c) then (c as int + 32) as char else c
  }

  function UpperChar(c: char): char
  {
    if IsLower(c) then (c as int - 32) as char else c
  }

  /** `s.lower()` restricted to ASCII. */
  function Lower(s: string): (r: string)
    ensures |r| == |s|
    ensures forall i :: 0 <= i < |s| ==> r[i] == LowerChar(s[i])
  {
    seq(|s|, i requires 0 <= i < |s| => LowerChar(s[i]))
  }

  /** `s.upper()` restricted to ASCII. */
  function Upper(s: string): (r: string)
    ensures |r| == |s|
    ensures forall i :: 0 <= i < |s| ==> r[i] == UpperChar(s[i])
  {
    seq(|s|, i requires 0 <= i < |s| => UpperChar(s[i]))
  }

  /** The ASCII characters for which Python's `str.isspace()` holds:
      tab, line feed, vertical tab, form feed, carriage return, the four
      separators 0x1C-0x1F and the space. */
  predicate IsSpace(c: char)
  {
    (9 <= c as int <= 13) || (28 <= c as int <= 32)
  }

  ghost predicate AllSpace(s: string)
  {
    forall i :: 0 <= i < |s| ==> IsSpace(s[i])
  }

  /** Length of the run of whitespace at the start of `s`. */
  function LeadLen(s: string): (n: nat)
    ensures n <= |s|
    ensures AllSpace(s[..n])
    ensures n < |s| ==> !IsSpace(s[n])
  {
    if s == [] || !IsSpace(s[0]) then 0 else 1 + LeadLen(s[1..])
  }

  /** Length of the run of whitespace at the end of `s`. */
  function TrailLen(s: string): (n: nat)
    ensures n <= |s|
    ensures AllSpace(s[|s| - n..])
    ensures n < |s| ==> !IsSpace(s[|s| - n - 1])
  {
    if s == [] || !IsSpace(s[|s| - 1]) then 0
    else
      var n := TrailLen(s[..|s| - 1]);
      TrailSnoc(s, n);
      1 + n
  }

  /** A whitespace character after a whitespace run extends the run by one. */
  lemma TrailSnoc(s: string, n: nat)
    requires s != [] && IsSpace(s[|s| - 1]) && n <= |s| - 1
    requires AllSpace(s[..|s| - 1][|s| - 1 - n..])
    ensures AllSpace(s[|s| - (n + 1)..])
  {
    assert s[|s| - (n + 1)..] == s[..|s| - 1][|s| - 1 - n..] + [s[|s| - 1]];
  }

  /** `s.strip()`: the result is the middle slice of `s` that remains once the
      whitespace at both ends is removed, and it neither starts nor ends with
      whitespace. */
  function Strip(s: string): (r: string)
    ensures exists a, b :: 0 <= a <= b <= |s| && r == s[a..b] && AllSpace(s[..a]) && AllSpace(s[b..])
    ensures r == [] || (!IsSpace(r[0]) && !IsSpace(r[|r| - 1]))
  {
    var a := LeadLen(s);
    var t := s[a..];
    var b := a + |t| - TrailLen(t);
    assert s[a..b] == t[..|t| - TrailLen(t)];
    assert s[b..] == t[|t| - TrailLen(t)..];
    t[..|t| - TrailLen(t)]
  }

  function CountChar(s: string, c: char): nat
  {
    if s == [] then 0 else (if s[0] == c then 1 else 0) + CountChar(s[1..], c)
  }

  /** `s.split(sep)` for a one-character separator: the segments between
      consecutive occurrences of `sep`, empty segments included. */
  function Split(s: string, sep: char): (r: seq<string>)
    ensures |r| == CountChar(s, sep) + 1
    ensures forall i :: 0 <= i < |r| ==> sep !in r[i]
  {
    if s == [] then [[]]
    else
      var rest := Split(s[1..], sep);
      if s[0] == sep then [[]] + rest
      else [[s[0]] + rest[0]] + rest[1..]
  }

  /** `sep.join(parts)`. */
  function Join(sep: string, parts: seq<string>): string
  {
    if |parts| == 0 then ""
    else if |parts| == 1 then parts[0]
    else parts[0] + sep + Join(sep, parts[1..])
  }

  /** Splitting and joining back with the same separator loses nothing. */
  lemma {:induction false} JoinSplit(s: string, sep: char)
    ensures Join([sep], Split(s, sep)) == s
  {
    if s != [] {
      var rest := Split(s[1..], sep);
      JoinSplit(s[1..], sep);
      if s[0] == sep {
        assert ([[]] + rest)[1..] == rest;
      } else {
        var first := [s[0]] + rest[0];
        assert ([first] + rest[1..])[1..] == rest[1..];
        if |rest| > 1 {
          assert Join([sep], rest) == rest[0] + [sep] + Join([sep], rest[1..]);
        }
      }
    }
  }

  function DigitChar(d: nat): char
    requires d < 10
  {
    ('0' as int + d) as char
  }

  predicate IsDigit(c: char) { '0' <= c <= '9' }

  /** Decimal rendering of a natural number, as Python's `str(n)`. */
  function NatToString(n: nat): (r: string)
    ensures |r| > 0
    ensures forall i :: 0 <= i < |r| ==> IsDigit(r[i])
  {
    if n < 10 then [DigitChar(n)] else NatToString(n / 10) + [DigitChar(n % 10)]
  }

  /** Decimal rendering of an integer, with a leading '-' when negative. */
  function IntToString(i: int): (r: string)
    ensures |r| > 0
    ensures forall k :: 0 <= k < |r| ==> IsDigit(r[k]) || r[k] == '-'
  {
    if i < 0 then "-" + NatToString(-i) else NatToString(i)
  }

  /** Python's `c * n` for a one-character string. */
  function Repeat(c: char, n: nat): (r: string)
    ensures |r| == n
    ensures forall i :: 0 <= i < n ==> r[i] == c
  {
    seq(n, _ => c)
  }
}
