/** The string operations of Ruby's core that the List prompt relies on:
    `downcase`, `include?`, `to_i`, `Integer#to_s`, `split("\n", -1)` and
    `inspect`. Strings are sequences of characters. */
module Text {

  predicate IsPrefix(p: string, s: string) {
    |p| <= |s| && s[..|p|] == p
  }

  lemma PrefixOfAppend(a: string, b: string)
    ensures IsPrefix(a, a + b)
  {
    assert (a + b)[..|a|] == a;
  }

  predicate IsSuffix(suf: string, s: string) {
    |suf| <= |s| && s[|s| - |suf|..] == suf
  }

  lemma SuffixOfAppend(a: string, b: string)
    ensures IsSuffix(b, a + b)
  {
    assert (a + b)[|a|..] == b;
  }

  predicate NoNewline(s: string) {
    forall i :: 0 <= i < |s| ==> s[i] != '\n'
  }

  lemma NoNewlineAppend(a: string, b: string)
    requires NoNewline(a) && NoNewline(b)
    ensures NoNewline(a + b)
  {
    assert forall i :: 0 <= i < |a| ==> (a + b)[i] == a[i];
    assert forall i :: |a| <= i < |a + b| ==> (a + b)[i] == b[i - |a|];
  }

  // ---------------------------------------------------------------- downcase

  /** Lower-casing of one character; only ASCII letters change. */
  function Lower(c: char): char {
    if 'A' <= c <= 'Z' then (c as int + 32) as char else c
  }

  /** `String#downcase`, restricted to ASCII case mapping. */
  function Downcase(s: string): (r: string)
    ensures |r| == |s|
    ensures forall i :: 0 <= i < |s| ==> r[i] == Lower(s[i])
  {
    if s == [] then [] else [Lower(s[0])] + Downcase(s[1..])
  }

  lemma DowncaseAppend(a: string, b: string)
    ensures Downcase(a + b) == Downcase(a) + Downcase(b)
  {
  }

  // ---------------------------------------------------------------- include?

  /** `s.include?(sub)`: `sub` occurs somewhere in `s` as a contiguous block. */
  predicate Contains(s: string, sub: string)
    decreases |s|
  {
    IsPrefix(sub, s) || (|s| > 0 && Contains(s[1..], sub))
  }

  /** The recursive search agrees with the positional definition of a substring. */
  lemma {:induction false} ContainsAt(s: string, sub: string)
    ensures Contains(s, sub) <==> exists i :: 0 <= i <= |s| && IsPrefix(sub, s[i..])
    decreases |s|
  {
    if Contains(s, sub) {
      if IsPrefix(sub, s) {
        assert s[0..] == s;
      } else {
        ContainsAt(s[1..], sub);
        var j :| 0 <= j <= |s[1..]| && IsPrefix(sub, s[1..][j..]);
        assert s[1..][j..] == s[j + 1..];
      }
    }
    if exists i :: 0 <= i <= |s| && IsPrefix(sub, s[i..]) {
      var i :| 0 <= i <= |s| && IsPrefix(sub, s[i..]);
      if i == 0 {
        assert s[0..] == s;
      } else {
        assert s[1..][i - 1..] == s[i..];
        ContainsAt(s[1..], sub);
      }
    }
  }

  /** Whatever sits between two other pieces of a string occurs in it. */
  lemma ContainsMiddle(a: string, b: string, c: string)
    ensures Contains(a + (b + c), b)
  {
    var s := a + (b + c);
    assert s[|a|..][..|b|] == b;
    ContainsAt(s, b);
  }

  /** A string containing `a + b` contains `a`: lengthening a search pattern
      can only lose matches. */
  lemma {:induction false} ContainsDropSuffix(s: string, a: string, b: string)
    requires Contains(s, a + b)
    ensures Contains(s, a)
    decreases |s|
  {
    if IsPrefix(a + b, s) {
      assert s[..|a|] == (a + b)[..|a|] == a;
    } else {
      ContainsDropSuffix(s[1..], a, b);
    }
  }

  // ------------------------------------------------------- decimal numerals

  predicate IsDigit(c: char) {
    '0' <= c <= '9'
  }

  predicate AllDigits(s: string) {
    forall i :: 0 <= i < |s| ==> IsDigit(s[i])
  }

  function DigitChar(d: nat): (c: char)
    requires d < 10
    ensures IsDigit(c)
  {
    ('0' as int + d) as char
  }

  function DigitValue(c: char): (d: nat)
    requires IsDigit(c)
    ensures d < 10 && DigitChar(d) == c
  {
    c as int - '0' as int
  }

  /** `Integer#to_s` for a non-negative integer: its shortest decimal numeral. */
  function ToDecimal(n: nat): (r: string)
    ensures |r| >= 1 && AllDigits(r)
    ensures n >= 10 ==> r[0] != '0'
    decreases n
  {
    if n < 10 then [DigitChar(n)] else ToDecimal(n / 10) + [DigitChar(n % 10)]
  }

  /** `Integer#to_s` for any integer. */
  function IntToString(i: int): string {
    if i < 0 then "-" + ToDecimal(-i) else ToDecimal(i)
  }

  /** The value of a numeral, most significant digit first. */
  function DigitsValue(ds: string): nat
    requires AllDigits(ds)
  {
    if ds == [] then 0 else DigitsValue(ds[..|ds| - 1]) * 10 + DigitValue(ds[|ds| - 1])
  }

  /** The longest prefix of `s` made of decimal digits. */
  function LeadingDigits(s: string): (r: string)
    ensures IsPrefix(r, s) && AllDigits(r)
    ensures |r| < |s| ==> !IsDigit(s[|r|])
  {
    if s != [] && IsDigit(s[0]) then [s[0]] + LeadingDigits(s[1..]) else []
  }

  predicate IsSpace(c: char) {
    c == ' ' || c == '\t' || c == '\n' || c == '\r' || c as int == 12 || c as int == 11
  }

  function SkipSpace(s: string): (r: string)
    ensures |r| <= |s|
  {
    if s != [] && IsSpace(s[0]) then SkipSpace(s[1..]) else s
  }

  /** `String#to_i`: leading white space, an optional sign, then the longest
      run of decimal digits; a string without leading digits reads as 0. */
  function ToI(s: string): (r: int)
    ensures r < 0 ==> SkipSpace(s) != [] && SkipSpace(s)[0] == '-'
  {
    var t := SkipSpace(s);
    if t != [] && t[0] == '-' then -(DigitsValue(LeadingDigits(t[1..])) as int)
    else if t != [] && t[0] == '+' then DigitsValue(LeadingDigits(t[1..]))
    else DigitsValue(LeadingDigits(t))
  }

  lemma {:induction false} DigitsOfDecimal(n: nat)
    ensures DigitsValue(ToDecimal(n)) == n
    decreases n
  {
    if n >= 10 {
      var r := ToDecimal(n);
      assert r[..|r| - 1] == ToDecimal(n / 10);
      DigitsOfDecimal(n / 10);
    }
  }

  lemma {:induction false} LeadingDigitsOfNumeral(ds: string)
    requires AllDigits(ds)
    ensures LeadingDigits(ds) == ds
  {
    if ds != [] {
      LeadingDigitsOfNumeral(ds[1..]);
    }
  }

  /** `n.to_s.to_i == n`: the numeral the prompt prints for an index is read
      back as that index. */
  lemma DecimalRoundTrip(n: nat)
    ensures ToI(ToDecimal(n)) == n
  {
    var r := ToDecimal(n);
    assert SkipSpace(r) == r by { assert IsDigit(r[0]); }
    LeadingDigitsOfNumeral(r);
    DigitsOfDecimal(n);
  }

  // ------------------------------------------------------ split and join

  /** The fields of `s` between newlines, keeping empty ones. */
  function Fields(s: string): (r: seq<string>)
    ensures |r| >= 1
    ensures forall i :: 0 <= i < |r| ==> NoNewline(r[i])
    decreases |s|
  {
    if s == [] then [""]
    else if s[0] == '\n' then [""] + Fields(s[1..])
    else
      var rest := Fields(s[1..]);
      [[s[0]] + rest[0]] + rest[1..]
  }

  /** `s.split("\n", -1)`: every field including trailing empty ones, except
      that the empty string splits into no fields at all. */
  function SplitLines(s: string): seq<string> {
    if s == [] then [] else Fields(s)
  }

  /** `lines.join("\n")`. */
  function JoinLines(ls: seq<string>): string {
    if ls == [] then ""
    else if |ls| == 1 then ls[0]
    else ls[0] + "\n" + JoinLines(ls[1..])
  }

  lemma {:induction false} FieldsPrepend(w: string, s: string)
    requires NoNewline(w)
    ensures Fields(w + s) == [w + Fields(s)[0]] + Fields(s)[1..]
    decreases |w|
  {
    if w != [] {
      assert (w + s)[1..] == w[1..] + s;
      FieldsPrepend(w[1..], s);
      assert [w[0]] + (w[1..] + Fields(s)[0]) == w + Fields(s)[0];
    } else {
      var f := Fields(s);
      assert w + s == s && w + f[0] == f[0];
      assert f == [f[0]] + f[1..];
    }
  }

  /** Joining the fields of a string gives the string back. */
  lemma {:induction false} JoinFields(s: string)
    ensures JoinLines(Fields(s)) == s
    decreases |s|
  {
    if s != [] {
      JoinFields(s[1..]);
      var rest := Fields(s[1..]);
      if s[0] == '\n' {
        assert Fields(s) == [""] + rest;
        assert JoinLines(Fields(s)) == "" + "\n" + JoinLines(rest);
        assert s == "\n" + s[1..];
      } else if |rest| == 1 {
        assert s == [s[0]] + s[1..];
      } else {
        var r := Fields(s);
        var tail := JoinLines(rest[1..]);
        assert r[1..] == rest[1..];
        assert JoinLines(r) == ([s[0]] + rest[0]) + "\n" + tail;
        assert JoinLines(rest) == rest[0] + "\n" + tail;
        assert ([s[0]] + rest[0]) + "\n" + tail == [s[0]] + (rest[0] + "\n" + tail);
        assert s == [s[0]] + s[1..];
      }
    }
  }

  /** Splitting lines joined with newlines gives the lines back, provided no
      line holds a newline of its own. */
  lemma {:induction false} FieldsOfJoin(ls: seq<string>)
    requires |ls| >= 1
    requires forall i :: 0 <= i < |ls| ==> NoNewline(ls[i])
    ensures Fields(JoinLines(ls)) == ls
  {
    if |ls| == 1 {
      FieldsPrepend(ls[0], "");
      assert ls[0] + "" == ls[0];
    } else {
      var tail := JoinLines(ls[1..]);
      FieldsOfJoin(ls[1..]);
      assert Fields("\n" + tail) == [""] + Fields(tail) by {
        assert ("\n" + tail)[1..] == tail;
      }
      assert JoinLines(ls) == ls[0] + ("\n" + tail);
      FieldsPrepend(ls[0], "\n" + tail);
      assert ls[0] + "" == ls[0];
      assert ([""] + ls[1..])[1..] == ls[1..];
      assert ls == [ls[0]] + ls[1..];
    }
  }

  /** `split` and `join` are inverse on newline-free lines, except for the
      single empty line, which joins to the empty string. */
  lemma SplitJoin(ls: seq<string>)
    requires ls != [""]
    requires forall i :: 0 <= i < |ls| ==> NoNewline(ls[i])
    ensures SplitLines(JoinLines(ls)) == ls
  {
    if ls != [] {
      FieldsOfJoin(ls);
      if |ls| == 1 {
        assert ls[0] != "";
      }
    }
  }

  lemma JoinSplit(s: string)
    ensures JoinLines(SplitLines(s)) == s
  {
    JoinFields(s);
  }

  // ----------------------------------------------------------- inspect

  /** `\w` in a Ruby regular expression: an ASCII letter, digit or underscore. */
  predicate IsWordChar(c: char) {
    'a' <= c <= 'z' || 'A' <= c <= 'Z' || IsDigit(c) || c == '_'
  }

  function EscapeChar(c: char): (r: string)
    ensures NoNewline(r)
  {
    if c == '"' then "\\\""
    else if c == '\\' then "\\\\"
    else if c == '\n' then "\\n"
    else if c == '\t' then "\\t"
    else if c == '\r' then "\\r"
    else [c]
  }

  function Escape(s: string): (r: string)
    ensures NoNewline(r)
  {
    if s == [] then [] else EscapeChar(s[0]) + Escape(s[1..])
  }

  /** `String#inspect`: the string quoted, with quote, backslash and the
      common control characters escaped. The result never spans lines. */
  function Inspect(s: string): (r: string)
    ensures NoNewline(r)
  {
    "\"" + Escape(s) + "\""
  }

  /** A string of word characters inspects as itself between quotes. */
  lemma {:induction false} InspectWord(s: string)
    requires forall i :: 0 <= i < |s| ==> IsWordChar(s[i])
    ensures Inspect(s) == "\"" + s + "\""
  {
    EscapeWord(s);
  }

  lemma {:induction false} EscapeWord(s: string)
    requires forall i :: 0 <= i < |s| ==> IsWordChar(s[i])
    ensures Escape(s) == s
  {
    if s != [] {
      EscapeWord(s[1..]);
      assert s == [s[0]] + s[1..];
    }
  }
}
