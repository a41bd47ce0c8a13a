/** Text helpers: Python's `str.join`, `str.replace("\n", " ")`, `str(int)` and the `\w` class. */
module Strings {

  /** `sep.join(parts)`. */
  function Join(sep: string, parts: seq<string>): (r: string)
    ensures |parts| == 0 ==> r == ""
    ensures |parts| == 1 ==> r == parts[0]
  {
    if |parts| == 0 then ""
    else if |parts| == 1 then parts[0]
    else parts[0] + sep + Join(sep, parts[1..])
  }

  /** Appending one part to a non-empty list adds exactly the separator and that part. */
  lemma {:induction false} JoinSnoc(sep: string, parts: seq<string>, p: string)
    requires |parts| > 0
    ensures Join(sep, parts + [p]) == Join(sep, parts) + sep + p
  {
    if |parts| == 1 {
      assert parts + [p] == [parts[0], p];
    } else {
      assert (parts + [p])[1..] == parts[1..] + [p];
      JoinSnoc(sep, parts[1..], p);
    }
  }

  /** Joining two non-empty lists is joining their joins. */
  lemma {:induction false} JoinConcat(sep: string, a: seq<string>, b: seq<string>)
    requires |a| > 0 && |b| > 0
    ensures Join(sep, a + b) == Join(sep, a) + sep + Join(sep, b)
  {
    if |b| == 1 {
      assert b == [b[0]];
      JoinSnoc(sep, a, b[0]);
    } else {
      var init := b[..|b| - 1];
      assert b == init + [b[|b| - 1]];
      assert a + b == (a + init) + [b[|b| - 1]];
      JoinConcat(sep, a, init);
      JoinSnoc(sep, a + init, b[|b| - 1]);
      JoinSnoc(sep, init, b[|b| - 1]);
    }
  }

  /** True when `s` begins with `p`. */
  predicate StartsWith(s: string, p: string) {
    |p| <= |s| && s[..|p|] == p
  }

  /** True when `s` ends with `p`. */
  predicate EndsWith(s: string, p: string) {
    |p| <= |s| && s[|s| - |p|..] == p
  }

  /** A text built as `p + m + q` begins with `p` and ends with `q`. */
  lemma {:induction false} Affixes(p: string, m: string, q: string)
    ensures StartsWith(p + m + q, p) && EndsWith(p + m + q, q)
  {
    assert (p + m + q)[..|p|] == p;
    assert (p + m + q)[|p + m + q| - |q|..] == q;
  }

  /** Putting text in front keeps what a text ends with. */
  lemma {:induction false} EndsWithAfter(a: string, b: string, q: string)
    requires EndsWith(b, q)
    ensures EndsWith(a + b, q)
  {
    assert (a + b)[|a + b| - |q|..] == b[|b| - |q|..];
  }

  /** Appending text keeps what a text begins with. */
  lemma {:induction false} StartsWithBefore(s: string, t: string, p: string)
    requires StartsWith(s, p)
    ensures StartsWith(s + t, p)
  {
    assert (s + t)[..|p|] == s[..|p|];
  }

  /** Beginning with a text that begins with `q` is beginning with `q`. */
  lemma {:induction false} StartsWithTrans(s: string, p: string, q: string)
    requires StartsWith(s, p) && StartsWith(p, q)
    ensures StartsWith(s, q)
  {
    assert s[..|q|] == s[..|p|][..|q|];
  }

  /** A join begins with its first part and ends with its last. */
  lemma {:induction false} JoinEnds(sep: string, parts: seq<string>)
    requires |parts| > 0
    ensures StartsWith(Join(sep, parts), parts[0])
    ensures EndsWith(Join(sep, parts), parts[|parts| - 1])
  {
    if |parts| > 1 {
      var rest := parts[1..];
      JoinEnds(sep, rest);
      var r := Join(sep, parts);
      var tail := Join(sep, rest);
      assert r == parts[0] + (sep + tail);
      assert r[..|parts[0]|] == parts[0];
      assert rest[|rest| - 1] == parts[|parts| - 1];
      assert r[|r| - |parts[|parts| - 1]|..] == tail[|tail| - |parts[|parts| - 1]|..];
    }
  }

  /** True of a character matched by the regular-expression class `\w` (ASCII part). */
  predicate IsWordChar(c: char) {
    ('a' <= c <= 'z') || ('A' <= c <= 'Z') || ('0' <= c <= '9') || c == '_'
  }

  /** True of a string matched in full by `\w+`. */
  predicate IsWord(s: string) {
    |s| > 0 && forall i :: 0 <= i < |s| ==> IsWordChar(s[i])
  }

  /** True when `t` occurs in `s` as a contiguous piece. */
  ghost predicate IsInfix(t: string, s: string) {
    exists pre: string, post: string :: s == pre + t + post
  }

  /** A piece with text before and after it occurs in the whole. */
  lemma {:induction false} InfixOf(pre: string, t: string, post: string)
    ensures IsInfix(t, pre + t + post)
  {
  }

  /** Every part of a join occurs in the joined text. */
  lemma {:induction false} JoinContainsPart(sep: string, parts: seq<string>, i: nat)
    requires i < |parts|
    ensures IsInfix(parts[i], Join(sep, parts))
  {
    if |parts| == 1 {
      assert Join(sep, parts) == "" + parts[i] + "";
      InfixOf("", parts[i], "");
    } else if i == 0 {
      assert Join(sep, parts) == "" + parts[0] + (sep + Join(sep, parts[1..]));
      InfixOf("", parts[0], sep + Join(sep, parts[1..]));
    } else {
      JoinContainsPart(sep, parts[1..], i - 1);
      var pre: string, post: string :| Join(sep, parts[1..]) == pre + parts[1..][i - 1] + post;
      assert Join(sep, parts) == (parts[0] + sep + pre) + parts[i] + post;
      InfixOf(parts[0] + sep + pre, parts[i], post);
    }
  }

  /** The decimal digit for `d`. */
  function Digit(d: nat): (c: char)
    requires d < 10
    ensures '0' <= c <= '9'
    ensures c as int - '0' as int == d
  {
    ('0' as int + d) as char
  }

  /** Text made of decimal digits only. */
  predicate IsDigits(s: string) {
    forall i :: 0 <= i < |s| ==> '0' <= s[i] <= '9'
  }

  /** The number a run of decimal digits denotes, most significant first. */
  function DigitsValue(s: string): nat
    requires IsDigits(s)
  {
    if |s| == 0 then 0 else DigitsValue(s[..|s| - 1]) * 10 + (s[|s| - 1] as int - '0' as int)
  }

  /** The text of a Python `int`: digits, with a minus sign in front of a negative number. */
  predicate IsIntText(s: string) {
    |s| > 0 && if s[0] == '-' then |s| > 1 && IsDigits(s[1..]) else IsDigits(s)
  }

  /** The number such a text denotes. */
  function IntValue(s: string): int
    requires IsIntText(s)
  {
    if s[0] == '-' then -(DigitsValue(s[1..]) as int) else DigitsValue(s)
  }

  /** `str(n)` for a natural number: its decimal digits, most significant first, without
      leading zeros. */
  function NatToString(n: nat): (r: string)
    ensures |r| > 0 && IsDigits(r)
    ensures DigitsValue(r) == n
    ensures |r| > 1 ==> r[0] != '0'
    decreases n
  {
    if n < 10 then [Digit(n)]
    else
      var front := NatToString(n / 10);
      var r := front + [Digit(n % 10)];
      assert r[..|r| - 1] == front;
      r
  }

  /** A number's text with nothing extra: no leading zero, and no `-0`. */
  predicate IsCanonicalIntText(s: string) {
    IsIntText(s) && if s[0] == '-' then s[1] != '0' else |s| > 1 ==> s[0] != '0'
  }

  /** `str(i)` for a Python `int`: a minus sign before the digits of a negative number. */
  function IntToString(i: int): (r: string)
    ensures IsCanonicalIntText(r) && IntValue(r) == i
    ensures forall k :: 0 < k < |r| ==> '0' <= r[k] <= '9'
    ensures (r[0] == '-') <==> i < 0
  {
    if i < 0 then
      var r := "-" + NatToString(-i);
      assert r[1..] == NatToString(-i);
      r
    else NatToString(i)
  }

  /** Different numbers are written differently. */
  lemma {:induction false} IntToStringInjective(i: int, j: int)
    requires IntToString(i) == IntToString(j)
    ensures i == j
  {
  }

  /** Digits that do not start with `0` denote a positive number. */
  lemma {:induction false} LeadingDigitPositive(s: string)
    requires |s| > 0 && IsDigits(s) && s[0] != '0'
    ensures DigitsValue(s) >= 1
  {
    if |s| > 1 {
      LeadingDigitPositive(s[..|s| - 1]);
    }
  }

  /** Digits without a leading zero are the text of the number they denote. */
  lemma {:induction false} NatToStringCanonical(s: string)
    requires |s| > 0 && IsDigits(s) && (|s| > 1 ==> s[0] != '0')
    ensures NatToString(DigitsValue(s)) == s
  {
    var n := DigitsValue(s);
    if |s| > 1 {
      var front := s[..|s| - 1];
      assert '0' <= s[|s| - 1] <= '9';
      var d := s[|s| - 1] as int - '0' as int;
      LeadingDigitPositive(front);
      NatToStringCanonical(front);
      assert n / 10 == DigitsValue(front) && n % 10 == d;
      assert s == front + [Digit(d)];
    } else {
      assert s[..0] == [] && '0' <= s[0] <= '9';
      assert n == DigitsValue(s[..0]) * 10 + (s[0] as int - '0' as int) == s[0] as int - '0' as int;
      assert s == [Digit(n)];
    }
  }

  /** `str` is the only canonical text of a number: every canonical text is the rendering of
      the number it denotes. */
  lemma {:induction false} IntToStringCanonical(s: string)
    requires IsCanonicalIntText(s)
    ensures IntToString(IntValue(s)) == s
  {
    if s[0] == '-' {
      var digits := s[1..];
      LeadingDigitPositive(digits);
      NatToStringCanonical(digits);
      assert s == "-" + digits;
    } else {
      NatToStringCanonical(s);
    }
  }
}
