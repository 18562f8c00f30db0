/** Decimal rendering of naturals, as JavaScript's `Number.prototype.toString`
    and `padStart(2, "0")` produce it, with the matching parser. */
module Digits {

  import opened Wrappers

  predicate IsDigit(c: char) {
    '0' <= c <= '9'
  }

  predicate AllDigits(s: string) {
    forall i :: 0 <= i < |s| ==> IsDigit(s[i])
  }

  function DigitChar(d: nat): (c: char)
    requires d < 10
    ensures IsDigit(c)
  {
    "0123456789"[d]
  }

  function DigitValue(c: char): (d: nat)
    requires IsDigit(c)
    ensures d < 10
  {
    (c as int - '0' as int) as nat
  }

  /** `n.toString()` for a non-negative integer: no sign, no leading zeros. */
  function DecimalString(n: nat): (s: string)
    ensures |s| > 0 && AllDigits(s)
    ensures |s| > 1 ==> s[0] != '0'
    ensures n < 10 <==> |s| == 1
  {
    if n < 10 then [DigitChar(n)] else DecimalString(n / 10) + [DigitChar(n % 10)]
  }

  /** Reads a string of digits back as a natural number. */
  function ParseDecimal(s: string): nat
    requires AllDigits(s)
  {
    if s == [] then 0 else 10 * ParseDecimal(s[..|s| - 1]) + DigitValue(s[|s| - 1])
  }

  lemma DigitRoundTrip(d: nat)
    requires d < 10
    ensures DigitValue(DigitChar(d)) == d
  {
  }

  /** Rendering then parsing gives the number back. */
  lemma {:induction false} DecimalRoundTrip(n: nat)
    ensures ParseDecimal(DecimalString(n)) == n
  {
    DigitRoundTrip(n % 10);
    if n >= 10 {
      var s := DecimalString(n);
      assert s[..|s| - 1] == DecimalString(n / 10);
      DecimalRoundTrip(n / 10);
    }
  }

  /** `n.toString().padStart(2, "0")`: one leading zero below ten. */
  function Pad2(n: nat): (s: string)
    requires n < 100
    ensures |s| == 2 && AllDigits(s)
    ensures ParseDecimal(s) == n
  {
    DecimalRoundTrip(n);
    var d := DecimalString(n);
    if |d| >= 2 then d
    else
      assert ParseDecimal("0" + d) == ParseDecimal(d) by {
        assert ("0" + d)[..1] == "0";
      }
      "0" + d
  }

  /** Index of the first occurrence of `c` in `s`, if any. */
  function Find(s: string, c: char): (r: Option<nat>)
    ensures r.None? <==> c !in s
    ensures r.Some? ==> r.value < |s| && s[r.value] == c && c !in s[..r.value]
  {
    if s == [] then None
    else if s[0] == c then Some(0)
    else
      match Find(s[1..], c)
      case None => None
      case Some(i) =>
        assert s[1..][..i] == s[1..i + 1];
        Some(i + 1)
  }

  lemma FindAfterPrefix(p: string, c: char, rest: string)
    requires c !in p
    ensures Find(p + [c] + rest, c) == Some(|p|)
  {
    var s := p + [c] + rest;
    assert s[..|p|] == p;
    assert s[|p|] == c;
  }

  /** `lines.join(sep)`. */
  function Join(lines: seq<string>, sep: string): (r: string)
    ensures lines == [] ==> r == ""
    ensures |lines| > 0 ==> |r| >= |lines[|lines| - 1]|
  {
    if lines == [] then ""
    else if |lines| == 1 then lines[0]
    else Join(lines[..|lines| - 1], sep) + sep + lines[|lines| - 1]
  }

  /** `text.split(c)` for a one-character separator: the pieces between the
      occurrences of `c`, so there is always at least one. */
  function Split(s: string, c: char): (parts: seq<string>)
    ensures |parts| >= 1
  {
    if s == [] then [[]]
    else
      var rest := Split(s[1..], c);
      if s[0] == c then [[]] + rest else [[s[0]] + rest[0]] + rest[1..]
  }

  lemma {:induction false} SplitNoSeparator(y: string, c: char)
    requires c !in y
    ensures Split(y, c) == [y]
    decreases |y|
  {
    if y != [] {
      assert c !in y[1..] && y[0] != c;
      SplitNoSeparator(y[1..], c);
      assert [y[0]] + y[1..] == y;
    }
  }

  lemma {:induction false} SplitAfterSeparator(x: string, c: char, y: string)
    requires c !in y
    ensures Split(x + [c] + y, c) == Split(x, c) + [y]
    decreases |x|
  {
    var s := x + [c] + y;
    if x == [] {
      assert s[1..] == y;
      SplitNoSeparator(y, c);
    } else {
      assert s[1..] == x[1..] + [c] + y;
      SplitAfterSeparator(x[1..], c, y);
    }
  }

  /** Joining lines that do not contain the one-character separator can be
      undone by splitting on it: every line is there, in order. */
  lemma {:induction false} JoinSplit(lines: seq<string>, c: char)
    requires |lines| > 0 && forall l :: l in lines ==> c !in l
    ensures Split(Join(lines, [c]), c) == lines
    decreases |lines|
  {
    if |lines| == 1 {
      SplitNoSeparator(lines[0], c);
    } else {
      var init, last := lines[..|lines| - 1], lines[|lines| - 1];
      assert forall l :: l in init ==> l in lines;
      JoinSplit(init, c);
      SplitAfterSeparator(Join(init, [c]), c, last);
      assert init + [last] == lines;
    }
  }
}
