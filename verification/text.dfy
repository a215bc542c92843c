/** The few Python string operations the core relies on: whitespace as
    `str.isspace` and the regex class `\s` see it, `strip`, `rstrip(c)`,
    `startswith`, `upper` and the decimal rendering of an int. */
module Text {

  /** The characters Python treats as whitespace in `str.strip()` and in the
      regex class `\s` of a str pattern. */
  predicate IsSpace(c: char) {
    || ('\t' <= c <= '\r')
    || ('\U{1C}' <= c <= ' ')
    || c == '\U{85}' || c == '\U{A0}' || c == '\U{1680}'
    || ('\U{2000}' <= c <= '\U{200A}')
    || c == '\U{2028}' || c == '\U{2029}' || c == '\U{202F}' || c == '\U{205F}'
    || c == '\U{3000}'
  }

  predicate AllSpace(s: string) {
    forall i :: 0 <= i < |s| ==> IsSpace(s[i])
  }

  predicate StartsWith(s: string, prefix: string) {
    |prefix| <= |s| && s[..|prefix|] == prefix
  }

  /** `s.lstrip()`: the suffix of `s` left after dropping leading whitespace. */
  function LStrip(s: string): (r: string)
    ensures |r| <= |s| && r == s[|s| - |r|..]
    ensures AllSpace(s[..|s| - |r|])
    ensures r == [] || !IsSpace(r[0])
    decreases |s|
  {
    if |s| > 0 && IsSpace(s[0]) then
      var r := LStrip(s[1..]);
      assert s[1..][..|s| - 1 - |r|] == s[1..|s| - |r|];
      r
    else s
  }

  /** `s.rstrip()`: the prefix of `s` left after dropping trailing whitespace. */
  function RStrip(s: string): (r: string)
    ensures |r| <= |s| && r == s[..|r|]
    ensures AllSpace(s[|r|..])
    ensures r == [] || !IsSpace(r[|r| - 1])
    decreases |s|
  {
    if |s| > 0 && IsSpace(s[|s| - 1]) then
      var init := s[..|s| - 1];
      var r := RStrip(init);
      assert s[|r|..] == init[|r|..] + [s[|s| - 1]];
      r
    else s
  }

  /** `s.strip()`: `rstrip` after `lstrip`. It neither starts nor ends with
      whitespace, and is empty exactly when `s` is all whitespace. */
  function Strip(s: string): (r: string)
    ensures |r| <= |s|
    ensures r == [] || (!IsSpace(r[0]) && !IsSpace(r[|r| - 1]))
    ensures r == [] <==> AllSpace(s)
  {
    var l := LStrip(s);
    var r := RStrip(l);
    StripEmptyIffAllSpace(s, l, r);
    StripEnds(l, r);
    r
  }

  lemma StripEmptyIffAllSpace(s: string, l: string, r: string)
    requires l == LStrip(s) && r == RStrip(l)
    ensures r == [] <==> AllSpace(s)
  {
    if r == [] {
      assert l[|r|..] == l;
      assert |l| == 0;
      assert s[..|s| - |l|] == s;
    } else {
      assert r[0] == s[|s| - |l|];
    }
  }

  lemma StripEnds(l: string, r: string)
    requires r == RStrip(l) && (l == [] || !IsSpace(l[0]))
    ensures r == [] || (!IsSpace(r[0]) && !IsSpace(r[|r| - 1]))
  {
    if r != [] { assert r[0] == l[0]; }
  }

  /** `s.rstrip(c)`: the prefix of `s` left after dropping every trailing `c`. */
  function TrimTrailing(s: string, c: char): (r: string)
    ensures |r| <= |s| && r == s[..|r|]
    ensures forall k :: |r| <= k < |s| ==> s[k] == c
    ensures r == [] || r[|r| - 1] != c
    decreases |s|
  {
    if |s| > 0 && s[|s| - 1] == c then TrimTrailing(s[..|s| - 1], c) else s
  }

  /** A character absent from `s` is absent from `s.strip()`: `strip` only
      removes characters. */
  lemma StripKeepsOut(s: string, c: char)
    requires c !in s
    ensures c !in Strip(s)
  {
    var l := LStrip(s);
    SliceKeepsOut(s, |s| - |l|, |s|, c);
    SliceKeepsOut(l, 0, |RStrip(l)|, c);
  }

  lemma SliceKeepsOut(s: string, lo: nat, hi: nat, c: char)
    requires lo <= hi <= |s| && c !in s
    ensures c !in s[lo..hi]
  {
    forall k | 0 <= k < hi - lo ensures s[lo..hi][k] != c {
      assert s[lo..hi][k] == s[lo + k];
    }
  }

  lemma {:induction false} LStripOfSpacesThenText(w: string, t: string)
    requires AllSpace(w)
    ensures LStrip(w + t) == LStrip(t)
    decreases |w|
  {
    if |w| > 0 {
      assert (w + t)[1..] == w[1..] + t;
      LStripOfSpacesThenText(w[1..], t);
    } else {
      assert w + t == t;
    }
  }

  lemma {:induction false} RStripOfTextThenSpaces(t: string, w: string)
    requires AllSpace(w)
    ensures RStrip(t + w) == RStrip(t)
    decreases |w|
  {
    if |w| > 0 {
      assert (t + w)[..|t + w| - 1] == t + w[..|w| - 1];
      RStripOfTextThenSpaces(t, w[..|w| - 1]);
    } else {
      assert t + w == t;
    }
  }

  /** Leading whitespace added to `t` after `lstrip` has removed it is removed
      again. */
  lemma {:induction false} LStripAppend(t: string, w: string)
    requires AllSpace(w)
    ensures LStrip(t + w) == if LStrip(t) == [] then [] else LStrip(t) + w
    decreases |t|
  {
    if |t| > 0 && IsSpace(t[0]) {
      assert (t + w)[1..] == t[1..] + w;
      LStripAppend(t[1..], w);
    } else if |t| == 0 {
      assert t + w == w;
      LStripOfSpacesThenText(w, []);
      assert w + [] == w;
    }
  }

  /** Dropping some of the leading whitespace does not change what `strip`
      returns. */
  lemma StripDropsLeadingSpace(x: string, n: nat)
    requires n <= |x| && AllSpace(x[..n])
    ensures Strip(x[n..]) == Strip(x)
  {
    assert x == x[..n] + x[n..];
    LStripOfSpacesThenText(x[..n], x[n..]);
  }

  /** Whitespace around a string does not change what `strip` returns. */
  lemma StripIgnoresSurroundingSpace(w1: string, t: string, w2: string)
    requires AllSpace(w1) && AllSpace(w2)
    ensures Strip(w1 + t + w2) == Strip(t)
  {
    assert w1 + t + w2 == w1 + (t + w2);
    LStripOfSpacesThenText(w1, t + w2);
    LStripAppend(t, w2);
    if LStrip(t) != [] {
      RStripOfTextThenSpaces(LStrip(t), w2);
    }
  }

  /** `str.upper()` on ASCII letters; every other character is kept. */
  function UpperChar(c: char): char {
    if 'a' <= c <= 'z' then (c as int - 'a' as int + 'A' as int) as char else c
  }

  function Upper(s: string): (r: string)
    ensures |r| == |s|
    ensures forall i :: 0 <= i < |s| ==> r[i] == UpperChar(s[i])
  {
    seq(|s|, i requires 0 <= i < |s| => UpperChar(s[i]))
  }

  function DigitChar(d: nat): char
    requires d < 10
  {
    "0123456789"[d]
  }

  predicate IsDigit(c: char) {
    '0' <= c <= '9'
  }

  /** The number a string of decimal digits spells, most significant first. */
  function DecimalValue(s: string): int
    decreases |s|
  {
    if |s| == 0 then 0 else DecimalValue(s[..|s| - 1]) * 10 + (s[|s| - 1] as int - '0' as int)
  }

  /** `str(n)` for a natural number: its decimal digits, no leading zero. */
  function NatToString(n: nat): (r: string)
    ensures |r| > 0 && forall i :: 0 <= i < |r| ==> IsDigit(r[i])
    ensures n > 0 ==> r[0] != '0'
    ensures r[0] == '0' ==> r == "0"
    ensures DecimalValue(r) == n
    decreases n
  {
    if n < 10 then
      [DigitChar(n)]
    else
      var front := NatToString(n / 10);
      assert (front + [DigitChar(n % 10)])[..|front|] == front;
      front + [DigitChar(n % 10)]
  }

  /** `str(n)` for any int, with a leading `-` when negative. */
  function IntToString(n: int): (r: string)
    ensures |r| > 0 && (r[0] == '-' <==> n < 0)
    ensures forall i :: 0 < i < |r| ==> IsDigit(r[i])
    ensures n >= 0 ==> IsDigit(r[0]) && (r[0] == '0' ==> r == "0")
    ensures n < 0 ==> |r| > 1 && r[1] != '0'
    ensures n >= 0 ==> DecimalValue(r) == n
    ensures n < 0 ==> DecimalValue(r[1..]) == -n
  {
    if n < 0 then
      var digits := NatToString(-n);
      assert ("-" + digits)[1..] == digits;
      "-" + digits
    else NatToString(n)
  }

  /** Different numbers render differently, so the status code in a message
      can be read back from it. */
  lemma IntToStringInjective(m: int, n: int)
    requires IntToString(m) == IntToString(n)
    ensures m == n
  {
    if m < 0 && n < 0 {
      assert DecimalValue(IntToString(m)[1..]) == -m;
    }
  }
}
