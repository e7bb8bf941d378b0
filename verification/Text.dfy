/** The string operations of Python that the bridge relies on: strip, rfind, substring tests and str(n). */
module Text {

  /** The characters that Python's str.strip() removes. */
  predicate IsSpace(c: char) {
    || c == ' ' || '\t' <= c <= '\r' || '\U{1c}' <= c <= '\U{1f}'
    || c == '\U{85}' || c == '\U{a0}' || c == '\U{1680}' || '\U{2000}' <= c <= '\U{200a}'
    || c == '\U{2028}' || c == '\U{2029}' || c == '\U{202f}' || c == '\U{205f}' || c == '\U{3000}'
  }

  /** The 29 whitespace characters of Python's str, one by one. */
  const WHITESPACE :=
    " \t\n\U{b}\U{c}\r\U{1c}\U{1d}\U{1e}\U{1f}\U{85}\U{a0}\U{1680}\U{2000}\U{2001}\U{2002}\U{2003}"
    + "\U{2004}\U{2005}\U{2006}\U{2007}\U{2008}\U{2009}\U{200a}\U{2028}\U{2029}\U{202f}\U{205f}\U{3000}"

  lemma SpaceIffListed(c: char, listed: string)
    requires listed == WHITESPACE
    ensures |listed| == 29 && (IsSpace(c) <==> c in listed)
  {
  }

  /** The delimiters of the bridge are whitespace; visible characters are not. */
  lemma SpaceOrNot(c: char)
    ensures c == ' ' || c == '\n' ==> IsSpace(c)
    ensures '!' <= c <= '~' ==> !IsSpace(c)
  {
  }

  predicate AllSpace(s: string) {
    forall i :: 0 <= i < |s| ==> IsSpace(s[i])
  }

  /** s.lstrip() */
  function LStrip(s: string): (r: string)
    ensures |r| <= |s|
  {
    if s != "" && IsSpace(s[0]) then LStrip(s[1..]) else s
  }

  /** lstrip() drops a whitespace prefix, all of it. */
  lemma {:induction false} LStripDropsPrefix(s: string)
    ensures |LStrip(s)| <= |s| && LStrip(s) == s[|s| - |LStrip(s)|..]
    ensures AllSpace(s[..|s| - |LStrip(s)|])
    ensures LStrip(s) != "" ==> !IsSpace(LStrip(s)[0])
  {
    if s != "" && IsSpace(s[0]) {
      LStripDropsPrefix(s[1..]);
      var r := LStrip(s);
      assert s[..|s| - |r|] == [s[0]] + s[1..][..|s[1..]| - |r|];
    }
  }

  /** s.rstrip() */
  function RStrip(s: string): (r: string)
    ensures |r| <= |s|
  {
    if s != "" && IsSpace(s[|s| - 1]) then RStrip(s[..|s| - 1]) else s
  }

  /** rstrip() drops a whitespace suffix, all of it. */
  lemma {:induction false} RStripDropsSuffix(s: string)
    ensures RStrip(s) <= s
    ensures AllSpace(s[|RStrip(s)|..])
    ensures RStrip(s) != "" ==> !IsSpace(RStrip(s)[|RStrip(s)| - 1])
  {
    if s != "" && IsSpace(s[|s| - 1]) {
      RStripDropsSuffix(s[..|s| - 1]);
      var r := RStrip(s);
      assert s[|r|..] == s[..|s| - 1][|r|..] + [s[|s| - 1]];
    }
  }

  /** s.strip() */
  function Strip(s: string): string {
    RStrip(LStrip(s))
  }

  predicate Trimmed(s: string) {
    s == "" || (!IsSpace(s[0]) && !IsSpace(s[|s| - 1]))
  }

  lemma StripTrims(s: string)
    ensures Trimmed(Strip(s))
  {
    var l := LStrip(s);
    var r := RStrip(l);
    LStripDropsPrefix(s);
    RStripDropsSuffix(l);
    if r != "" {
      assert r[0] == l[0];
    }
  }

  /** What strip() takes off: only whitespace, only at the two ends. */
  lemma StripOnlySpace(s: string) returns (before: string, after: string)
    ensures AllSpace(before) && AllSpace(after)
    ensures s == before + Strip(s) + after
  {
    var l := LStrip(s);
    LStripDropsPrefix(s);
    RStripDropsSuffix(l);
    before, after := s[..|s| - |l|], l[|RStrip(l)|..];
    Reassemble(s, l, RStrip(l));
  }

  /** A suffix of s, cut after its first |r| characters, puts s back together. */
  lemma Reassemble(s: string, l: string, r: string)
    requires |l| <= |s| && l == s[|s| - |l|..] && r <= l
    ensures s == s[..|s| - |l|] + r + l[|r|..]
  {
    assert l == r + l[|r|..];
    assert s == s[..|s| - |l|] + l;
  }

  /** The delimiter d stands in s at position i. */
  predicate Occurs(s: string, d: string, i: int) {
    0 <= i && i + |d| <= |s| && s[i..i + |d|] == d
  }

  /** That is, s is made of some text, the delimiter and some more text. */
  lemma OccursIff(s: string, d: string, i: nat)
    ensures Occurs(s, d, i) <==> exists a: string, b: string :: |a| == i && s == a + d + b
  {
    if Occurs(s, d, i) {
      assert s == s[..i] + d + s[i + |d|..];
    }
    if a: string, b: string :| |a| == i && s == a + d + b {
      assert s[i..i + |d|] == d;
    }
  }

  /** No occurrence of d in s starts at lo or later and ends by hi. */
  predicate NoneBetween(s: string, d: string, lo: int, hi: int) {
    forall i :: lo <= i && i + |d| <= hi ==> !Occurs(s, d, i)
  }

  /** s.rfind(d, 0, end): the last occurrence that ends by `end`, or -1. */
  function RFind(s: string, d: string, end: int): int {
    RFindFrom(s, d, end - |d|)
  }

  function RFindFrom(s: string, d: string, i: int): (r: int)
    ensures -1 <= r <= if i < 0 then -1 else i
    decreases i
  {
    if i < 0 then -1
    else if Occurs(s, d, i) then i
    else RFindFrom(s, d, i - 1)
  }

  lemma RFindIsLast(s: string, d: string, end: int)
    ensures
      var r := RFind(s, d, end);
      && (r == -1 || (0 <= r && r + |d| <= end && Occurs(s, d, r)))
      && NoneBetween(s, d, r + 1, end)
  {
    RFindFromIsLast(s, d, end - |d|);
  }

  lemma {:induction false} RFindFromIsLast(s: string, d: string, i: int)
    ensures
      var r := RFindFrom(s, d, i);
      && (r == -1 || (0 <= r <= i && Occurs(s, d, r)))
      && (forall j :: r < j <= i ==> !Occurs(s, d, j))
    decreases i
  {
    if i < 0 || Occurs(s, d, i) {
      assert RFindFrom(s, d, i) == if i < 0 then -1 else i;
    } else {
      RFindFromIsLast(s, d, i - 1);
      assert RFindFrom(s, d, i) == RFindFrom(s, d, i - 1);
    }
  }

  /** `d in s` for strings. */
  predicate Contains(s: string, d: string) {
    exists i :: 0 <= i <= |s| - |d| && Occurs(s, d, i)
  }

  /** A substring brings its own characters with it. */
  lemma ContainsChars(s: string, d: string, k: nat)
    requires Contains(s, d) && k < |d|
    ensures d[k] in s
  {
    var i :| 0 <= i <= |s| - |d| && Occurs(s, d, i);
    assert s[i..i + |d|][k] == s[i + k];
  }

  /** The characters that are not whitespace, in order. */
  function Visible(s: string): string {
    if s == "" then ""
    else (if IsSpace(s[0]) then "" else [s[0]]) + Visible(s[1..])
  }

  lemma {:induction false} VisibleConcat(a: string, b: string)
    ensures Visible(a + b) == Visible(a) + Visible(b)
  {
    if a == "" {
      assert a + b == b;
    } else {
      assert (a + b)[1..] == a[1..] + b;
      VisibleConcat(a[1..], b);
    }
  }

  lemma {:induction false} VisibleOfSpace(s: string)
    requires AllSpace(s)
    ensures Visible(s) == ""
  {
    if s != "" {
      assert AllSpace(s[1..]) by {
        forall i | 0 <= i < |s[1..]| ensures IsSpace(s[1..][i]) { assert s[1..][i] == s[i + 1]; }
      }
      VisibleOfSpace(s[1..]);
    }
  }

  predicate AllDigits(s: string) {
    forall i :: 0 <= i < |s| ==> '0' <= s[i] <= '9'
  }

  /** str(n) for a natural number. */
  function Decimal(n: nat): (s: string)
    ensures |s| >= 1
    ensures AllDigits(s)
  {
    if n < 10 then [Digit(n)] else Decimal(n / 10) + [Digit(n % 10)]
  }

  function Digit(d: nat): char
    requires d < 10
  {
    "0123456789"[d]
  }

  /** int(s), for strings of decimal digits. */
  function Numeral(s: string): nat
    requires AllDigits(s)
  {
    if s == "" then 0
    else 10 * Numeral(s[..|s| - 1]) + (s[|s| - 1] as int - '0' as int)
  }

  lemma {:induction false} NumeralDecimal(n: nat)
    ensures Numeral(Decimal(n)) == n
  {
    assert forall d: nat :: d < 10 ==> Digit(d) as int - '0' as int == d;
    if n >= 10 {
      NumeralDecimal(n / 10);
      var s := Decimal(n);
      assert s[..|s| - 1] == Decimal(n / 10) && s[|s| - 1] == Digit(n % 10);
    } else {
      var s := Decimal(n);
      assert s[..|s| - 1] == "";
    }
  }

  /** How many digits a number needs, as powers of ten. */
  lemma {:induction false} DecimalLength(n: nat)
    ensures n < 10 <==> |Decimal(n)| == 1
    ensures n < 100 <==> |Decimal(n)| <= 2
    ensures n < 1000 <==> |Decimal(n)| <= 3
    ensures n < 10000 <==> |Decimal(n)| <= 4
  {
    if n >= 10 {
      DecimalLength(n / 10);
    }
  }

  /** A longer count never has fewer digits. */
  lemma {:induction false} DecimalMonotone(m: nat, n: nat)
    requires m <= n
    ensures |Decimal(m)| <= |Decimal(n)|
  {
    if m >= 10 {
      DecimalMonotone(m / 10, n / 10);
    }
  }
}
