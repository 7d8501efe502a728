/** String helpers with the semantics of the JavaScript built-ins the application calls. */
module Text {

  /** ECMAScript WhiteSpace and LineTerminator code points: what `String.prototype.trim` removes. */
  predicate IsWhitespace(c: char) {
    || c == ' ' || c == '\t' || c == '\n' || c == '\U{000B}' || c == '\U{000C}' || c == '\r'
    || c == '\U{00A0}' || c == '\U{1680}' || ('\U{2000}' <= c <= '\U{200A}')
    || c == '\U{2028}' || c == '\U{2029}' || c == '\U{202F}' || c == '\U{205F}'
    || c == '\U{3000}' || c == '\U{FEFF}'
  }

  predicate AllWhitespace(s: string) {
    forall k :: 0 <= k < |s| ==> IsWhitespace(s[k])
  }

  /** The number of white-space characters `s` starts with. */
  function LeadingBlanks(s: string): (n: nat)
    ensures n <= |s| && AllWhitespace(s[..n])
    ensures n < |s| ==> !IsWhitespace(s[n])
  {
    if s != [] && IsWhitespace(s[0]) then
      var m := LeadingBlanks(s[1..]);
      LeadingStep(s, s[1..], m);
      1 + m
    else 0
  }

  lemma {:induction false} LeadingStep(s: string, t: string, m: nat)
    requires |s| >= 1 && t == s[1..] && IsWhitespace(s[0])
    requires m <= |t| && AllWhitespace(t[..m]) && (m < |t| ==> !IsWhitespace(t[m]))
    ensures AllWhitespace(s[..m + 1]) && (m + 1 < |s| ==> !IsWhitespace(s[m + 1]))
  {
    var w := s[..m + 1];
    forall k | 0 <= k < |w| ensures IsWhitespace(w[k]) {
      if k > 0 {
        assert w[k] == t[..m][k - 1];
      }
    }
  }

  /** The number of white-space characters `s` ends with. */
  function TrailingBlanks(s: string): (n: nat)
    ensures n <= |s| && AllWhitespace(s[|s| - n..])
    ensures n < |s| ==> !IsWhitespace(s[|s| - n - 1])
  {
    if s != [] && IsWhitespace(s[|s| - 1]) then
      var m := TrailingBlanks(s[..|s| - 1]);
      TrailingStep(s, s[..|s| - 1], m);
      1 + m
    else 0
  }

  lemma {:induction false} TrailingStep(s: string, t: string, m: nat)
    requires |s| >= 1 && t == s[..|s| - 1] && IsWhitespace(s[|s| - 1])
    requires m <= |t| && AllWhitespace(t[|t| - m..]) && (m < |t| ==> !IsWhitespace(t[|t| - m - 1]))
    ensures AllWhitespace(s[|s| - (m + 1)..]) && (m + 1 < |s| ==> !IsWhitespace(s[|s| - (m + 1) - 1]))
  {
    var w := s[|s| - (m + 1)..];
    forall k | 0 <= k < |w| ensures IsWhitespace(w[k]) {
      if k < m {
        assert w[k] == t[|t| - m..][k];
      }
    }
  }

  /** `String.prototype.trim`: the input without its leading and trailing white space. */
  function Trim(s: string): (r: string)
    ensures |r| <= |s|
    ensures r == [] || (!IsWhitespace(r[0]) && !IsWhitespace(r[|r| - 1]))
  {
    var a := s[LeadingBlanks(s)..];
    a[..|a| - TrailingBlanks(a)]
  }

  /** Trimming keeps a slice of the input and removes only white space around it. */
  lemma {:induction false} TrimIsSlice(s: string)
    ensures var lo, r := LeadingBlanks(s), Trim(s);
      && lo + |r| <= |s| && r == s[lo..lo + |r|]
      && AllWhitespace(s[..lo]) && AllWhitespace(s[lo + |r|..])
  {
    var lo := LeadingBlanks(s);
    var a := s[lo..];
    var n := TrailingBlanks(a);
    SliceBetweenBlanks(s, lo, a, n, Trim(s));
  }

  lemma {:induction false} SliceBetweenBlanks(s: string, lo: nat, a: string, n: nat, r: string)
    requires lo <= |s| && a == s[lo..] && n <= |a| && r == a[..|a| - n]
    requires AllWhitespace(a[|a| - n..])
    ensures lo + |r| <= |s| && r == s[lo..lo + |r|] && AllWhitespace(s[lo + |r|..])
  {
    assert s[lo + |r|..] == a[|a| - n..];
  }

  /** Trimming twice is trimming once. */
  lemma {:induction false} TrimIdempotent(s: string)
    ensures Trim(Trim(s)) == Trim(s)
  {
    TrimOfTrimmed(Trim(s));
  }

  /** A string with a non-blank character on either end is its own trim. */
  lemma {:induction false} TrimOfTrimmed(s: string)
    requires s == [] || (!IsWhitespace(s[0]) && !IsWhitespace(s[|s| - 1]))
    ensures Trim(s) == s
  {
    assert LeadingBlanks(s) == 0;
    assert s[0..] == s;
    assert TrailingBlanks(s) == 0;
  }

  /** Fields of `s` separated by `sep` joined back with `sep`. */
  function Join(parts: seq<string>, sep: char): string
  {
    if parts == [] then []
    else if |parts| == 1 then parts[0]
    else parts[0] + [sep] + Join(parts[1..], sep)
  }

  /** `s.split(sep)` for a one-character separator: empty fields are kept, and the empty string gives one empty field. */
  function Split(s: string, sep: char): (r: seq<string>)
    ensures |r| >= 1
    ensures forall k :: 0 <= k < |r| ==> sep !in r[k]
    ensures Join(r, sep) == s
    ensures |r| == 1 <==> sep !in s
  {
    if sep !in s then [s]
    else
      var i := FirstSep(s, sep);
      var rest := Split(s[i + 1..], sep);
      assert s == s[..i] + [sep] + s[i + 1..];
      [s[..i]] + rest
  }

  /** Position of the first separator. */
  function FirstSep(s: string, sep: char): (i: nat)
    requires sep in s
    ensures i < |s| && s[i] == sep && sep !in s[..i]
  {
    if s[0] == sep then 0
    else
      var k := FirstSep(s[1..], sep);
      assert s[1..][..k] == s[1..k + 1];
      k + 1
  }

  /** Splitting what was joined gives the parts back, as long as no part contains the separator. */
  lemma {:induction false} SplitJoin(parts: seq<string>, sep: char)
    requires |parts| >= 1
    requires forall k :: 0 <= k < |parts| ==> sep !in parts[k]
    ensures Split(Join(parts, sep), sep) == parts
  {
    if |parts| > 1 {
      var s := Join(parts, sep);
      var tail := Join(parts[1..], sep);
      assert s == parts[0] + [sep] + tail;
      assert s[|parts[0]|] == sep;
      assert s[..|parts[0]|] == parts[0];
      assert FirstSep(s, sep) == |parts[0]|;
      assert s[|parts[0]| + 1..] == tail;
      SplitJoin(parts[1..], sep);
    }
  }

  predicate IsDigit(c: char) {
    '0' <= c <= '9'
  }

  predicate AllDigits(s: string) {
    forall k :: 0 <= k < |s| ==> IsDigit(s[k])
  }

  function DigitChar(d: nat): (c: char)
    requires d < 10
    ensures IsDigit(c)
  {
    (48 + d) as char
  }

  /** Value of a string of decimal digits. */
  function DecimalValue(s: string): nat
    requires AllDigits(s)
  {
    if s == [] then 0
    else 10 * DecimalValue(s[..|s| - 1]) + (s[|s| - 1] as int - 48)
  }

  /** `String(n)` for a non-negative integer: decimal digits, no leading zero. */
  function NatToString(n: nat): (r: string)
    ensures |r| >= 1 && AllDigits(r)
    ensures |r| > 1 ==> r[0] != '0'
  {
    if n < 10 then [DigitChar(n)] else NatToString(n / 10) + [DigitChar(n % 10)]
  }

  /** Reading the decimal rendering back gives the number. */
  lemma {:induction false} DecimalRoundTrip(n: nat)
    ensures DecimalValue(NatToString(n)) == n
  {
    if n >= 10 {
      var r := NatToString(n);
      assert r[..|r| - 1] == NatToString(n / 10);
      DecimalRoundTrip(n / 10);
    }
  }

  /** Distinct numbers render to distinct strings. */
  lemma {:induction false} NatToStringInjective(a: nat, b: nat)
    requires a != b
    ensures NatToString(a) != NatToString(b)
  {
    DecimalRoundTrip(a);
    DecimalRoundTrip(b);
  }
}
