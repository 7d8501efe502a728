/**
 * The URL check `validURL` (app/js/modules/utils.js, copied verbatim in app/js/renderer.js).
 * The source matches the whole input against one case-insensitive regular expression:
 *   optional scheme, host (dotted domain name or dotted-quad address), optional port,
 *   path, optional query, optional fragment.
 * Each component is a predicate here; `ValidUrl` asks for a split of the input into them.
 * With the `i` flag and no `u` flag, `[a-z]` matches exactly the ASCII letters and `\d` the ASCII digits.
 */
module UrlValidator {
  import opened Text

  predicate IsLetter(c: char) {
    ('a' <= c <= 'z') || ('A' <= c <= 'Z')
  }

  predicate IsAlnum(c: char) {
    IsLetter(c) || IsDigit(c)
  }

  /** `[a-z\d-]` */
  predicate IsLabelChar(c: char) {
    IsAlnum(c) || c == '-'
  }

  /** `[-a-z\d%_.~+]` */
  predicate IsPathChar(c: char) {
    IsAlnum(c) || c == '-' || c == '%' || c == '_' || c == '.' || c == '~' || c == '+'
  }

  /** `[;&a-z\d%_.~+=-]` */
  predicate IsQueryChar(c: char) {
    IsPathChar(c) || c == ';' || c == '&' || c == '='
  }

  /** `[-a-z\d_]` */
  predicate IsFragmentChar(c: char) {
    IsAlnum(c) || c == '-' || c == '_'
  }

  /** ASCII lower case of one character. */
  function LowerChar(c: char): char {
    if 'A' <= c <= 'Z' then (c as int + 32) as char else c
  }

  /** `https?:\/\/`, compared case-insensitively. */
  predicate IsScheme(s: string) {
    || (|s| == 7 && forall k :: 0 <= k < 7 ==> LowerChar(s[k]) == "http://"[k])
    || (|s| == 8 && forall k :: 0 <= k < 8 ==> LowerChar(s[k]) == "https://"[k])
  }

  /** `[a-z\d]([a-z\d-]*[a-z\d])*`: letters, digits and hyphens, starting and ending with a letter or digit. */
  predicate IsLabel(s: string) {
    && |s| >= 1
    && (forall k :: 0 <= k < |s| ==> IsLabelChar(s[k]))
    && IsAlnum(s[0]) && IsAlnum(s[|s| - 1])
  }

  /** `[a-z]{2,}` */
  predicate IsTld(s: string) {
    |s| >= 2 && forall k :: 0 <= k < |s| ==> IsLetter(s[k])
  }

  /** `(label\.)+tld`. Neither labels nor the top-level domain contain a dot, so the dots split the name. */
  predicate IsDomainName(s: string) {
    var fields := Split(s, '.');
    && |fields| >= 2
    && (forall k :: 0 <= k < |fields| - 1 ==> IsLabel(fields[k]))
    && IsTld(fields[|fields| - 1])
  }

  /** `\d{1,3}` */
  predicate IsOctetGroup(s: string) {
    1 <= |s| <= 3 && AllDigits(s)
  }

  /** `(\d{1,3}\.){3}\d{1,3}` (the value of a group is not limited to 255). */
  predicate IsDottedQuad(s: string) {
    var fields := Split(s, '.');
    |fields| == 4 && forall k :: 0 <= k < 4 ==> IsOctetGroup(fields[k])
  }

  predicate IsHost(s: string) {
    IsDomainName(s) || IsDottedQuad(s)
  }

  /** `\:\d+` */
  predicate IsPort(s: string) {
    |s| >= 2 && s[0] == ':' && AllDigits(s[1..])
  }

  /** `(\/[-a-z\d%_.~+]*)*`: empty, or a slash followed by path characters and further slashes. */
  predicate IsPath(s: string) {
    s == [] || (s[0] == '/' && forall k :: 0 <= k < |s| ==> s[k] == '/' || IsPathChar(s[k]))
  }

  /** `\?[;&a-z\d%_.~+=-]*` */
  predicate IsQuery(s: string) {
    |s| >= 1 && s[0] == '?' && forall k :: 1 <= k < |s| ==> IsQueryChar(s[k])
  }

  /** `\#[-a-z\d_]*` */
  predicate IsFragment(s: string) {
    |s| >= 1 && s[0] == '#' && forall k :: 1 <= k < |s| ==> IsFragmentChar(s[k])
  }

  /** The whole input is `scheme? host port? path query? fragment?`. */
  predicate ValidUrl(s: string) {
    exists i :: 0 <= i <= |s| && (i == 0 || IsScheme(s[..i])) && HostOnwards(s[i..])
  }

  predicate HostOnwards(s: string) {
    exists i :: 1 <= i <= |s| && IsHost(s[..i]) && PortOnwards(s[i..])
  }

  predicate PortOnwards(s: string) {
    exists i :: 0 <= i <= |s| && (i == 0 || IsPort(s[..i])) && PathOnwards(s[i..])
  }

  predicate PathOnwards(s: string) {
    exists i :: 0 <= i <= |s| && IsPath(s[..i]) && QueryOnwards(s[i..])
  }

  predicate QueryOnwards(s: string) {
    exists i :: 0 <= i <= |s| && (i == 0 || IsQuery(s[..i])) && (s[i..] == [] || IsFragment(s[i..]))
  }
}

/** What `validURL` accepts and rejects. */
module UrlValidatorFacts {
  import opened Text
  import opened UrlValidator

  /** Every character any component of the pattern can match. */
  predicate IsUrlChar(c: char) {
    IsQueryChar(c) || c == ':' || c == '/' || c == '?' || c == '#'
  }

  predicate AllUrlChars(s: string) {
    forall k :: 0 <= k < |s| ==> IsUrlChar(s[k])
  }

  lemma {:induction false} AllUrlCharsConcat(a: string, b: string)
    requires AllUrlChars(a) && AllUrlChars(b)
    ensures AllUrlChars(a + b)
  {
  }

  lemma {:induction false} AllUrlCharsSplitAt(s: string, i: nat)
    requires i <= |s|
    requires AllUrlChars(s[..i]) && AllUrlChars(s[i..])
    ensures AllUrlChars(s)
  {
    assert s == s[..i] + s[i..];
    AllUrlCharsConcat(s[..i], s[i..]);
  }

  lemma {:induction false} JoinOfUrlChars(parts: seq<string>)
    requires forall k :: 0 <= k < |parts| ==> AllUrlChars(parts[k])
    ensures AllUrlChars(Join(parts, '.'))
  {
    if |parts| > 1 {
      JoinOfUrlChars(parts[1..]);
      AllUrlCharsConcat(parts[0] + ['.'], Join(parts[1..], '.'));
    }
  }

  lemma {:induction false} HostChars(s: string)
    requires IsHost(s)
    ensures AllUrlChars(s)
  {
    var fields := Split(s, '.');
    if IsDomainName(s) {
      forall k | 0 <= k < |fields| ensures AllUrlChars(fields[k]) {
        if k < |fields| - 1 {
          assert IsLabel(fields[k]);
        } else {
          assert IsTld(fields[k]);
        }
      }
    } else {
      forall k | 0 <= k < |fields| ensures AllUrlChars(fields[k]) {
        assert IsOctetGroup(fields[k]);
      }
    }
    JoinOfUrlChars(fields);
  }

  lemma {:induction false} QueryOnwardsChars(s: string)
    requires QueryOnwards(s)
    ensures AllUrlChars(s)
  {
    var i :| 0 <= i <= |s| && (i == 0 || IsQuery(s[..i])) && (s[i..] == [] || IsFragment(s[i..]));
    AllUrlCharsSplitAt(s, i);
  }

  lemma {:induction false} PathOnwardsChars(s: string)
    requires PathOnwards(s)
    ensures AllUrlChars(s)
  {
    var i :| 0 <= i <= |s| && IsPath(s[..i]) && QueryOnwards(s[i..]);
    QueryOnwardsChars(s[i..]);
    AllUrlCharsSplitAt(s, i);
  }

  lemma {:induction false} PortChars(p: string)
    requires IsPort(p)
    ensures AllUrlChars(p)
  {
    forall k | 0 <= k < |p| ensures IsUrlChar(p[k]) {
      if k > 0 {
        assert p[k] == p[1..][k - 1];
      }
    }
  }

  lemma {:induction false} PortOnwardsChars(s: string)
    requires PortOnwards(s)
    ensures AllUrlChars(s)
  {
    var i :| 0 <= i <= |s| && (i == 0 || IsPort(s[..i])) && PathOnwards(s[i..]);
    PathOnwardsChars(s[i..]);
    if i > 0 {
      PortChars(s[..i]);
    }
    AllUrlCharsSplitAt(s, i);
  }

  lemma {:induction false} HostOnwardsChars(s: string)
    requires HostOnwards(s)
    ensures AllUrlChars(s)
  {
    var i :| 1 <= i <= |s| && IsHost(s[..i]) && PortOnwards(s[i..]);
    HostChars(s[..i]);
    PortOnwardsChars(s[i..]);
    AllUrlCharsSplitAt(s, i);
  }

  lemma {:induction false} SchemeChars(s: string)
    requires IsScheme(s)
    ensures AllUrlChars(s)
  {
    if |s| == 7 {
      forall k | 0 <= k < 7 ensures IsUrlChar(s[k]) {
        assert LowerChar(s[k]) == "http://"[k];
      }
    } else {
      forall k | 0 <= k < 8 ensures IsUrlChar(s[k]) {
        assert LowerChar(s[k]) == "https://"[k];
      }
    }
  }

  /** An accepted string uses only characters the pattern names. */
  lemma {:induction false} ValidUrlChars(s: string)
    requires ValidUrl(s)
    ensures AllUrlChars(s)
  {
    var i :| 0 <= i <= |s| && (i == 0 || IsScheme(s[..i])) && HostOnwards(s[i..]);
    HostOnwardsChars(s[i..]);
    if i > 0 {
      SchemeChars(s[..i]);
    }
    AllUrlCharsSplitAt(s, i);
  }

  /** `validURL` rejects every string containing a space (in particular an untrimmed one). */
  lemma {:induction false} ValidUrlRejectsSpace(s: string)
    ensures ' ' in s ==> !ValidUrl(s)
  {
    if ValidUrl(s) {
      ValidUrlChars(s);
      UrlCharsHaveNoSpace(s);
    }
  }

  lemma {:induction false} UrlCharsHaveNoSpace(s: string)
    requires AllUrlChars(s)
    ensures ' ' !in s
  {
    forall k | 0 <= k < |s| ensures s[k] != ' ' {
      assert IsUrlChar(s[k]);
    }
  }

  lemma {:induction false} HostHasDot(s: string)
    requires IsHost(s)
    ensures '.' in s
  {
    assert |Split(s, '.')| >= 2;
  }

  lemma {:induction false} DotInSuffix(s: string, i: nat)
    requires i <= |s| && '.' in s[i..]
    ensures '.' in s
  {
    var k :| 0 <= k < |s| - i && s[i..][k] == '.';
    assert s[i + k] == '.';
  }

  lemma {:induction false} HostOnwardsHasDot(t: string)
    requires HostOnwards(t)
    ensures '.' in t
  {
    var j :| 1 <= j <= |t| && IsHost(t[..j]) && PortOnwards(t[j..]);
    HostHasDot(t[..j]);
    DotInPrefix(t, j);
  }

  lemma {:induction false} DotInPrefix(t: string, j: nat)
    requires j <= |t| && '.' in t[..j]
    ensures '.' in t
  {
    var k :| 0 <= k < j && t[..j][k] == '.';
    assert t[k] == '.';
  }

  /** Every accepted string has a dot in its host, so the empty string and a dotless host such as `localhost` are refused. */
  lemma {:induction false} ValidUrlNeedsDot(s: string)
    ensures ValidUrl(s) ==> '.' in s
  {
    if ValidUrl(s) {
      var i :| 0 <= i <= |s| && (i == 0 || IsScheme(s[..i])) && HostOnwards(s[i..]);
      HostOnwardsHasDot(s[i..]);
      DotInSuffix(s, i);
    }
  }

  lemma {:induction false} ValidUrlRejectsDotless()
    ensures !ValidUrl("")
    ensures !ValidUrl("localhost")
  {
    ValidUrlNeedsDot("");
    var s := "localhost";
    ValidUrlNeedsDot(s);
    assert forall k :: 0 <= k < |s| ==> s[k] != '.';
  }

  /** Labels followed by a top-level domain, joined by dots, form a host name. */
  lemma {:induction false} LabelHasNoDot(s: string)
    requires IsLabel(s)
    ensures '.' !in s
  {
    forall m | 0 <= m < |s| ensures s[m] != '.' {
      assert IsLabelChar(s[m]);
    }
  }

  lemma {:induction false} TldHasNoDot(s: string)
    requires IsTld(s)
    ensures '.' !in s
  {
    forall m | 0 <= m < |s| ensures s[m] != '.' {
      assert IsLetter(s[m]);
    }
  }

  lemma {:induction false} GroupHasNoDot(s: string)
    requires IsOctetGroup(s)
    ensures '.' !in s
  {
    forall m | 0 <= m < |s| ensures s[m] != '.' {
      assert IsDigit(s[m]);
    }
  }

  /** Labels followed by a top-level domain, joined by dots, form a host name. */
  lemma {:induction false} DomainNameFromLabels(labels: seq<string>, tld: string)
    requires |labels| >= 1
    requires forall k :: 0 <= k < |labels| ==> IsLabel(labels[k])
    requires IsTld(tld)
    ensures IsDomainName(Join(labels + [tld], '.'))
  {
    var parts := labels + [tld];
    forall k | 0 <= k < |parts| ensures '.' !in parts[k] {
      if k < |labels| {
        LabelHasNoDot(parts[k]);
      } else {
        TldHasNoDot(parts[k]);
      }
    }
    SplitJoin(parts, '.');
    assert forall k :: 0 <= k < |parts| - 1 ==> parts[k] == labels[k];
  }

  /** Four groups of one to three digits joined by dots form a host address. */
  lemma {:induction false} DottedQuadFromGroups(a: string, b: string, c: string, d: string)
    requires IsOctetGroup(a) && IsOctetGroup(b) && IsOctetGroup(c) && IsOctetGroup(d)
    ensures IsDottedQuad(Join([a, b, c, d], '.'))
  {
    var parts := [a, b, c, d];
    assert forall k :: 0 <= k < |parts| ==> IsOctetGroup(parts[k]);
    DottedQuadFromParts(parts);
  }

  lemma {:induction false} DottedQuadFromParts(parts: seq<string>)
    requires |parts| == 4 && forall k :: 0 <= k < |parts| ==> IsOctetGroup(parts[k])
    ensures IsDottedQuad(Join(parts, '.'))
  {
    forall k | 0 <= k < |parts| ensures '.' !in parts[k] {
      GroupHasNoDot(parts[k]);
    }
    SplitJoin(parts, '.');
  }

  lemma {:induction false} SchemesAccepted()
    ensures IsScheme("http://") && IsScheme("https://")
    ensures IsScheme("HTTPS://")
  {
    var h := "http://";
    forall k | 0 <= k < 7 ensures LowerChar(h[k]) == h[k] { }
    var hs := "https://";
    forall k | 0 <= k < 8 ensures LowerChar(hs[k]) == hs[k] { }
    var up := "HTTPS://";
    forall k | 0 <= k < 8 ensures LowerChar(up[k]) == hs[k] { }
  }

  /** The scheme is optional: a host with its tail is accepted with or without `http://` or `https://`. */
  lemma {:induction false} SchemeOptional(t: string)
    requires HostOnwards(t)
    ensures ValidUrl(t)
    ensures ValidUrl("http://" + t)
    ensures ValidUrl("https://" + t)
  {
    assert t[0..] == t;
    SchemesAccepted();
    var h := "http://" + t;
    assert h[..7] == "http://" && h[7..] == t;
    var hs := "https://" + t;
    assert hs[..8] == "https://" && hs[8..] == t;
  }
  lemma {:induction false} QueryLevel(query: string, fragment: string)
    requires query == [] || IsQuery(query)
    requires fragment == [] || IsFragment(fragment)
    ensures QueryOnwards(query + fragment)
  {
    var q := query + fragment;
    assert q[..|query|] == query && q[|query|..] == fragment;
  }

  lemma {:induction false} PathLevel(path: string, rest: string)
    requires IsPath(path) && QueryOnwards(rest)
    ensures PathOnwards(path + rest)
  {
    var p := path + rest;
    assert p[..|path|] == path && p[|path|..] == rest;
  }

  lemma {:induction false} PortLevel(port: string, rest: string)
    requires port == [] || IsPort(port)
    requires PathOnwards(rest)
    ensures PortOnwards(port + rest)
  {
    var p := port + rest;
    assert p[..|port|] == port && p[|port|..] == rest;
  }

  lemma {:induction false} HostLevel(host: string, rest: string)
    requires IsHost(host) && PortOnwards(rest)
    ensures HostOnwards(host + rest)
  {
    HostHasDot(host);
    var p := host + rest;
    assert p[..|host|] == host && p[|host|..] == rest;
  }

  lemma {:induction false} SchemeLevel(scheme: string, rest: string)
    requires scheme == [] || IsScheme(scheme)
    requires HostOnwards(rest)
    ensures ValidUrl(scheme + rest)
  {
    var p := scheme + rest;
    assert p[..|scheme|] == scheme && p[|scheme|..] == rest;
  }

  /** Any scheme, host, port, path, query and fragment that fit their components make an accepted string. */
  lemma {:induction false} AcceptsComposition(scheme: string, host: string, port: string, path: string, query: string, fragment: string)
    requires scheme == [] || IsScheme(scheme)
    requires IsHost(host)
    requires port == [] || IsPort(port)
    requires IsPath(path)
    requires query == [] || IsQuery(query)
    requires fragment == [] || IsFragment(fragment)
    ensures ValidUrl(scheme + (host + (port + (path + (query + fragment)))))
  {
    var r4 := query + fragment;
    QueryLevel(query, fragment);
    var r3 := path + r4;
    PathLevel(path, r4);
    var r2 := port + r3;
    PortLevel(port, r3);
    var r1 := host + r2;
    HostLevel(host, r2);
    SchemeLevel(scheme, r1);
  }
}
