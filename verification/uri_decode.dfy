/**
 * `isEncoded` and `fullyDecodeURI` (app/js/modules/utils.js; app/js/renderer.js holds a copy).
 * The loop applies one decoding pass until the pass no longer changes the string.
 * The pass is a parameter: any function that returns its input or a strictly shorter string.
 * `DecodeOnce` is such a pass: percent-decoding (section 2.1 of RFC 3986) of escapes of ASCII characters.
 * `DecodeUriComponent` adds the `URIError` that `decodeURIComponent` throws on a malformed escape,
 * and `FullyDecodeChecked` is the loop with that error escaping from it.
 */
module UriDecode {
  import opened Wrappers

  /** The requirement on one decoding pass: it leaves a string alone or makes it strictly shorter. */
  ghost predicate ShrinksOrFixes(decode: string -> string) {
    forall x :: decode(x) == x || |decode(x)| < |x|
  }

  /** `isEncoded`: one more pass would change the string. */
  predicate IsEncoded(decode: string -> string, uri: string) {
    uri != decode(uri)
  }

  /** `fullyDecodeURI`: repeat the pass while it changes the string. */
  function FullyDecodeWith(decode: string -> string, uri: string): (r: string)
    requires ShrinksOrFixes(decode)
    ensures !IsEncoded(decode, r)
    ensures |r| <= |uri|
    ensures !IsEncoded(decode, uri) ==> r == uri
    decreases |uri|
  {
    if IsEncoded(decode, uri) then FullyDecodeWith(decode, decode(uri)) else uri
  }

  /** `n` passes in a row. */
  function Iterate(decode: string -> string, uri: string, n: nat): string
    decreases n
  {
    if n == 0 then uri else Iterate(decode, decode(uri), n - 1)
  }

  /** How many times the loop body runs: never more than the length of the input. */
  function Passes(decode: string -> string, uri: string): (n: nat)
    requires ShrinksOrFixes(decode)
    ensures n <= |uri|
    ensures Iterate(decode, uri, n) == FullyDecodeWith(decode, uri)
    ensures forall m :: 0 <= m < n ==> IsEncoded(decode, Iterate(decode, uri, m))
    decreases |uri|
  {
    if IsEncoded(decode, uri) then
      var k := Passes(decode, decode(uri));
      assert forall m :: 1 <= m < k + 1 ==> Iterate(decode, uri, m) == Iterate(decode, decode(uri), m - 1);
      k + 1
    else 0
  }

  /** The loop reaches a fixed point: decoding its result again changes nothing. */
  lemma {:induction false} FullyDecodeIdempotent(decode: string -> string, uri: string)
    requires ShrinksOrFixes(decode)
    ensures FullyDecodeWith(decode, FullyDecodeWith(decode, uri)) == FullyDecodeWith(decode, uri)
  {
  }

  predicate IsHexDigit(c: char) {
    ('0' <= c <= '9') || ('a' <= c <= 'f') || ('A' <= c <= 'F')
  }

  function HexDigitValue(c: char): (v: nat)
    requires IsHexDigit(c)
    ensures v < 16
  {
    if '0' <= c <= '9' then c as int - '0' as int
    else if 'a' <= c <= 'f' then c as int - 'a' as int + 10
    else c as int - 'A' as int + 10
  }

  /** `%XY` at the start of `s`, with hexadecimal `XY` naming an ASCII character. */
  predicate StartsWithEscape(s: string) {
    && |s| >= 3 && s[0] == '%' && IsHexDigit(s[1]) && IsHexDigit(s[2])
    && 16 * HexDigitValue(s[1]) + HexDigitValue(s[2]) < 128
  }

  predicate HasEscape(s: string) {
    exists i :: 0 <= i < |s| && StartsWithEscape(s[i..])
  }

  /** One left-to-right percent-decoding pass over ASCII escapes. */
  function DecodeOnce(s: string): (r: string)
    ensures |r| <= |s|
    ensures |r| == |s| ==> r == s
    decreases |s|
  {
    if s == [] then []
    else if StartsWithEscape(s) then
      [(16 * HexDigitValue(s[1]) + HexDigitValue(s[2])) as char] + DecodeOnce(s[3..])
    else [s[0]] + DecodeOnce(s[1..])
  }

  /** Past a character that starts no escape, the escapes are those of the rest. */
  lemma {:induction false} HasEscapeTail(s: string)
    requires s != [] && !StartsWithEscape(s)
    ensures HasEscape(s) <==> HasEscape(s[1..])
  {
    if HasEscape(s) {
      var i :| 0 <= i < |s| && StartsWithEscape(s[i..]);
      assert i != 0 by { assert s[0..] == s; }
      assert s[1..][i - 1..] == s[i..];
    }
    if HasEscape(s[1..]) {
      var i :| 0 <= i < |s[1..]| && StartsWithEscape(s[1..][i..]);
      assert s[1..][i..] == s[i + 1..];
    }
  }

  /** A pass changes the string exactly when the string holds an escape. */
  lemma {:induction false} DecodeOnceChangesIffEscape(s: string)
    ensures DecodeOnce(s) != s <==> HasEscape(s)
    decreases |s|
  {
    if s == [] {
    } else if StartsWithEscape(s) {
      assert s[0..] == s;
    } else {
      DecodeOnceChangesIffEscape(s[1..]);
      HasEscapeTail(s);
      assert s == [s[0]] + s[1..];
    }
  }

  /** A character other than `%` is copied as it is. */
  lemma {:induction false} DecodeOncePlainHead(s: string)
    requires s != [] && s[0] != '%'
    ensures DecodeOnce(s) == [s[0]] + DecodeOnce(s[1..])
  {
    assert !StartsWithEscape(s);
  }

  /** An escape is replaced by the character it names. */
  lemma {:induction false} DecodeOnceEscapeHead(s: string)
    requires StartsWithEscape(s)
    ensures DecodeOnce(s) == [(16 * HexDigitValue(s[1]) + HexDigitValue(s[2])) as char] + DecodeOnce(s[3..])
  {
  }

  /** A character other than `%` put in front of a string is copied in front of its decoding. */
  lemma {:induction false} DecodeOncePlainCons(c: char, s: string)
    requires c != '%'
    ensures DecodeOnce([c] + s) == [c] + DecodeOnce(s)
  {
    var x := [c] + s;
    assert x[0] == c && x[1..] == s;
    DecodeOncePlainHead(x);
  }

  /** A pass copies a prefix without `%` and decodes what follows it. */
  lemma {:induction false} DecodeOncePlainPrefix(p: string, q: string)
    requires '%' !in p
    ensures DecodeOnce(p + q) == p + DecodeOnce(q)
    decreases |p|
  {
    if p != [] {
      var c, rest := p[0], p[1..];
      assert p == [c] + rest;
      assert p + q == [c] + (rest + q);
      assert c in p;
      assert '%' !in rest;
      DecodeOncePlainPrefix(rest, q);
      DecodeOncePlainCons(c, rest + q);
    } else {
      assert p + q == q;
    }
  }

  lemma {:induction false} DecodeOnceShrinksOrFixes()
    ensures ShrinksOrFixes(DecodeOnce)
  {
  }

  /** `fullyDecodeURI` with the ASCII percent-decoding pass. */
  function FullyDecodeUri(uri: string): (r: string)
    ensures !HasEscape(r)
    ensures |r| <= |uri|
    ensures !HasEscape(uri) ==> r == uri
  {
    DecodeOnceShrinksOrFixes();
    var r := FullyDecodeWith(DecodeOnce, uri);
    DecodeOnceChangesIffEscape(r);
    DecodeOnceChangesIffEscape(uri);
    r
  }

  /** When one pass leads to a string that is already decoded, the loop stops there. */
  lemma {:induction false} FullyDecodeStep(uri: string, once: string)
    requires DecodeOnce(uri) == once && DecodeOnce(once) == once
    ensures FullyDecodeUri(uri) == once && FullyDecodeUri(once) == once
  {
    DecodeOnceShrinksOrFixes();
    DecodeOnceChangesIffEscape(once);
    if uri != once {
      assert FullyDecodeWith(DecodeOnce, uri) == FullyDecodeWith(DecodeOnce, once);
    }
  }

  /** Decoding an already decoded URL changes nothing. */
  lemma {:induction false} FullyDecodeUriIdempotent(uri: string)
    ensures FullyDecodeUri(FullyDecodeUri(uri)) == FullyDecodeUri(uri)
  {
  }

  /**
   * A `%` at index `i` that is not followed by two hexadecimal digits. No hexadecimal digit is a
   * `%`, so every `%` of a string is a place where the left-to-right scan of `decodeURIComponent`
   * looks for an escape.
   */
  predicate BadEscapeAt(s: string, i: int)
    requires 0 <= i < |s|
  {
    s[i] == '%' && !(i + 2 < |s| && IsHexDigit(s[i + 1]) && IsHexDigit(s[i + 2]))
  }

  /** A string on which `decodeURIComponent` throws `URIError`. */
  predicate Malformed(s: string) {
    exists i :: 0 <= i < |s| && BadEscapeAt(s, i)
  }

  /** Whether an index is a bad escape does not depend on what comes before it. */
  lemma {:induction false} MalformedAfter(s: string, k: nat)
    requires k <= |s|
    requires forall j :: 0 <= j < k ==> !BadEscapeAt(s, j)
    ensures Malformed(s) <==> Malformed(s[k..])
  {
    if Malformed(s) {
      var i :| 0 <= i < |s| && BadEscapeAt(s, i);
      assert BadEscapeAt(s[k..], i - k);
    }
    if Malformed(s[k..]) {
      var i :| 0 <= i < |s[k..]| && BadEscapeAt(s[k..], i);
      assert BadEscapeAt(s, i + k);
    }
  }

  /**
   * `decodeURIComponent`, scanning left to right: `None` is the `URIError` thrown at the first
   * `%` without two hexadecimal digits, and otherwise the result is that of the ASCII pass.
   */
  function DecodeUriComponent(s: string): (r: Option<string>)
    ensures r.None? <==> Malformed(s)
    ensures r.Some? ==> r.value == DecodeOnce(s)
    decreases |s|
  {
    if s == [] then Some([])
    else if StartsWithEscape(s) then
      MalformedAfter(s, 3);
      match DecodeUriComponent(s[3..])
      case None => None
      case Some(rest) => Some([(16 * HexDigitValue(s[1]) + HexDigitValue(s[2])) as char] + rest)
    else if BadEscapeAt(s, 0) then None
    else
      MalformedAfter(s, 1);
      match DecodeUriComponent(s[1..])
      case None => None
      case Some(rest) => Some([s[0]] + rest)
  }

  /**
   * `fullyDecodeURI` with `decodeURIComponent` as the source calls it: `isEncoded` decodes and
   * compares, then the loop body decodes the same string again. `None` is a `URIError` that
   * escapes from the loop.
   */
  function FullyDecodeChecked(uri: string): (r: Option<string>)
    ensures r.Some? ==> r.value == FullyDecodeUri(uri)
    ensures Malformed(uri) ==> r.None?
    ensures !Malformed(uri) && !HasEscape(uri) ==> r == Some(uri)
    decreases |uri|
  {
    DecodeOnceShrinksOrFixes();
    DecodeOnceChangesIffEscape(uri);
    match DecodeUriComponent(uri)
    case None => None
    case Some(once) =>
      if once == uri then Some(uri)
      else
        assert FullyDecodeWith(DecodeOnce, uri) == FullyDecodeWith(DecodeOnce, once);
        FullyDecodeChecked(once)
  }

  /** Passes over a string that a pass leaves alone leave it alone. */
  lemma {:induction false} IterateFixed(s: string, m: nat)
    requires DecodeOnce(s) == s
    ensures Iterate(DecodeOnce, s, m) == s
    decreases m
  {
    if m > 0 {
      IterateFixed(s, m - 1);
    }
  }

  /** Past a well-formed string that a pass changes, the loop goes on with the decoded string. */
  lemma {:induction false} CheckedStep(uri: string)
    requires !Malformed(uri) && DecodeOnce(uri) != uri
    ensures FullyDecodeChecked(uri) == FullyDecodeChecked(DecodeOnce(uri))
  {
  }

  /** From some pass on, the strings are those of the passes over the once-decoded string. */
  lemma {:induction false} MalformedLater(uri: string, once: string)
    requires once == DecodeOnce(uri) && !Malformed(uri)
    ensures (exists m: nat :: Malformed(Iterate(DecodeOnce, uri, m)))
        <==> (exists m: nat :: Malformed(Iterate(DecodeOnce, once, m)))
  {
    if m: nat :| Malformed(Iterate(DecodeOnce, once, m)) {
      assert Iterate(DecodeOnce, uri, m + 1) == Iterate(DecodeOnce, once, m);
    }
    if m: nat :| Malformed(Iterate(DecodeOnce, uri, m)) {
      assert m != 0;
      assert Iterate(DecodeOnce, uri, m) == Iterate(DecodeOnce, once, m - 1);
    }
  }

  /** The loop throws exactly when one of the strings that the passes go through is malformed. */
  lemma {:induction false} FullyDecodeCheckedFails(uri: string)
    ensures FullyDecodeChecked(uri).None? <==> exists m: nat :: Malformed(Iterate(DecodeOnce, uri, m))
    decreases |uri|
  {
    if Malformed(uri) {
      assert Iterate(DecodeOnce, uri, 0) == uri;
    } else if DecodeOnce(uri) == uri {
      forall m: nat ensures !Malformed(Iterate(DecodeOnce, uri, m)) {
        IterateFixed(uri, m);
      }
    } else {
      FullyDecodeCheckedFails(DecodeOnce(uri));
      CheckedStep(uri);
      MalformedLater(uri, DecodeOnce(uri));
    }
  }

  /**
   * An escaped `%` behind a prefix without `%`: the first pass turns `%25` into a lone `%`, and
   * the next `decodeURIComponent` throws.
   */
  lemma {:induction false} EscapedPercentThrows(p: string)
    requires '%' !in p
    ensures FullyDecodeChecked(p + "%25").None?
  {
    var uri, once := p + "%25", p + "%";
    var code: string := "%25";
    assert StartsWithEscape(code) && code[3..] == [];
    DecodeOnceEscapeHead(code);
    DecodeOncePlainPrefix(p, code);
    assert DecodeOnce(uri) == once;
    forall j | 0 <= j < |uri| ensures !BadEscapeAt(uri, j) {
      if j < |p| {
        assert uri[j] == p[j];
      }
    }
    assert BadEscapeAt(once, |p|);
  }
}
