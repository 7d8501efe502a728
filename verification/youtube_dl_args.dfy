/**
 * A simplified reading of a youtube-dl argument list: an option that takes a value consumes the
 * next token. Builders construct their lists from options (`Render`); `Parse` reads a list back,
 * and `ParseAfterRender` says the two agree. `Parse` knows only the exact long spellings of the
 * options the application passes; youtube-dl itself also reads `--opt=value`, unambiguous
 * prefixes and short options, and it rejects a value-taking option that has no value.
 */
module YoutubeDlArgs {
  import opened Wrappers

  /** The youtube-dl options the application passes. */
  datatype Flag =
    | IgnoreErrors | Format | Output | RestrictFilenames | Continue | PreferFfmpeg | FfmpegLocation
    | AddMetadata | AudioFormat | ExtractAudio | AudioQuality | Fixup | EmbedThumbnail | Verbose | PrintTraffic

  function Spelling(f: Flag): string {
    match f
    case IgnoreErrors => "--ignore-errors"
    case Format => "--format"
    case Output => "--output"
    case RestrictFilenames => "--restrict-filenames"
    case Continue => "--continue"
    case PreferFfmpeg => "--prefer-ffmpeg"
    case FfmpegLocation => "--ffmpeg-location"
    case AddMetadata => "--add-metadata"
    case AudioFormat => "--audio-format"
    case ExtractAudio => "--extract-audio"
    case AudioQuality => "--audio-quality"
    case Fixup => "--fixup"
    case EmbedThumbnail => "--embed-thumbnail"
    case Verbose => "--verbose"
    case PrintTraffic => "--print-traffic"
  }

  /** Flags by spelling. */
  const FlagsBySpelling: map<string, Flag> := map[
    "--ignore-errors" := IgnoreErrors, "--format" := Format, "--output" := Output,
    "--restrict-filenames" := RestrictFilenames, "--continue" := Continue,
    "--prefer-ffmpeg" := PreferFfmpeg, "--ffmpeg-location" := FfmpegLocation,
    "--add-metadata" := AddMetadata, "--audio-format" := AudioFormat,
    "--extract-audio" := ExtractAudio, "--audio-quality" := AudioQuality, "--fixup" := Fixup,
    "--embed-thumbnail" := EmbedThumbnail, "--verbose" := Verbose, "--print-traffic" := PrintTraffic]

  /** The flag a token spells, if any. */
  function FlagNamed(token: string): Option<Flag> {
    if token in FlagsBySpelling then Some(FlagsBySpelling[token]) else None
  }

  /** Every spelling is recognised as its own flag. */
  lemma {:induction false} FlagNamedSpelling(f: Flag)
    ensures FlagNamed(Spelling(f)) == Some(f)
  {
  }

  /** Options that consume the following token. */
  predicate TakesValue(f: Flag) {
    f.Format? || f.Output? || f.FfmpegLocation? || f.AudioFormat? || f.AudioQuality? || f.Fixup?
  }

  /** One element of the reading: a known option with its value, or any other token. */
  datatype Opt = Known(flag: Flag, value: Option<string>) | Other(token: string)

  /** A known option carries a value exactly when it takes one, and any other token spells no flag. */
  predicate OptWellFormed(o: Opt) {
    if o.Known? then (o.value.Some? <==> TakesValue(o.flag)) else FlagNamed(o.token).None?
  }

  predicate WellFormed(opts: seq<Opt>) {
    forall i :: 0 <= i < |opts| ==> OptWellFormed(opts[i])
  }

  function Tokens(o: Opt): seq<string> {
    match o
    case Other(t) => [t]
    case Known(f, None) => [Spelling(f)]
    case Known(f, Some(v)) => [Spelling(f), v]
  }

  /** The flat token list of a list of options. */
  function Render(opts: seq<Opt>): (r: seq<string>)
    ensures |r| >= |opts|
  {
    if opts == [] then [] else Tokens(opts[0]) + Render(opts[1..])
  }

  /**
   * A simplified reading of a token list: exact long spellings only, every other token is `Other`.
   * A value-taking option at the very end is read without its value, where youtube-dl would stop
   * with an error.
   */
  function Parse(args: seq<string>): (r: seq<Opt>)
    ensures |r| <= |args|
    decreases |args|
  {
    if args == [] then []
    else
      match FlagNamed(args[0])
      case None => [Other(args[0])] + Parse(args[1..])
      case Some(f) =>
        if TakesValue(f) && |args| >= 2 then [Known(f, Some(args[1]))] + Parse(args[2..])
        else [Known(f, None)] + Parse(args[1..])
  }

  lemma {:induction false} RenderCons(o: Opt, rest: seq<Opt>)
    ensures Render([o] + rest) == Tokens(o) + Render(rest)
  {
    assert ([o] + rest)[1..] == rest;
  }

  lemma {:induction false} RenderConcat(a: seq<Opt>, b: seq<Opt>)
    ensures Render(a + b) == Render(a) + Render(b)
  {
    if a == [] {
      assert a + b == b;
    } else {
      var o, more := a[0], a[1..];
      calc {
        Render(a + b);
        == { assert a + b == [o] + (more + b); RenderCons(o, more + b); }
        Tokens(o) + Render(more + b);
        == { RenderConcat(more, b); }
        Tokens(o) + (Render(more) + Render(b));
        == { RenderCons(o, more); assert a == [o] + more; }
        Render(a) + Render(b);
      }
    }
  }

  lemma {:induction false} WellFormedConcat(a: seq<Opt>, b: seq<Opt>)
    requires WellFormed(a) && WellFormed(b)
    ensures WellFormed(a + b)
  {
    forall i | 0 <= i < |a + b| ensures OptWellFormed((a + b)[i]) {
      if i >= |a| {
        assert (a + b)[i] == b[i - |a|];
      }
    }
  }

  /** Reading one rendered option in front of other tokens. */
  lemma {:induction false} ParseTokens(o: Opt, tail: seq<string>)
    requires WellFormed([o])
    ensures Parse(Tokens(o) + tail) == [o] + Parse(tail)
  {
    assert o in [o];
    match o
    case Other(t) =>
      var args := [t] + tail;
      assert args[1..] == tail;
    case Known(f, None) =>
      FlagNamedSpelling(f);
      var args := [Spelling(f)] + tail;
      assert args[1..] == tail;
    case Known(f, Some(v)) =>
      FlagNamedSpelling(f);
      var args := [Spelling(f), v] + tail;
      assert args[2..] == tail;
  }

  lemma {:induction false} WellFormedParts(opts: seq<Opt>)
    requires WellFormed(opts) && opts != []
    ensures WellFormed([opts[0]]) && WellFormed(opts[1..])
  {
    forall i | 0 <= i < |opts| - 1 ensures OptWellFormed(opts[1..][i]) {
      assert opts[1..][i] == opts[i + 1];
    }
  }

  /** Reading a rendered list gives the options back, followed by the reading of whatever comes after. */
  lemma {:induction false} ParseAfterRender(opts: seq<Opt>, rest: seq<string>)
    requires WellFormed(opts)
    ensures Parse(Render(opts) + rest) == opts + Parse(rest)
  {
    if opts != [] {
      var o := opts[0];
      var more := opts[1..];
      var tail := Render(more) + rest;
      WellFormedParts(opts);
      calc {
        Parse(Render(opts) + rest);
        == { assert Render(opts) + rest == Tokens(o) + tail; }
        Parse(Tokens(o) + tail);
        == { ParseTokens(o, tail); }
        [o] + Parse(tail);
        == { ParseAfterRender(more, rest); }
        [o] + (more + Parse(rest));
        == { assert opts == [o] + more; }
        opts + Parse(rest);
      }
    } else {
      assert Render(opts) + rest == rest;
    }
  }

  lemma {:induction false} ParseRender(opts: seq<Opt>)
    requires WellFormed(opts)
    ensures Parse(Render(opts)) == opts
  {
    ParseAfterRender(opts, []);
    assert Render(opts) + [] == Render(opts);
  }

  /** The option is the flag, with or without a value. */
  predicate IsFlag(o: Opt, f: Flag) {
    o.Known? && o.flag == f
  }

  /** Some option of the list is this flag. */
  predicate Mentions(opts: seq<Opt>, f: Flag) {
    exists i :: 0 <= i < |opts| && IsFlag(opts[i], f)
  }

  /** The flag occurs with value `v`, and every occurrence of it has value `v`. */
  predicate SetsTo(opts: seq<Opt>, f: Flag, v: string) {
    && (exists i :: 0 <= i < |opts| && opts[i] == Known(f, Some(v)))
    && forall i :: 0 <= i < |opts| && IsFlag(opts[i], f) ==> opts[i].value == Some(v)
  }

  /** The flag occurs in the simplified reading (`Parse`) of the list. */
  predicate HasOption(args: seq<string>, f: Flag) {
    Mentions(Parse(args), f)
  }

  /** The simplified reading (`Parse`) gives the flag value `v`, whichever occurrence is taken to win. */
  predicate Sets(args: seq<string>, f: Flag, v: string) {
    SetsTo(Parse(args), f, v)
  }

  lemma {:induction false} MentionsConcat(a: seq<Opt>, b: seq<Opt>, f: Flag)
    ensures Mentions(a + b, f) <==> Mentions(a, f) || Mentions(b, f)
  {
    var ab := a + b;
    if Mentions(ab, f) {
      var i :| 0 <= i < |ab| && IsFlag(ab[i], f);
      if i < |a| {
        assert ab[i] == a[i];
      } else {
        assert ab[i] == b[i - |a|];
      }
    }
    if Mentions(a, f) {
      var i :| 0 <= i < |a| && IsFlag(a[i], f);
      assert ab[i] == a[i];
    }
    if Mentions(b, f) {
      var i :| 0 <= i < |b| && IsFlag(b[i], f);
      assert ab[|a| + i] == b[i];
    }
  }

  /** Options that do not mention the flag leave its setting alone, on either side. */
  lemma {:induction false} SetsToConcat(a: seq<Opt>, b: seq<Opt>, f: Flag, v: string)
    requires !Mentions(a, f)
    ensures SetsTo(a + b, f, v) <==> SetsTo(b, f, v)
    ensures SetsTo(b + a, f, v) <==> SetsTo(b, f, v)
  {
    SetsToAppend(a, b, f, v);
    SetsToPrepend(b, a, f, v);
  }

  lemma {:induction false} SetsToAppend(a: seq<Opt>, b: seq<Opt>, f: Flag, v: string)
    requires !Mentions(a, f)
    ensures SetsTo(a + b, f, v) <==> SetsTo(b, f, v)
  {
    var ab := a + b;
    assert forall i :: 0 <= i < |b| ==> ab[|a| + i] == b[i];
    assert forall i :: 0 <= i < |a| ==> ab[i] == a[i] && !IsFlag(a[i], f);
    if SetsTo(ab, f, v) {
      var i :| 0 <= i < |ab| && ab[i] == Known(f, Some(v));
      assert i >= |a| by {
        if i < |a| {
          assert IsFlag(a[i], f);
        }
      }
      assert b[i - |a|] == Known(f, Some(v));
    }
    if SetsTo(b, f, v) {
      var i :| 0 <= i < |b| && b[i] == Known(f, Some(v));
      assert ab[|a| + i] == Known(f, Some(v));
      forall j | 0 <= j < |ab| && IsFlag(ab[j], f) ensures ab[j].value == Some(v) {
        if j >= |a| {
          assert ab[j] == b[j - |a|];
        }
      }
    }
  }

  lemma {:induction false} SetsToPrepend(b: seq<Opt>, a: seq<Opt>, f: Flag, v: string)
    requires !Mentions(a, f)
    ensures SetsTo(b + a, f, v) <==> SetsTo(b, f, v)
  {
    var ba := b + a;
    assert forall i :: 0 <= i < |b| ==> ba[i] == b[i];
    assert forall i :: 0 <= i < |a| ==> ba[|b| + i] == a[i] && !IsFlag(a[i], f);
    if SetsTo(ba, f, v) {
      var i :| 0 <= i < |ba| && ba[i] == Known(f, Some(v));
      assert i < |b| by {
        if i >= |b| {
          assert IsFlag(a[i - |b|], f);
        }
      }
    }
    if SetsTo(b, f, v) {
      forall j | 0 <= j < |ba| && IsFlag(ba[j], f) ensures ba[j].value == Some(v) {
        if j >= |b| {
          assert IsFlag(a[j - |b|], f);
        }
      }
    }
  }
}
