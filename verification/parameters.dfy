/**
 * The youtube-dl argument list built by `windowMainDownloadContent` (app/js/modules/ui.js).
 * Each mode list is written as the options of the source, in the source's order, and
 * `YoutubeDlArgs.Render` spells them out token by token; the simplified reading
 * (`YoutubeDlArgs.Parse`) reads the result back. Output templates (the `path.join` results) and the
 * ffmpeg location are opaque strings.
 */
module Parameters {
  import opened Wrappers
  import opened Text
  import opened YoutubeDlArgs

  /** The two download modes the start buttons ask for. */
  datatype Mode = Audio | Video

  /** The mode a mode string names; any other string is an unknown mode. */
  function ModeNamed(mode: string): (r: Option<Mode>)
    ensures r == Some(Audio) <==> mode == "audio"
    ensures r == Some(Video) <==> mode == "video"
    ensures r.None? <==> mode != "audio" && mode != "video"
  {
    if mode == "audio" then Some(Audio)
    else if mode == "video" then Some(Video)
    else None
  }

  /** The user settings the builder reads. */
  datatype Settings = Settings(
    audioFormat: string,
    verboseMode: bool,
    additionalEnabled: bool,
    additionalParameters: string)

  /** Paths the builder takes from elsewhere: the two output templates and the bundled ffmpeg. */
  datatype Layout = Layout(audioOutput: string, videoOutput: string, ffmpegPath: string)

  /** Audio formats for which the cover art is embedded. */
  predicate EmbedsThumbnail(audioFormat: string) {
    audioFormat == "mp3" || audioFormat == "m4a"
  }

  /** `--embed-thumbnail` when asked for, nothing otherwise. */
  function ThumbnailIf(embed: bool): (r: seq<Opt>)
    ensures Mentions(r, EmbedThumbnail) <==> embed
    ensures forall f :: f != EmbedThumbnail ==> !Mentions(r, f)
    ensures WellFormed(r)
  {
    if embed then
      var r := [Known(EmbedThumbnail, None)];
      assert IsFlag(r[0], EmbedThumbnail);
      r
    else []
  }

  /** The audio list as the source writes it. */
  function AudioList(audioFormat: string, layout: Layout): seq<Opt> {
    [ Known(IgnoreErrors, None),
      Known(Format, Some("bestaudio")),
      Known(Output, Some(layout.audioOutput)),
      Known(RestrictFilenames, None),
      Known(Continue, None),
      Known(PreferFfmpeg, None),
      Known(FfmpegLocation, Some(layout.ffmpegPath)),
      Known(AddMetadata, None),
      Known(AudioFormat, Some(audioFormat)),
      Known(ExtractAudio, None),
      Known(AudioQuality, Some("0")),
      Known(Fixup, Some("detect_or_warn")) ]
  }

  /** Audio mode: `--embed-thumbnail` unshifted in front of the audio list for mp3 and m4a. */
  function AudioOptions(audioFormat: string, layout: Layout): seq<Opt> {
    ThumbnailIf(EmbedsThumbnail(audioFormat)) + AudioList(audioFormat, layout)
  }

  /** Video mode: the video list as the source writes it; it has no audio-only option. */
  function VideoOptions(layout: Layout): (r: seq<Opt>)
    ensures !Mentions(r, ExtractAudio) && !Mentions(r, AudioFormat) && !Mentions(r, EmbedThumbnail)
  {
    [ Known(IgnoreErrors, None),
      Known(Format, Some("best")),
      Known(Output, Some(layout.videoOutput)),
      Known(RestrictFilenames, None),
      Known(Continue, None),
      Known(PreferFfmpeg, None),
      Known(FfmpegLocation, Some(layout.ffmpegPath)),
      Known(AddMetadata, None),
      Known(AudioQuality, Some("0")),
      Known(Fixup, Some("detect_or_warn")) ]
  }

  lemma {:induction false} AudioListWellFormed(audioFormat: string, layout: Layout)
    ensures WellFormed(AudioList(audioFormat, layout))
  {
  }

  /** The audio list extracts the audio and does not itself embed the thumbnail. */
  lemma {:induction false} AudioListFlags(audioFormat: string, layout: Layout)
    ensures Mentions(AudioList(audioFormat, layout), ExtractAudio)
    ensures !Mentions(AudioList(audioFormat, layout), EmbedThumbnail)
  {
    assert IsFlag(AudioList(audioFormat, layout)[9], ExtractAudio);
  }

  /** The configured format is passed verbatim after `--audio-format`, and the best audio stream is asked for. */
  lemma {:induction false} AudioListFormats(audioFormat: string, layout: Layout)
    ensures SetsTo(AudioList(audioFormat, layout), AudioFormat, audioFormat)
    ensures SetsTo(AudioList(audioFormat, layout), Format, "bestaudio")
  {
    var opts := AudioList(audioFormat, layout);
    assert opts[8] == Known(AudioFormat, Some(audioFormat));
    assert opts[1] == Known(Format, Some("bestaudio"));
  }

  lemma {:induction false} AudioListPaths(audioFormat: string, layout: Layout)
    ensures SetsTo(AudioList(audioFormat, layout), Output, layout.audioOutput)
    ensures SetsTo(AudioList(audioFormat, layout), FfmpegLocation, layout.ffmpegPath)
  {
    var opts := AudioList(audioFormat, layout);
    assert opts[2] == Known(Output, Some(layout.audioOutput));
    assert opts[6] == Known(FfmpegLocation, Some(layout.ffmpegPath));
  }

  lemma {:induction false} AudioListQuiet(audioFormat: string, layout: Layout)
    ensures !Mentions(AudioList(audioFormat, layout), Verbose)
    ensures !Mentions(AudioList(audioFormat, layout), PrintTraffic)
  {
  }

  lemma {:induction false} VideoOptionsWellFormed(layout: Layout)
    ensures WellFormed(VideoOptions(layout))
  {
  }

  lemma {:induction false} VideoOptionsSettings(layout: Layout)
    ensures SetsTo(VideoOptions(layout), Format, "best")
    ensures SetsTo(VideoOptions(layout), Output, layout.videoOutput)
  {
    var opts := VideoOptions(layout);
    assert opts[1] == Known(Format, Some("best"));
    assert opts[2] == Known(Output, Some(layout.videoOutput));
  }

  lemma {:induction false} VideoOptionsQuiet(layout: Layout)
    ensures !Mentions(VideoOptions(layout), Verbose)
    ensures !Mentions(VideoOptions(layout), PrintTraffic)
  {
  }

  /** The verbose prefix: `--print-traffic` then `--verbose` (each unshifted in turn), or nothing. */
  function VerboseOptions(verboseMode: bool): (r: seq<Opt>)
    ensures Mentions(r, Verbose) <==> verboseMode
    ensures Mentions(r, PrintTraffic) <==> verboseMode
    ensures forall f :: f != Verbose && f != PrintTraffic ==> !Mentions(r, f)
    ensures WellFormed(r)
  {
    if verboseMode then
      var r := [Known(PrintTraffic, None), Known(Verbose, None)];
      assert IsFlag(r[0], PrintTraffic) && IsFlag(r[1], Verbose);
      r
    else []
  }

  /** The tokens of the verbose prefix. */
  lemma {:induction false} VerboseTokens()
    ensures Render(VerboseOptions(true)) == ["--print-traffic", "--verbose"]
    ensures Render(VerboseOptions(false)) == []
  {
    RenderCons(Known(PrintTraffic, None), [Known(Verbose, None)]);
    RenderCons(Known(Verbose, None), []);
  }

  /** The list of a mode. */
  function ModeOptions(mode: Mode, s: Settings, layout: Layout): seq<Opt> {
    match mode
    case Audio => AudioOptions(s.audioFormat, layout)
    case Video => VideoOptions(layout)
  }

  /** The built-in options: the verbose prefix, then the list of the mode. */
  function BuiltInOptions(mode: Mode, s: Settings, layout: Layout): (r: seq<Opt>)
    ensures WellFormed(r)
  {
    AudioListWellFormed(s.audioFormat, layout);
    VideoOptionsWellFormed(layout);
    WellFormedConcat(ThumbnailIf(EmbedsThumbnail(s.audioFormat)), AudioList(s.audioFormat, layout));
    WellFormedConcat(VerboseOptions(s.verboseMode), ModeOptions(mode, s, layout));
    VerboseOptions(s.verboseMode) + ModeOptions(mode, s, layout)
  }

  /** The user's extra parameters: split on single spaces (empty tokens kept), or none. */
  function ExtraParameters(s: Settings): (r: seq<string>)
    ensures s.additionalEnabled ==> |r| >= 1 && Join(r, ' ') == s.additionalParameters
    ensures s.additionalEnabled ==> forall k :: 0 <= k < |r| ==> ' ' !in r[k]
    ensures !s.additionalEnabled ==> r == []
  {
    if s.additionalEnabled then Split(s.additionalParameters, ' ') else []
  }

  datatype BuildError = UnknownMode

  /** The list of a known mode: the verbose prefix, the mode list, then the extra parameters. */
  function Assemble(m: Mode, s: Settings, layout: Layout): (r: seq<string>)
    ensures |r| >= |ExtraParameters(s)|
  {
    Render(VerboseOptions(s.verboseMode)) + (Render(ModeOptions(m, s, layout)) + ExtraParameters(s))
  }

  /**
   * The argument list handed to youtube-dl for every URL of the queue. An unknown mode builds
   * nothing; otherwise the extra parameters close the list.
   */
  function YoutubeDlParameters(mode: string, s: Settings, layout: Layout): (r: Result<seq<string>, BuildError>)
    ensures r.Err? <==> ModeNamed(mode).None?
    ensures r.Ok? ==> var extras := ExtraParameters(s);
      |r.value| >= |extras| && r.value[|r.value| - |extras|..] == extras
  {
    match ModeNamed(mode)
    case None => Err(UnknownMode)
    case Some(m) =>
      var args := Assemble(m, s, layout);
      SuffixOf(Render(VerboseOptions(s.verboseMode)), Render(ModeOptions(m, s, layout)), ExtraParameters(s));
      Ok(args)
  }

  lemma {:induction false} SuffixOf<T>(a: seq<T>, b: seq<T>, c: seq<T>)
    ensures var x := a + (b + c); x[|x| - |c|..] == c
  {
    var x := a + (b + c);
    assert x[|x| - |c|..] == c;
  }

  lemma {:induction false} Regroup<T>(a: seq<T>, b: seq<T>, c: seq<T>)
    ensures a + (b + c) == (a + b) + c
  {
  }

  /** The simplified reading (`Parse`) gives the built-in options exactly as built, followed by its reading of the extras. */
  lemma {:induction false} ParametersReading(mode: string, s: Settings, layout: Layout)
    requires ModeNamed(mode).Some?
    ensures Parse(YoutubeDlParameters(mode, s, layout).value)
         == BuiltInOptions(ModeNamed(mode).value, s, layout) + Parse(ExtraParameters(s))
  {
    var m := ModeNamed(mode).value;
    var v, o, e := VerboseOptions(s.verboseMode), ModeOptions(m, s, layout), ExtraParameters(s);
    var args := YoutubeDlParameters(mode, s, layout).value;
    assert args == Render(v) + (Render(o) + e);
    Regroup(Render(v), Render(o), e);
    RenderConcat(v, o);
    assert args == Render(BuiltInOptions(m, s, layout)) + e;
    ParseAfterRender(BuiltInOptions(m, s, layout), e);
  }

  /** Verbose mode puts the verbose prefix in front of the list it would otherwise build. */
  lemma {:induction false} VerboseInFront(mode: string, s: Settings, layout: Layout)
    requires ModeNamed(mode).Some?
    ensures YoutubeDlParameters(mode, s.(verboseMode := true), layout).value
         == Render(VerboseOptions(true)) + YoutubeDlParameters(mode, s.(verboseMode := false), layout).value
  {
    var m := ModeNamed(mode).value;
    var on, off := s.(verboseMode := true), s.(verboseMode := false);
    var rest := Render(ModeOptions(m, s, layout)) + ExtraParameters(s);
    assert ModeOptions(m, on, layout) == ModeOptions(m, s, layout) == ModeOptions(m, off, layout);
    assert ExtraParameters(on) == ExtraParameters(s) == ExtraParameters(off);
    assert YoutubeDlParameters(mode, on, layout).value == Render(VerboseOptions(true)) + rest;
    assert YoutubeDlParameters(mode, off, layout).value == Render(VerboseOptions(false)) + rest;
    assert VerboseOptions(false) == [];
    assert Render(VerboseOptions(false)) + rest == rest;
  }

  /** Verbose mode puts `--print-traffic --verbose` in front of the list it would otherwise build. */
  lemma {:induction false} VerbosePrefix(mode: string, s: Settings, layout: Layout)
    requires ModeNamed(mode).Some?
    ensures YoutubeDlParameters(mode, s.(verboseMode := true), layout).value
         == ["--print-traffic", "--verbose"] + YoutubeDlParameters(mode, s.(verboseMode := false), layout).value
  {
    VerboseInFront(mode, s, layout);
    VerboseTokens();
  }

  /** Extra parameters come after every built-in token, and joining them with spaces gives the setting back. */
  lemma {:induction false} ExtrasAppended(mode: string, s: Settings, layout: Layout)
    requires ModeNamed(mode).Some?
    requires s.additionalEnabled
    ensures YoutubeDlParameters(mode, s, layout).value
         == YoutubeDlParameters(mode, s.(additionalEnabled := false), layout).value + Split(s.additionalParameters, ' ')
    ensures Join(Split(s.additionalParameters, ' '), ' ') == s.additionalParameters
  {
    var m := ModeNamed(mode).value;
    var off := s.(additionalEnabled := false);
    var v := Render(VerboseOptions(s.verboseMode));
    var body := Render(ModeOptions(m, s, layout));
    var e := Split(s.additionalParameters, ' ');
    assert VerboseOptions(off.verboseMode) == VerboseOptions(s.verboseMode);
    assert ModeOptions(m, off, layout) == ModeOptions(m, s, layout);
    assert YoutubeDlParameters(mode, s, layout).value == v + (body + e);
    assert YoutubeDlParameters(mode, off, layout).value == v + (body + []);
    assert body + [] == body;
    Regroup(v, body, e);
  }

  /** Video mode ignores the configured audio format. */
  lemma {:induction false} VideoIgnoresAudioFormat(s: Settings, layout: Layout, otherFormat: string)
    ensures YoutubeDlParameters("video", s, layout) == YoutubeDlParameters("video", s.(audioFormat := otherFormat), layout)
  {
    var t := s.(audioFormat := otherFormat);
    assert ModeOptions(Video, s, layout) == ModeOptions(Video, t, layout);
    assert BuiltInOptions(Video, s, layout) == BuiltInOptions(Video, t, layout);
  }

  /** Without extras, youtube-dl reads exactly the built-in options. */
  lemma {:induction false} ReadingWithoutExtras(mode: string, s: Settings, layout: Layout)
    requires ModeNamed(mode).Some? && !s.additionalEnabled
    ensures Parse(YoutubeDlParameters(mode, s, layout).value) == BuiltInOptions(ModeNamed(mode).value, s, layout)
  {
    ParametersReading(mode, s, layout);
    assert Parse(ExtraParameters(s)) == [];
    var b := BuiltInOptions(ModeNamed(mode).value, s, layout);
    assert b + [] == b;
  }

  /** The audio mode list embeds the thumbnail exactly for mp3 and m4a, extracts the audio in the configured format, and is quiet. */
  lemma {:induction false} AudioOptionsFlags(audioFormat: string, layout: Layout)
    ensures Mentions(AudioOptions(audioFormat, layout), EmbedThumbnail) <==> EmbedsThumbnail(audioFormat)
    ensures Mentions(AudioOptions(audioFormat, layout), ExtractAudio)
    ensures SetsTo(AudioOptions(audioFormat, layout), AudioFormat, audioFormat)
    ensures !Mentions(AudioOptions(audioFormat, layout), Verbose)
  {
    var t := ThumbnailIf(EmbedsThumbnail(audioFormat));
    var a := AudioList(audioFormat, layout);
    AudioListFlags(audioFormat, layout);
    AudioListFormats(audioFormat, layout);
    AudioListQuiet(audioFormat, layout);
    MentionsConcat(t, a, EmbedThumbnail);
    MentionsConcat(t, a, ExtractAudio);
    MentionsConcat(t, a, Verbose);
    SetsToConcat(t, a, AudioFormat, audioFormat);
  }

  /** Behind the verbose prefix a list keeps what it says about every other flag. */
  lemma {:induction false} BehindVerbose(verboseMode: bool, o: seq<Opt>, f: Flag, x: string)
    requires f != Verbose && f != PrintTraffic
    ensures Mentions(VerboseOptions(verboseMode) + o, f) <==> Mentions(o, f)
    ensures SetsTo(VerboseOptions(verboseMode) + o, f, x) <==> SetsTo(o, f, x)
  {
    MentionsConcat(VerboseOptions(verboseMode), o, f);
    SetsToConcat(VerboseOptions(verboseMode), o, f, x);
  }

  /** Behind the verbose prefix a quiet list is verbose exactly in verbose mode. */
  lemma {:induction false} VerboseBehind(verboseMode: bool, o: seq<Opt>)
    requires !Mentions(o, Verbose)
    ensures Mentions(VerboseOptions(verboseMode) + o, Verbose) <==> verboseMode
  {
    MentionsConcat(VerboseOptions(verboseMode), o, Verbose);
  }

  /** The built-in audio options: the audio mode list's flags, and verbose exactly in verbose mode. */
  lemma {:induction false} AudioBuiltIns(s: Settings, layout: Layout)
    ensures Mentions(BuiltInOptions(Audio, s, layout), EmbedThumbnail) <==> EmbedsThumbnail(s.audioFormat)
    ensures Mentions(BuiltInOptions(Audio, s, layout), ExtractAudio)
    ensures SetsTo(BuiltInOptions(Audio, s, layout), AudioFormat, s.audioFormat)
    ensures Mentions(BuiltInOptions(Audio, s, layout), Verbose) <==> s.verboseMode
  {
    var o := AudioOptions(s.audioFormat, layout);
    assert BuiltInOptions(Audio, s, layout) == VerboseOptions(s.verboseMode) + o;
    AudioOptionsFlags(s.audioFormat, layout);
    BehindVerbose(s.verboseMode, o, EmbedThumbnail, s.audioFormat);
    BehindVerbose(s.verboseMode, o, ExtractAudio, s.audioFormat);
    BehindVerbose(s.verboseMode, o, AudioFormat, s.audioFormat);
    VerboseBehind(s.verboseMode, o);
  }

  /**
   * In audio mode without extras youtube-dl embeds the thumbnail exactly for mp3 and m4a,
   * extracts the audio in the configured format, and is verbose exactly in verbose mode.
   */
  lemma {:induction false} AudioModeReading(s: Settings, layout: Layout)
    requires !s.additionalEnabled
    ensures HasOption(YoutubeDlParameters("audio", s, layout).value, EmbedThumbnail) <==> EmbedsThumbnail(s.audioFormat)
    ensures HasOption(YoutubeDlParameters("audio", s, layout).value, ExtractAudio)
    ensures Sets(YoutubeDlParameters("audio", s, layout).value, AudioFormat, s.audioFormat)
    ensures HasOption(YoutubeDlParameters("audio", s, layout).value, Verbose) <==> s.verboseMode
  {
    ReadingWithoutExtras("audio", s, layout);
    AudioBuiltIns(s, layout);
  }

  /** The built-in video options: no audio-only option, and the best format. */
  lemma {:induction false} VideoBuiltIns(s: Settings, layout: Layout)
    ensures !Mentions(BuiltInOptions(Video, s, layout), ExtractAudio)
    ensures !Mentions(BuiltInOptions(Video, s, layout), AudioFormat)
    ensures !Mentions(BuiltInOptions(Video, s, layout), EmbedThumbnail)
    ensures SetsTo(BuiltInOptions(Video, s, layout), Format, "best")
  {
    var o := VideoOptions(layout);
    assert BuiltInOptions(Video, s, layout) == VerboseOptions(s.verboseMode) + o;
    VideoOptionsSettings(layout);
    BehindVerbose(s.verboseMode, o, ExtractAudio, "best");
    BehindVerbose(s.verboseMode, o, AudioFormat, "best");
    BehindVerbose(s.verboseMode, o, EmbedThumbnail, "best");
    BehindVerbose(s.verboseMode, o, Format, "best");
  }

  /** In video mode without extras youtube-dl sees no audio-only option and downloads the best format. */
  lemma {:induction false} VideoModeReading(s: Settings, layout: Layout)
    requires !s.additionalEnabled
    ensures !HasOption(YoutubeDlParameters("video", s, layout).value, ExtractAudio)
    ensures !HasOption(YoutubeDlParameters("video", s, layout).value, AudioFormat)
    ensures !HasOption(YoutubeDlParameters("video", s, layout).value, EmbedThumbnail)
    ensures Sets(YoutubeDlParameters("video", s, layout).value, Format, "best")
  {
    ReadingWithoutExtras("video", s, layout);
    VideoBuiltIns(s, layout);
  }
}

/**
 * The older builder of `downloadContent` (app/js/renderer.js): a different order, fewer
 * options, the thumbnail for mp3 only, and no verbose prefix or extra parameters.
 */
module LegacyParameters {
  import opened Wrappers
  import opened YoutubeDlArgs
  import opened Parameters

  /** The audio list as the older builder writes it. */
  function LegacyAudioList(audioFormat: string, output: string, ffmpegPath: string): seq<Opt> {
    [ Known(Format, Some("bestaudio")),
      Known(ExtractAudio, None),
      Known(AudioFormat, Some(audioFormat)),
      Known(AudioQuality, Some("0")),
      Known(IgnoreErrors, None),
      Known(Output, Some(output)),
      Known(PreferFfmpeg, None),
      Known(FfmpegLocation, Some(ffmpegPath)) ]
  }

  /** Audio mode: `--embed-thumbnail` unshifted in front for mp3 only. */
  function LegacyAudioOptions(audioFormat: string, output: string, ffmpegPath: string): seq<Opt> {
    ThumbnailIf(audioFormat == "mp3") + LegacyAudioList(audioFormat, output, ffmpegPath)
  }

  /** Video mode: the video list as the older builder writes it, without audio extraction, thumbnail or ffmpeg location. */
  function LegacyVideoOptions(output: string): (r: seq<Opt>)
    ensures WellFormed(r)
    ensures !Mentions(r, ExtractAudio) && !Mentions(r, EmbedThumbnail) && !Mentions(r, FfmpegLocation)
  {
    [ Known(Format, Some("best")),
      Known(Output, Some(output)),
      Known(AddMetadata, None),
      Known(IgnoreErrors, None) ]
  }

  lemma {:induction false} LegacyAudioListWellFormed(audioFormat: string, output: string, ffmpegPath: string)
    ensures WellFormed(LegacyAudioList(audioFormat, output, ffmpegPath))
  {
  }

  lemma {:induction false} LegacyAudioListFlags(audioFormat: string, output: string, ffmpegPath: string)
    ensures Mentions(LegacyAudioList(audioFormat, output, ffmpegPath), ExtractAudio)
    ensures !Mentions(LegacyAudioList(audioFormat, output, ffmpegPath), EmbedThumbnail)
    ensures SetsTo(LegacyAudioList(audioFormat, output, ffmpegPath), AudioFormat, audioFormat)
  {
    var opts := LegacyAudioList(audioFormat, output, ffmpegPath);
    assert IsFlag(opts[1], ExtractAudio);
    assert opts[2] == Known(AudioFormat, Some(audioFormat));
  }

  /**
   * The list for a mode; an unknown mode builds nothing. `layout` holds the output template
   * of each mode and the ffmpeg location. youtube-dl reads back exactly the options of the mode.
   */
  function LegacyParameters(mode: string, audioFormat: string, layout: Layout): (r: Result<seq<string>, BuildError>)
    ensures r.Err? <==> ModeNamed(mode).None?
    ensures mode == "audio" ==> Parse(r.value) == LegacyAudioOptions(audioFormat, layout.audioOutput, layout.ffmpegPath)
    ensures mode == "video" ==> Parse(r.value) == LegacyVideoOptions(layout.videoOutput)
  {
    match ModeNamed(mode)
    case None => Err(UnknownMode)
    case Some(Audio) =>
      var opts := LegacyAudioOptions(audioFormat, layout.audioOutput, layout.ffmpegPath);
      LegacyAudioListWellFormed(audioFormat, layout.audioOutput, layout.ffmpegPath);
      WellFormedConcat(ThumbnailIf(audioFormat == "mp3"), LegacyAudioList(audioFormat, layout.audioOutput, layout.ffmpegPath));
      ParseRender(opts);
      Ok(Render(opts))
    case Some(Video) =>
      ParseRender(LegacyVideoOptions(layout.videoOutput));
      Ok(Render(LegacyVideoOptions(layout.videoOutput)))
  }

  /** In the older builder, youtube-dl embeds the thumbnail exactly for mp3 and always extracts the audio. */
  lemma {:induction false} LegacyAudioReading(audioFormat: string, layout: Layout)
    ensures HasOption(LegacyParameters("audio", audioFormat, layout).value, EmbedThumbnail) <==> audioFormat == "mp3"
    ensures HasOption(LegacyParameters("audio", audioFormat, layout).value, ExtractAudio)
    ensures Sets(LegacyParameters("audio", audioFormat, layout).value, AudioFormat, audioFormat)
  {
    var t := ThumbnailIf(audioFormat == "mp3");
    var a := LegacyAudioList(audioFormat, layout.audioOutput, layout.ffmpegPath);
    LegacyAudioListFlags(audioFormat, layout.audioOutput, layout.ffmpegPath);
    MentionsConcat(t, a, EmbedThumbnail);
    MentionsConcat(t, a, ExtractAudio);
    SetsToConcat(t, a, AudioFormat, audioFormat);
  }

  /** The two builders disagree on m4a: only the current one embeds the thumbnail. */
  lemma {:induction false} BuildersDisagreeOnM4a(s: Settings, layout: Layout)
    requires s.audioFormat == "m4a" && !s.additionalEnabled
    ensures HasOption(YoutubeDlParameters("audio", s, layout).value, EmbedThumbnail)
    ensures !HasOption(LegacyParameters("audio", s.audioFormat, layout).value, EmbedThumbnail)
  {
    AudioModeReading(s, layout);
    LegacyAudioReading(s.audioFormat, layout);
  }
}
