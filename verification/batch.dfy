/**
 * Starting a queue and counting its outcomes, as `windowMainDownloadContent` (app/js/modules/ui.js)
 * does it. Each youtube-dl call answers through a callback that pushes its URL to the success or
 * the failure array and then runs `downloadStatusCheck` with the queue length and both array
 * lengths. Callbacks run one at a time, in whatever order the downloads finish; here they are a
 * sequence of outcome events.
 */
module Batch {
  import opened Wrappers
  import opened Seqs
  import opened StatusCheck
  import opened Directories
  import opened UriDecode
  import opened Parameters

  datatype Outcome = Succeeded | Failed

  /** The queue length the callbacks read and the lengths of the two result arrays. */
  datatype Tracker = Tracker(total: nat, succeeded: nat, failed: nat)

  /** One callback: push to one array, then check the status with the new lengths. */
  function OnOutcome(t: Tracker, o: Outcome): (Tracker, Option<Report>) {
    var next := match o
      case Succeeded => t.(succeeded := t.succeeded + 1)
      case Failed => t.(failed := t.failed + 1);
    (next, DownloadStatusCheck(next.total, next.succeeded, next.failed))
  }

  /**
   * The callbacks in the order they arrive: the counts after the last one, and what each
   * status check returned. The counts are those of the events, whatever their order.
   */
  function Process(total: nat, events: seq<Outcome>): (r: (Tracker, seq<Option<Report>>))
    ensures |r.1| == |events|
    ensures r.0 == Tracker(total, Count(events, Succeeded), Count(events, Failed))
  {
    if events == [] then (Tracker(total, 0, 0), [])
    else
      var prev := Process(total, events[..|events| - 1]);
      var step := OnOutcome(prev.0, events[|events| - 1]);
      (step.0, prev.1 + [step.1])
  }

  /** Every event is counted exactly once. */
  lemma {:induction false} CountsAddUp(events: seq<Outcome>)
    ensures Count(events, Succeeded) + Count(events, Failed) == |events|
  {
    if events != [] {
      CountsAddUp(events[..|events| - 1]);
      assert events[|events| - 1] == Succeeded || events[|events| - 1] == Failed;
    }
  }

  /** The report of the k-th callback is the status check of the counts after the first k + 1 events. */
  lemma {:induction false} ReportOfEvent(total: nat, events: seq<Outcome>, k: nat)
    requires k < |events|
    ensures Process(total, events).1[k]
         == DownloadStatusCheck(total, Count(events[..k + 1], Succeeded), Count(events[..k + 1], Failed))
  {
    var init := events[..|events| - 1];
    if k < |events| - 1 {
      ReportOfEvent(total, init, k);
      assert init[..k + 1] == events[..k + 1];
    } else {
      assert events[..k + 1] == events;
    }
  }

  /** While no more events arrive than the queue holds, the two arrays never outgrow the queue. */
  lemma {:induction false} CountsBounded(total: nat, events: seq<Outcome>)
    requires |events| <= total
    ensures var t := Process(total, events).0; t.succeeded + t.failed <= t.total
  {
    CountsAddUp(events);
  }

  /** A callback finishes the queue exactly when it is the last one the queue expects. */
  lemma {:induction false} CompletionOnLastEvent(total: nat, events: seq<Outcome>, k: nat)
    requires |events| <= total && k < |events|
    ensures Process(total, events).1[k].Some? <==> k + 1 == total
  {
    ReportOfEvent(total, events, k);
    CountsAddUp(events[..k + 1]);
  }

  /** A whole queue's callbacks produce exactly one report, from the last of them. */
  lemma {:induction false} OneReportPerQueue(events: seq<Outcome>)
    requires |events| >= 1
    ensures var reports := Process(|events|, events).1;
      && reports[|events| - 1].Some?
      && forall k :: 0 <= k < |events| - 1 ==> reports[k].None?
  {
    CompletionOnLastEvent(|events|, events, |events| - 1);
    forall k | 0 <= k < |events| - 1 ensures Process(|events|, events).1[k].None? {
      CompletionOnLastEvent(|events|, events, k);
    }
  }

  /** The final report of a whole queue: success when nothing failed, error when nothing succeeded, warning otherwise. */
  lemma {:induction false} FinalSeverity(events: seq<Outcome>)
    requires |events| >= 1
    ensures Process(|events|, events).1[|events| - 1].Some?
    ensures var report := Process(|events|, events).1[|events| - 1].value;
      && (report.severity == Success <==> Failed !in events)
      && (report.severity == Error <==> Succeeded !in events)
      && (report.severity == Warning <==> Succeeded in events && Failed in events)
  {
    OneReportPerQueue(events);
    ReportOfEvent(|events|, events, |events| - 1);
    assert events[..|events|] == events;
    CountsAddUp(events);
  }

  /** The number of times `x` occurs is its multiplicity in the multiset of the sequence. */
  lemma {:induction false} CountIsMultiplicity(events: seq<Outcome>, x: Outcome)
    ensures Count(events, x) == multiset(events)[x]
  {
    if events != [] {
      var init := events[..|events| - 1];
      CountIsMultiplicity(init, x);
      assert events == init + [events[|events| - 1]];
    }
  }

  /** The order in which the downloads finish does not change the counts or the final report. */
  lemma {:induction false} OrderIndependent(total: nat, a: seq<Outcome>, b: seq<Outcome>)
    requires multiset(a) == multiset(b) && |a| >= 1
    ensures Process(total, a).0 == Process(total, b).0
    ensures Process(total, a).1[|a| - 1] == Process(total, b).1[|b| - 1]
  {
    CountIsMultiplicity(a, Succeeded);
    CountIsMultiplicity(a, Failed);
    CountIsMultiplicity(b, Succeeded);
    CountIsMultiplicity(b, Failed);
    assert |a| == |b| by {
      CountsAddUp(a);
      CountsAddUp(b);
    }
    ReportOfEvent(total, a, |a| - 1);
    ReportOfEvent(total, b, |b| - 1);
    assert a[..|a|] == a;
    assert b[..|b|] == b;
  }

  /** One youtube-dl call: the URL and the argument list. */
  datatype Exec = Exec(url: string, args: seq<string>)

  /**
   * The dispatch loop: each queue entry in turn is decoded and gets one call, with the decoded
   * URL and the same argument list. A decoding that throws (`None`) ends the loop there: every
   * entry before it has its call, and no entry from it on has one.
   */
  method Dispatch(queue: seq<string>, decode: string -> Option<string>, args: seq<string>) returns (execs: seq<Exec>)
    ensures |execs| <= |queue|
    ensures forall i :: 0 <= i < |execs| ==> decode(queue[i]) == Some(execs[i].url) && execs[i].args == args
    ensures |execs| < |queue| ==> decode(queue[|execs|]).None?
    ensures |execs| == |queue| <==> forall i :: 0 <= i < |queue| ==> decode(queue[i]).Some?
  {
    execs := [];
    var i := 0;
    while i < |queue|
      invariant i <= |queue| && |execs| == i
      invariant forall j :: 0 <= j < i ==> decode(queue[j]) == Some(execs[j].url) && execs[j].args == args
    {
      match decode(queue[i])
      case None =>
        return;
      case Some(url) =>
        execs := execs + [Exec(url, args)];
        i := i + 1;
    }
  }

  /**
   * A queue that got fewer calls than it holds never finishes: the callbacks read the full queue
   * length, so none of them produces a report, whatever their outcomes and order.
   */
  lemma {:induction false} ShortLaunchNeverReports(total: nat, events: seq<Outcome>)
    requires |events| < total
    ensures forall k :: 0 <= k < |events| ==> Process(total, events).1[k].None?
  {
    forall k | 0 <= k < |events| ensures Process(total, events).1[k].None? {
      CompletionOnLastEvent(total, events, k);
    }
  }

  /** Why a queue did not start. */
  datatype StartError = DirectoryUnavailable | DirectoryNotWriteable | UnexpectedMode

  /**
   * What starting a queue left behind: whether the start buttons were disabled, whether the
   * to-do list was marked non-empty, the in-app error notice, and the youtube-dl calls.
   */
  datatype Launch = Launch(
    uiDisabled: bool,
    markedNonEmpty: bool,
    notice: Option<string>,
    failure: Option<StartError>,
    execs: seq<Exec>,
    uriError: bool)

  const UnexpectedModeNotice: string := "Unexpected download mode. Please report this issue"

  /**
   * `windowMainDownloadContent`: an unusable download directory returns silently; otherwise the
   * buttons are disabled and the list is marked non-empty before the mode is looked at, so an
   * unknown mode leaves them disabled. A known mode builds the arguments once and dispatches the
   * queue; a URL on which `fullyDecodeURI` throws ends the dispatch with a `URIError`.
   */
  method DownloadContent(fs: FileSystem, dir: string, mode: string, s: Settings, layout: Layout, queue: seq<string>)
    returns (r: Launch)
    ensures !IsDirectoryAvailable(fs, dir) ==> r == Launch(false, false, None, Some(DirectoryUnavailable), [], false)
    ensures IsDirectoryAvailable(fs, dir) && !IsDirectoryWriteable(fs, dir) ==>
      r == Launch(false, false, None, Some(DirectoryNotWriteable), [], false)
    ensures Usable(fs, dir) ==> r.uiDisabled && r.markedNonEmpty
    ensures Usable(fs, dir) && ModeNamed(mode).None? ==>
      r.notice == Some(UnexpectedModeNotice) && r.failure == Some(UnexpectedMode) && r.execs == [] && !r.uriError
    ensures r.failure.None? <==> Usable(fs, dir) && ModeNamed(mode).Some?
    ensures r.failure.None? ==> r.notice.None? && |r.execs| <= |queue|
    ensures r.failure.None? ==> forall i :: 0 <= i < |r.execs| ==>
      r.execs[i] == Exec(FullyDecodeUri(queue[i]), YoutubeDlParameters(mode, s, layout).value)
      && FullyDecodeChecked(queue[i]).Some?
    ensures r.uriError <==> r.failure.None? && |r.execs| < |queue|
    ensures r.uriError ==> FullyDecodeChecked(queue[|r.execs|]).None?
    ensures r.failure.None? ==> (!r.uriError <==> forall i :: 0 <= i < |queue| ==> FullyDecodeChecked(queue[i]).Some?)
    ensures forall i :: 0 <= i < |r.execs| ==> !HasEscape(r.execs[i].url)
  {
    if !IsDirectoryAvailable(fs, dir) {
      return Launch(false, false, None, Some(DirectoryUnavailable), [], false);
    }
    if !IsDirectoryWriteable(fs, dir) {
      return Launch(false, false, None, Some(DirectoryNotWriteable), [], false);
    }
    match YoutubeDlParameters(mode, s, layout)
    case Err(_) =>
      r := Launch(true, true, Some(UnexpectedModeNotice), Some(UnexpectedMode), [], false);
    case Ok(args) =>
      var execs := Dispatch(queue, FullyDecodeChecked, args);
      r := Launch(true, true, None, None, execs, |execs| < |queue|);
  }
}
