/**
 * `downloadStatusCheck` (app/js/modules/utils.js): every download callback calls it with the
 * queue length and the numbers of downloads that succeeded and failed so far. Once every download
 * has reported, it builds one final report and sends it to the OS notification, the in-app notice
 * and the log, then tells the main window that the queue is finished.
 */
module StatusCheck {
  import opened Wrappers
  import opened Text
  import opened Seqs

  /** The notice types of the three final reports. */
  datatype Severity = Success | Warning | Error

  datatype Report = Report(severity: Severity, text: string)

  /** The beginning every final report shares; the queue length follows it. */
  const QueuePrefix: string := "Finished entire download queue ("

  function SuccessText(overall: nat): string {
    QueuePrefix + NatToString(overall) + ") successfully"
  }

  function WarningText(overall: nat, succeeded: nat, failed: nat): string {
    QueuePrefix + NatToString(overall) + ") - " + NatToString(succeeded) + " succeeded and "
      + NatToString(failed) + " failed with errors."
  }

  function ErrorText(overall: nat): string {
    QueuePrefix + NatToString(overall) + ") - but all downloads failed with errors."
  }

  /**
   * The three `if`s in source order. They are not exclusive: a later one overwrites the report
   * of an earlier one. `None` is the report variable before any assignment.
   */
  function Overwrites(overall: nat, succeeded: nat, failed: nat): Option<Report> {
    var afterSuccess :=
      if overall == succeeded then Some(Report(Success, SuccessText(overall))) else None;
    var afterWarning :=
      if overall == succeeded + failed && succeeded > 0 && failed > 0
      then Some(Report(Warning, WarningText(overall, succeeded, failed)))
      else afterSuccess;
    if overall == failed && succeeded == 0 then Some(Report(Error, ErrorText(overall))) else afterWarning
  }

  /**
   * The final report, or `None` while downloads are still outstanding. When every download has
   * reported, one of the three branches always assigns a report.
   */
  function DownloadStatusCheck(overall: nat, succeeded: nat, failed: nat): (r: Option<Report>)
    ensures r.Some? <==> overall == succeeded + failed
    ensures r.Some? && overall > 0 ==> (r.value.severity == Success <==> failed == 0)
    ensures r.Some? && overall > 0 ==> (r.value.severity == Warning <==> succeeded > 0 && failed > 0)
    ensures r.Some? && overall > 0 ==> (r.value.severity == Error <==> succeeded == 0)
    ensures r.Some? && overall == 0 ==> r.value.severity == Error
  {
    if overall == succeeded + failed then Overwrites(overall, succeeded, failed) else None
  }

  /** An independent statement of the outcome: nothing yet, all failed, none failed, or mixed. */
  function Classify(overall: nat, succeeded: nat, failed: nat): Option<Severity> {
    if overall != succeeded + failed then None
    else if succeeded == 0 then Some(Error)
    else if failed == 0 then Some(Success)
    else Some(Warning)
  }

  /** The overwriting chain agrees with the exclusive classification on every input. */
  lemma {:induction false} StatusCheckClassifies(overall: nat, succeeded: nat, failed: nat)
    ensures DownloadStatusCheck(overall, succeeded, failed).Some? <==> Classify(overall, succeeded, failed).Some?
    ensures DownloadStatusCheck(overall, succeeded, failed).Some? ==>
      Classify(overall, succeeded, failed) == Some(DownloadStatusCheck(overall, succeeded, failed).value.severity)
  {
  }

  /** The text always matches the notice type, and names the queue length. */
  lemma {:induction false} ReportText(overall: nat, succeeded: nat, failed: nat)
    requires overall == succeeded + failed
    ensures var r := DownloadStatusCheck(overall, succeeded, failed).value;
      && (r.severity == Success ==> r.text == SuccessText(overall))
      && (r.severity == Warning ==> r.text == WarningText(overall, succeeded, failed))
      && (r.severity == Error ==> r.text == ErrorText(overall))
      && r.text[..|QueuePrefix + NatToString(overall)|] == QueuePrefix + NatToString(overall)
  {
    var head := QueuePrefix + NatToString(overall);
    assert SuccessText(overall) == head + ") successfully";
    assert ErrorText(overall) == head + ") - but all downloads failed with errors.";
    assert WarningText(overall, succeeded, failed)
        == head + (") - " + NatToString(succeeded) + " succeeded and " + NatToString(failed) + " failed with errors.");
  }

  /** An empty queue counts as complete, and the all-failed branch, the last to assign, wins. */
  lemma {:induction false} EmptyQueueReportsError()
    ensures DownloadStatusCheck(0, 0, 0) == Some(Report(Error, ErrorText(0)))
    ensures Overwrites(0, 0, 0) != Some(Report(Success, SuccessText(0)))
  {
    assert ErrorText(0) != SuccessText(0) by {
      var head := QueuePrefix + NatToString(0);
      assert |ErrorText(0)| == |head| + 41;
      assert |SuccessText(0)| == |head| + 14;
    }
  }

  /** What a completed check sends out, in order. */
  datatype Effect =
    | OsNotification(title: string, body: string)
    | InAppNotice(severity: Severity, text: string, timeout: nat)
    | LogLine(text: string)
    | QueueFinished

  /** The report an effect carries; `LogLine(t)` appends a line break and then `t` to the log. */
  function Message(e: Effect): Option<string> {
    match e
    case OsNotification(_, body) => Some(body)
    case InAppNotice(_, text, _) => Some(text)
    case LogLine(text) => Some(text)
    case QueueFinished => None
  }

  /** The effects of one call of `downloadStatusCheck` (its console messages are left out). */
  function StatusCheckEffects(overall: nat, succeeded: nat, failed: nat): (r: seq<Effect>)
    ensures r == [] <==> overall != succeeded + failed
    ensures Count(r, QueueFinished) == (if overall == succeeded + failed then 1 else 0)
    ensures r != [] ==> |r| == 4 && r[3] == QueueFinished
    ensures r != [] ==> var report := DownloadStatusCheck(overall, succeeded, failed).value;
      && (forall i :: 0 <= i < |r| && Message(r[i]).Some? ==> Message(r[i]).value == report.text)
      && r[0].OsNotification? && r[0].title == "media-dupes"
      && r[1].InAppNotice? && r[1].severity == report.severity && r[1].timeout == 0
      && r[2].LogLine?
  {
    match DownloadStatusCheck(overall, succeeded, failed)
    case None => []
    case Some(report) =>
      var r := [OsNotification("media-dupes", report.text), InAppNotice(report.severity, report.text, 0),
        LogLine(report.text), QueueFinished];
      // `Count` peels the last element off; these spell out the three prefixes it meets.
      assert r[..3][..2][..1] == [OsNotification("media-dupes", report.text)];
      assert r[..3][..2] == r[..3][..2][..1] + [r[1]];
      assert r[..3] == r[..3][..2] + [r[2]];
      assert r == r[..3] + [r[3]];
      r
  }
}
