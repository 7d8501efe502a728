/**
 * The older queue of the renderer (app/js/renderer.js): `addURL`, `toDoListUpdate`,
 * `toDoListReset` and `downloadContent`. The list is deduplicated after every add instead of
 * being checked before it, and the download directory comes from `getDownloadDirectory`.
 */
module LegacyQueue {
  import opened Wrappers
  import opened Seqs
  import opened Text
  import opened UrlValidator
  import opened UriDecode
  import opened Directories
  import opened Parameters
  import opened LegacyParameters
  import opened TodoList
  import opened Batch

  /** `arrayUserUrls`, `arrayUrlsThrowingErrors` and the state of the start buttons. */
  datatype Queue = Queue(urls: seq<string>, failedUrls: seq<string>, startEnabled: bool)

  /**
   * `toDoListUpdate`: `$.unique` removes repeated entries, here keeping the first of each; the
   * start buttons are enabled when the list is non-empty and never disabled.
   */
  function ToDoListUpdate(q: Queue): (r: Queue)
    ensures NoDuplicates(r.urls)
    ensures forall u :: u in r.urls <==> u in q.urls
    ensures r.startEnabled <==> q.startEnabled || q.urls != []
    ensures r.failedUrls == q.failedUrls
  {
    var urls := Unique(q.urls);
    assert q.urls != [] ==> q.urls[0] in urls;
    Queue(urls, q.failedUrls, if |urls| > 0 then true else q.startEnabled)
  }

  /**
   * `addURL`: the trimmed input is appended when it is a valid URL, and the list is updated;
   * empty or invalid input changes nothing.
   */
  function AddURL(q: Queue, input: string): (r: (Queue, AddResult))
    ensures var u := Trim(input);
      && (r.1 == EmptyInput <==> u == "")
      && (r.1 == InvalidUrl <==> u != "" && !ValidUrl(u))
      && (r.1 == Added <==> u != "" && ValidUrl(u))
      && (r.1 != Added ==> r.0 == q)
      && (r.1 == Added ==> u in r.0.urls && r.0.startEnabled && NoDuplicates(r.0.urls))
      && (r.1 == Added ==> forall x :: x in r.0.urls <==> x in q.urls || x == u)
      && r.0.failedUrls == q.failedUrls
  {
    var u := Trim(input);
    if u == "" then (q, EmptyInput)
    else if !ValidUrl(u) then (q, InvalidUrl)
    else (ToDoListUpdate(q.(urls := q.urls + [u])), Added)
  }

  /**
   * On a duplicate-free list the older add and the current one (`windowMainAddUrl`) leave the
   * same URLs behind: appended when new, unchanged when already listed.
   */
  lemma {:induction false} LegacyAddAgrees(q: Queue, t: TodoList, input: string)
    requires q.urls == t.urls && NoDuplicates(q.urls)
    ensures AddURL(q, input).0.urls == AddUrl(t, input).0.urls
  {
    var u := Trim(input);
    if u != "" && ValidUrl(u) {
      var appended := q.urls + [u];
      if u in q.urls {
        UniqueAppendListed(q.urls, u);
      } else {
        assert NoDuplicates(appended) by {
          forall i, j | 0 <= i < j < |appended| ensures appended[i] != appended[j] {
            if j == |q.urls| {
              assert appended[i] == q.urls[i];
            }
          }
        }
        UniqueOfNoDuplicates(appended);
      }
    }
  }

  /** Deduplicating a duplicate-free list with one of its own elements appended drops that element again. */
  lemma {:induction false} UniqueAppendListed<T(!new)>(s: seq<T>, x: T)
    requires NoDuplicates(s) && x in s
    ensures Unique(s + [x]) == s
  {
    var appended := s + [x];
    assert appended[..|appended| - 1] == s;
    UniqueOfNoDuplicates(s);
  }

  /** `toDoListReset`: both lists are emptied; the buttons stay as they are. */
  function ToDoListReset(q: Queue): (r: Queue)
    ensures r.urls == [] && r.failedUrls == [] && r.startEnabled == q.startEnabled
  {
    q.(urls := [], failedUrls := [])
  }

  const AbortNotice: string := "Aborted download, because no useable downloads directory was found"

  /**
   * What starting the older queue left behind: buttons disabled, the notices of
   * `getDownloadDirectory`, the notice `downloadContent` itself showed, the custom directory
   * setting, the queue, the calls, and whether a `URIError` ended the dispatch.
   */
  datatype LegacyLaunch = LegacyLaunch(
    uiDisabled: bool,
    directoryNotices: seq<DirectoryNotice>,
    notice: Option<string>,
    customSetting: string,
    queue: Queue,
    execs: seq<Exec>,
    uriError: bool)

  /**
   * `downloadContent`: `getDownloadDirectory` shows its own notices first. Without a usable
   * directory `downloadContent` adds its abort notice and does nothing else; with one the buttons are disabled first, so an unknown mode leaves them disabled.
   * A known mode clears the failed URLs and dispatches the URLs, decoded, with the same list,
   * until a URL on which `fullyDecodeURI` throws. The output templates depend on the chosen
   * directory through `layoutFor`.
   */
  method DownloadContent(fs: FileSystem, customDir: string, defaultDir: string, mode: string,
                         audioFormat: string, layoutFor: string -> Layout, q: Queue)
    returns (r: LegacyLaunch)
    ensures var sel := GetDownloadDirectory(fs, customDir, defaultDir);
      r.customSetting == sel.customSetting && r.directoryNotices == sel.notices && (r.uiDisabled <==> sel.choice.ok)
    ensures !(Usable(fs, customDir) || Usable(fs, defaultDir)) ==>
      r.notice == Some(AbortNotice) && r.queue == q && r.execs == [] && !r.uriError
    ensures ModeNamed(mode).None? ==> r.queue == q && r.execs == [] && !r.uriError
    ensures (Usable(fs, customDir) || Usable(fs, defaultDir)) && ModeNamed(mode).None? ==>
      r.notice == Some(UnexpectedModeNotice)
    ensures (Usable(fs, customDir) || Usable(fs, defaultDir)) && ModeNamed(mode).Some? ==>
      && r.notice.None?
      && r.queue == q.(failedUrls := [])
      && |r.execs| <= |q.urls|
      && (forall i :: 0 <= i < |r.execs| ==>
           && FullyDecodeChecked(q.urls[i]).Some?
           && r.execs[i] == Exec(FullyDecodeUri(q.urls[i]),
                LegacyParameters.LegacyParameters(mode, audioFormat, layoutFor(GetDownloadDirectory(fs, customDir, defaultDir).choice.path)).value))
      && (r.uriError <==> |r.execs| < |q.urls|)
      && (r.uriError ==> FullyDecodeChecked(q.urls[|r.execs|]).None?)
      && (!r.uriError <==> forall i :: 0 <= i < |q.urls| ==> FullyDecodeChecked(q.urls[i]).Some?)
  {
    var sel := GetDownloadDirectory(fs, customDir, defaultDir);
    if !sel.choice.ok {
      return LegacyLaunch(false, sel.notices, Some(AbortNotice), sel.customSetting, q, [], false);
    }
    match LegacyParameters.LegacyParameters(mode, audioFormat, layoutFor(sel.choice.path))
    case Err(_) =>
      r := LegacyLaunch(true, sel.notices, Some(UnexpectedModeNotice), sel.customSetting, q, [], false);
    case Ok(args) =>
      var execs := Dispatch(q.urls, FullyDecodeChecked, args);
      r := LegacyLaunch(true, sel.notices, None, sel.customSetting, q.(failedUrls := []), execs, |execs| < |q.urls|);
  }
}
