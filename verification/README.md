# media-dupes download queue, modelled in Dafny

media-dupes is an Electron front-end for youtube-dl. This project models its download-queue
bookkeeping and proves properties of that model:

- the main window's to-do list of URLs (`app/js/modules/ui.js`): adding, removing and resetting
  URLs, plus the save and restore of the list across sessions under `todoListEntry_<i>` keys;
- the youtube-dl argument list built for a queue, in the current builder (`ui.js`) and the older
  one (`app/js/renderer.js`);
- the dispatch loop, which makes one youtube-dl call per URL with the fully decoded URL, and
  stops at the first URL on which the decoding throws;
- the callbacks that count successes and failures, and `downloadStatusCheck`
  (`app/js/modules/utils.js`), which turns the counts into one final report;
- the URL check `validURL`, the decode loop `fullyDecodeURI`, and the choice of the download
  directory;
- the older queue of `renderer.js` (`addURL`, `toDoListUpdate`, `toDoListReset`,
  `downloadContent`).

Modules, one concept each:

| module | file | what |
|---|---|---|
| `Wrappers` | wrappers.dfy | `Option`, `Result` |
| `Seqs` | seqs.dfy | duplicate-free sequences, first-occurrence removal, keep-first dedupe, counting |
| `Text` | text.dfy | `String.prototype.trim`, `split`/`join` on one character, decimal rendering of numbers |
| `UrlValidator`, `UrlValidatorFacts` | url_validator.dfy | `validURL` as one predicate per regular-expression component, and what it accepts and rejects |
| `UriDecode` | uri_decode.dfy | `isEncoded`/`fullyDecodeURI` over any shrinking pass, an ASCII percent-decoding pass, and the `URIError` of `decodeURIComponent` on a malformed escape |
| `Directories` | directories.dfy | `isDirectoryAvailable`, `isDirectoryWriteable`, `defaultDownloadFolderGet`, `getDownloadDirectory` over a file system given as data |
| `YoutubeDlArgs` | youtube_dl_args.dfy | youtube-dl options, their spelling as tokens, and a simplified reading of a token list |
| `Parameters`, `LegacyParameters` | parameters.dfy | the current and the older argument builders |
| `StatusCheck` | status_check.dfy | `downloadStatusCheck` and what it sends out |
| `Batch` | batch.dfy | outcome counting over events in any order, dispatch, `windowMainDownloadContent` |
| `TodoList` | todo_list.dfy | `windowMainAddUrl`, `removeUrlFromTodoList`, the empty flag, the resets |
| `TodoStorage` | todo_storage.dfy | `windowMainToDoListSave` and `windowMainToDoListRestore` over a key/value storage |
| `LegacyQueue` | legacy_queue.dfy | the older queue of `renderer.js` |

Every download callback runs to completion before the next one starts, in an order the model
does not know. The callbacks are therefore a sequence of outcome events, and the properties hold
for every such sequence. File-system checks are data: a record of the paths that exist and those
that are writeable. The storage is a map from keys to URLs, and the order in which it lists its
keys is a parameter.

## Model

| member | source | states |
|---|---|---|
| StatusCheck.DownloadStatusCheck | app/js/modules/utils.js:575-614 | A report exists exactly when overall equals succeeded plus failed. For a non-empty complete queue the report is success iff nothing failed, warning iff some succeeded and some failed, and error iff nothing succeeded. An empty queue reports error. |
| StatusCheck.StatusCheckClassifies | app/js/modules/utils.js:587-605 | The three overwriting `if`s agree on every input with an independent, exclusive classification (incomplete / all failed / none failed / mixed). |
| StatusCheck.ReportText | app/js/modules/utils.js:587-605 | The report text is the one of its notice type, and every text starts with "Finished entire download queue (" and the queue length. |
| StatusCheck.EmptyQueueReportsError | app/js/modules/utils.js:587-605 | With all three counts 0, both the success and the all-failed conditions hold. The later assignment wins, so the result is the error report and not the success report. |
| StatusCheck.StatusCheckEffects | app/js/modules/utils.js:583-613 | Nothing is sent out unless the queue is complete. Otherwise there is an OS notification titled media-dupes, an in-app notice of the report's type with no timeout, and a log line, all with the same report text, followed by exactly one queue-finished call. |
| Batch.Process | app/js/modules/ui.js:474-498 | After any sequence of callbacks, the two array lengths are the numbers of success and failure events, and there is one status-check result per event. |
| Batch.CountsBounded | app/js/modules/ui.js:474-498 | While no more callbacks arrive than the queue holds, succeeded plus failed never exceeds the queue length. |
| Batch.CompletionOnLastEvent | app/js/modules/ui.js:474-498 | The k-th callback produces a final report exactly when it is the last callback the queue expects. |
| Batch.OneReportPerQueue | app/js/modules/ui.js:474-498 | A whole queue's callbacks produce exactly one final report, from the last callback; all earlier checks report nothing. |
| Batch.FinalSeverity | app/js/modules/ui.js:474-498 | The final report of a queue is success iff no download failed, error iff none succeeded, and warning iff both kinds occurred. |
| Batch.OrderIndependent | app/js/modules/ui.js:474-498 | Two callback orders with the same outcomes give the same counts and the same final report. |
| Batch.Dispatch | app/js/modules/ui.js:462-476 | In queue order, each entry whose decoding succeeds gets one youtube-dl call with the decoded entry and the same argument list. The first entry whose decoding throws ends the loop, so the calls are exactly those of the entries before it. Every entry gets a call iff every decoding succeeds. |
| Batch.ShortLaunchNeverReports | app/js/modules/ui.js:474-498 | When fewer calls were made than the queue holds, no callback of those calls produces a report, whatever the outcomes and their order. |
| Batch.DownloadContent | app/js/modules/ui.js:313-507 | An unavailable or unwriteable directory returns silently, with no UI change and no call. Otherwise the buttons are disabled and the list is marked non-empty. An unknown mode then shows the notice and starts nothing. A known mode makes one call per URL, in order, with the fully decoded URL (free of escapes) and the built argument list, until a URL on which `fullyDecodeURI` throws `URIError` (ui.js:464). That URL and all after it get no call, and the launch records the error. It records one exactly when some URL's decoding throws. |
| Directories.DefaultDownloadFolderGet | app/js/modules/utils.js:504-531 | `[true, p]` exactly when the default path exists and is writeable, otherwise `[false, '']`; the empty path is never usable. |
| Directories.GetDownloadDirectory | app/js/renderer.js:1366-1424 | The custom directory is chosen iff it is usable, and it takes precedence over the default. An unusable non-empty custom setting is cleared, and the default is then checked in the same way. The result is ok iff one of the two is usable. A cleared setting comes with a notice saying whether the directory was missing or not writeable. A failing default adds a second notice saying the same about the default. The result is ok iff every notice is a reset notice. |
| UriDecode.FullyDecodeWith | app/js/modules/utils.js:145-150 | For any pass that returns its input or something strictly shorter, the loop terminates. Its result is no longer encoded and is no longer than the input. An input that is not encoded comes back unchanged. |
| UriDecode.Passes | app/js/modules/utils.js:145-150 | The loop body runs at most as many times as the input is long, and the input is encoded before every pass it makes. |
| UriDecode.FullyDecodeIdempotent | app/js/modules/utils.js:145-150 | Decoding the result again gives the same string, for any such pass. |
| UriDecode.DecodeOnceChangesIffEscape | app/js/modules/utils.js:133-136 | `isEncoded` of the percent-decoding pass holds exactly when the string contains an escape of an ASCII character. |
| UriDecode.DecodeOncePlainPrefix | app/js/modules/utils.js:133-136 | A pass copies a prefix that holds no `%` and decodes what follows it. |
| UriDecode.FullyDecodeUri | app/js/modules/utils.js:145-150 | The decoded URL contains no escape and is no longer than the input; a URL without escapes is returned unchanged. |
| UriDecode.FullyDecodeUriIdempotent | app/js/modules/utils.js:145-150 | Decoding a decoded URL again changes nothing. |
| UriDecode.DecodeUriComponent | app/js/modules/utils.js:133-136 | The left-to-right scan of `decodeURIComponent` throws exactly when some `%` is not followed by two hexadecimal digits. Otherwise it gives the result of the ASCII pass. |
| UriDecode.FullyDecodeChecked | app/js/modules/utils.js:133-150 | When the loop, with its two `decodeURIComponent` calls per pass, does not throw, it returns the same URL as `FullyDecodeUri`. It throws on a malformed input, and it returns a well-formed input without escapes unchanged. |
| UriDecode.FullyDecodeCheckedFails | app/js/modules/utils.js:145-150 | The loop throws exactly when one of the strings that the successive passes produce is malformed. |
| UriDecode.EscapedPercentThrows | app/js/modules/utils.js:133-150 | Behind a prefix without `%`, an escaped `%` (`%25`) makes the loop throw: the first pass leaves a lone `%`. |
| UrlValidatorFacts.ValidUrlRejectsSpace | app/js/modules/utils.js:96-104 | No string containing a space is accepted. |
| UrlValidatorFacts.ValidUrlNeedsDot | app/js/modules/utils.js:96-104 | Every accepted string contains a dot (its host always has one). |
| UrlValidatorFacts.ValidUrlRejectsDotless | app/js/modules/utils.js:96-104 | The empty string and `localhost` are rejected. |
| UrlValidatorFacts.DomainNameFromLabels | app/js/modules/utils.js:98 | Labels followed by a top-level domain of two or more letters, joined by dots, form a host. |
| UrlValidatorFacts.DottedQuadFromGroups | app/js/modules/utils.js:99 | Four groups of one to three digits, joined by dots, form a host. |
| UrlValidatorFacts.SchemesAccepted | app/js/modules/utils.js:97 | `http://`, `https://` and the upper-case `HTTPS://` are accepted as schemes. |
| UrlValidatorFacts.SchemeOptional | app/js/modules/utils.js:97 | A host with its tail is accepted on its own and behind either scheme. |
| UrlValidatorFacts.AcceptsComposition | app/js/modules/utils.js:97-102 | Any optional scheme, host, optional port, path, optional query and optional fragment, concatenated in that order, is accepted. |
| YoutubeDlArgs.ParseAfterRender | app/js/modules/ui.js:375-390 | The simplified reading `Parse` reads a built option list back as exactly those options, followed by its reading of whatever comes after them. |
| Parameters.ModeNamed | app/js/modules/ui.js:370-419 | `audio` and `video` name the two modes; every other string is an unknown mode. |
| Parameters.ThumbnailIf | app/js/modules/ui.js:393-395 | The prepended part mentions `--embed-thumbnail` exactly when asked, and no other option. |
| Parameters.AudioListFormats | app/js/modules/ui.js:375-390 | The audio list sets `--audio-format` to the configured format verbatim, and `--format` to `bestaudio`. |
| Parameters.AudioOptionsFlags | app/js/modules/ui.js:375-395 | The audio-mode list embeds the thumbnail iff the format is mp3 or m4a. It extracts the audio in the configured format and is not verbose. |
| Parameters.VideoOptions | app/js/modules/ui.js:399-412 | The video list has no `--extract-audio`, `--audio-format` or `--embed-thumbnail`. |
| Parameters.VideoIgnoresAudioFormat | app/js/modules/ui.js:399-412 | The video arguments are the same whatever audio format is configured. |
| Parameters.VerboseOptions | app/js/modules/ui.js:435-442 | The verbose prefix mentions `--verbose` and `--print-traffic` exactly in verbose mode, and nothing else. |
| Parameters.VerbosePrefix | app/js/modules/ui.js:435-442 | In verbose mode the arguments are `--print-traffic`, `--verbose`, then the list built without verbose mode. |
| Parameters.ExtraParameters | app/js/modules/ui.js:446-455 | The extra parameters are the setting split on single spaces, with empty tokens kept; joining them with spaces gives the setting back. Disabled, they are empty. |
| Parameters.ExtrasAppended | app/js/modules/ui.js:446-455 | Enabled extra parameters are appended, in order, after every built-in token. |
| Parameters.YoutubeDlParameters | app/js/modules/ui.js:370-455 | An unknown mode builds nothing. Otherwise the list ends with the extra parameters. |
| Parameters.ParametersReading | app/js/modules/ui.js:370-455 | `Parse` reads the built-in options of the mode exactly as built, followed by its simplified reading of the extras. |
| Parameters.AudioModeReading | app/js/modules/ui.js:375-442 | Without extras, youtube-dl in audio mode embeds the thumbnail iff the format is mp3 or m4a. It extracts the audio in the configured format, and is verbose iff verbose mode is set. |
| Parameters.VideoModeReading | app/js/modules/ui.js:399-442 | Without extras, youtube-dl in video mode sees no audio-only option and downloads the best format. |
| LegacyParameters.LegacyParameters | app/js/renderer.js:895-927 | An unknown mode builds nothing. Otherwise youtube-dl reads back exactly the older audio or video options. |
| LegacyParameters.LegacyAudioReading | app/js/renderer.js:895-910 | The older audio list embeds the thumbnail exactly for mp3. It always extracts the audio, in the configured format. |
| LegacyParameters.LegacyVideoOptions | app/js/renderer.js:914-921 | The older video list has no audio extraction, no thumbnail and no ffmpeg location. |
| LegacyParameters.BuildersDisagreeOnM4a | app/js/renderer.js:908-910 | For m4a the current builder embeds the thumbnail and the older one does not. |
| TodoList.AddUrl | app/js/modules/ui.js:689-735 | The input is trimmed. Empty or invalid input changes nothing. A listed URL leaves the list as it is. A new valid URL is appended. Any valid input marks the list non-empty and enables the start buttons. |
| TodoList.AddKeepsListable | app/js/modules/ui.js:693-703 | Adding never creates a duplicate, nor an untrimmed or invalid entry. |
| TodoList.AddTwice | app/js/modules/ui.js:697-705 | Adding the same input again is reported as already listed and changes nothing. |
| TodoList.RawDedupeAdmitsSameTarget | app/js/modules/ui.js:697-703 | The duplicate check compares trimmed raw strings, so two different valid URLs are both listed. |
| TodoList.UndecodableValidUrl | app/js/modules/ui.js:462-464 | The add button lists `x.io/%25` on an empty list, and the full decoding that the dispatch applies to it throws. |
| TodoList.EncodedTwin | app/js/modules/ui.js:464 | There are two different valid URLs (`x.io/%41`, `x.io/A`) that the dispatch decodes to the same URL, so the list can hold one target twice. |
| TodoList.RemoveUrl | app/js/modules/ui.js:1092-1106 | Only the first occurrence is removed, and an absent URL changes nothing. Afterwards the empty flag is set iff the list is empty, and the start buttons are enabled iff it is not. |
| TodoList.RemoveFromListable | app/js/modules/ui.js:1092-1097 | On a duplicate-free list the URL is gone afterwards, and the list stays duplicate-free. |
| TodoList.RemoveUndoesAdd | app/js/modules/ui.js:1092-1097 | Removing the URL that was just added gives the previous list back. |
| TodoList.QueueFinished | app/js/modules/ui.js:759-768 | The list is marked empty while its URLs stay. |
| TodoList.UiReset | app/js/modules/ui.js:775-791 | The start buttons are disabled and the list is marked empty, while its URLs stay. |
| TodoList.ListReset | app/js/modules/ui.js:1133-1141 | The URLs are dropped, while the empty flag and the buttons are left as they are. |
| TodoStorage.EntryKey | app/js/modules/ui.js:872-877 | The key of index i is `todoListEntry_` followed by i in decimal. |
| TodoStorage.EntryKeyInjective | app/js/modules/ui.js:877 | Different indices give different keys. |
| TodoStorage.SaveEntries | app/js/modules/ui.js:875-887 | Key i holds URL i, and every other key keeps its value. No key other than those is added. |
| TodoStorage.ToDoListSave | app/js/modules/ui.js:866-893 | A list marked empty writes nothing. Otherwise the URLs are written under their index keys, and nothing else changes. |
| TodoStorage.RestoreLoop | app/js/modules/ui.js:813-836 | In listing order, every key with the entry prefix contributes its URL and is removed, and is counted once. Other keys stay, with their values. |
| TodoStorage.ToDoListRestore | app/js/modules/ui.js:798-859 | The stored URLs are appended in listing order, and each entry file is removed. The list is marked non-empty iff it already was or something was restored. The start buttons are left alone. |
| TodoStorage.RestoreCounter | app/js/modules/ui.js:813-826 | The restore counter is the number of stored keys with the entry prefix, whatever the listing order. |
| TodoStorage.RestoreRemovesSaved | app/js/modules/ui.js:829-834 | Restoring what was saved into a storage without entries gives that storage back. |
| TodoStorage.SaveThenRestore | app/js/modules/ui.js:813-887 | When entries are listed in index order, saving then restoring appends exactly the saved list and counts it. The storage is left as it was. |
| TodoStorage.SaveThenRestoreAnyOrder | app/js/modules/ui.js:813-887 | In any listing order, restoring what was saved brings back as many URLs as were saved, and exactly the saved URLs. |
| TodoStorage.RestoreAdmitsDuplicates | app/js/modules/ui.js:820-824 | Restore has no duplicate check: a stored URL that is already listed ends up listed twice. |
| Seqs.RemoveFirst | app/js/modules/ui.js:1094-1097 | Without the element the sequence is unchanged. Otherwise exactly the first occurrence is cut out: one element fewer, with the same multiset minus that element. |
| Seqs.Unique | app/js/renderer.js:795 | The result is duplicate-free and has the same members as the input. |
| Text.Trim | app/js/modules/ui.js:691 | The result neither starts nor ends with white space, and it is no longer than the input. |
| Text.TrimIsSlice | app/js/modules/ui.js:691 | The result is the input minus white space at its two ends. |
| Text.Split | app/js/modules/ui.js:447 | Splitting on one character keeps empty fields, no field contains the separator, and joining the fields gives the input back. |
| LegacyQueue.ToDoListUpdate | app/js/renderer.js:794-808 | Assuming `$.unique` removes every duplicate string (see Left out), the list becomes duplicate-free with the same members. The start buttons are enabled when it is non-empty and never disabled. The failed URLs are kept. |
| LegacyQueue.AddURL | app/js/renderer.js:762-787 | The input is trimmed, and empty or invalid input changes nothing. Under the same `$.unique` assumption, a valid URL ends up listed exactly once, alongside the earlier members, and the buttons are enabled. |
| LegacyQueue.LegacyAddAgrees | app/js/renderer.js:762-808 | Under the same `$.unique` assumption, on a duplicate-free list the older add and the current one leave the same URLs. |
| LegacyQueue.ToDoListReset | app/js/renderer.js:815-820 | Both the URL list and the failed list are emptied. |
| LegacyQueue.DownloadContent | app/js/renderer.js:854-993 | The notices of `getDownloadDirectory` are passed on unchanged, including the reset notice when the default folder is then used. Without a usable directory, `downloadContent` adds its own abort notice and makes no UI change and no call. With one, the buttons are disabled, so an unknown mode leaves them disabled with no call. A known mode clears the failed URLs and makes one call per URL, in order, with the decoded URL and the older argument list, until a URL on which `fullyDecodeURI` throws `URIError` (renderer.js:950). That URL and all after it get no call, and the launch records the error. |

## Left out

- I/O and UI plumbing. Left out: DOM, jQuery, DataTables, Noty, spinners, window urgency, IPC, console and log output, and Sentry counters. The OS notification, the in-app notice and the log line of `downloadStatusCheck` appear as data (`StatusCheck.Effect`).
- The youtube-dl subprocess. The output of `youtubedl.exec` is an outcome event (success or failure); the model does not download anything.
- The stream-based `downloadVideo` and `windowMainDownloadVideo`. They are experimental or commented out.
- The `arrayUserUrlsN` type check in `windowMainDownloadContent` and the `arrayUserUrls` check in `downloadContent`. In the model the list is always a sequence, so the branch cannot happen.
- The `i === arrayLength` test in the older callbacks (app/js/renderer.js:978). Its outcome depends on `var` hoisting and on when the callbacks run. The older queue's failure pushes and its final notification are left out with it.
- The queue length the callbacks read. `arrayUserUrlsN.length` is read when each callback runs; the model takes it as fixed while the queue runs.
- `path.join` and the bundled ffmpeg path. The output templates and the ffmpeg location are opaque strings (`Parameters.Layout`). The older builder gets them through a function of the chosen directory.
- UriDecode.DecodeOnce: `decodeURIComponent` is modelled for ASCII escapes only. Escapes of bytes above 0x7F are left as they are: the model neither decodes a multi-byte UTF-8 sequence such as `%C3%A9` nor throws on an invalid one such as a lone `%80`, as the source does. A `%` without two hexadecimal digits does throw (`DecodeUriComponent`). The loop itself (`FullyDecodeWith`) is proved for every pass that leaves its input alone or shortens it, which `decodeURIComponent` does.
- Batch.DownloadContent: the dispatch stops at a URL whose decoding throws, as in the source. The uncaught `URIError` is recorded but not followed further. The queue length the callbacks read still counts the URLs without a call, so `downloadStatusCheck` never completes (`ShortLaunchNeverReports`) and the start buttons stay disabled. A `URIError` from an invalid UTF-8 escape is not modelled (see `UriDecode.DecodeOnce`).
- LegacyQueue.DownloadContent: the same stop at a URL whose decoding throws, with the same gap for invalid UTF-8 escapes. The older queue's final notification is left out anyway (see the `i === arrayLength` line).
- Seqs.Unique: jQuery `$.unique` is foreign code. jQuery documents it only for arrays of DOM elements, not for strings, so removing duplicate strings is an assumption of this model and not a promise jQuery makes. On strings it may remove only adjacent repeats. The model keeps the first occurrence of each URL.
- LegacyQueue.ToDoListUpdate: "duplicate-free with the same members" holds only under the `Seqs.Unique` assumption that `$.unique` removes every duplicate string.
- LegacyQueue.AddURL: "listed exactly once" holds only under the same `$.unique` assumption. If it removes only adjacent repeats, adding a listed URL that is not the last one lists it twice.
- LegacyQueue.LegacyAddAgrees: the agreement of the older and the current add holds only under the same `$.unique` assumption.
- YoutubeDlArgs.Parse: a simplified reading, not youtube-dl's own parser. It knows only the exact long spellings of the options the application passes. It does not read `--opt=value`, unambiguous prefixes such as `--verb`, or short options such as `-x` and `-f`. It accepts a value-taking option without a value, where youtube-dl stops with an error. The readings of the built-in lists are unaffected. The reading of user-supplied extras is the model's.
- TodoStorage.ToDoListRestore: the order in which `storage.getAll` lists its files is not known, so it is a parameter. Any duplicate-free listing of the stored keys is allowed. Storage errors, the asynchronous removals and the `{ url }` object around each stored URL are left out.
- TodoStorage.SaveThenRestoreAnyOrder: for an arbitrary listing order it states the count and the set of restored URLs, not their multiset. Index order is covered exactly by `SaveThenRestore`.
- Settings persistence (`userSettingRead`/`userSettingWrite`), update checks, `formatBytes`, ffmpeg.js, the URL-information feature and the easter egg. They are outside the queue logic.
- Real file-system checks. `isDirectoryAvailable` and `isDirectoryWriteable` are membership in two sets of paths (`Directories.FileSystem`). The settings write that clears the custom directory is returned as the new setting.
- Restore and `dataTablesRowAdd` do not enable the start buttons (app/js/modules/ui.js:1116-1125). The model keeps this behaviour: `ToDoListRestore` leaves them as they were.
