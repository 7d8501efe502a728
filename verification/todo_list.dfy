/**
 * The to-do list of the main window (app/js/modules/ui.js): the URLs waiting for download, the
 * `todoListStateEmpty` setting that tells the save-on-exit whether there is anything to keep, and
 * the state of the start buttons.
 */
module TodoList {
  import opened Seqs
  import opened Text
  import opened UrlValidator
  import opened UrlValidatorFacts
  import opened UriDecode

  datatype TodoList = TodoList(urls: seq<string>, stateEmpty: bool, startEnabled: bool)

  /** What happened to the input of the add button. */
  datatype AddResult = Added | AlreadyListed | InvalidUrl | EmptyInput

  /**
   * `windowMainAddUrl`: the trimmed input is appended when it is a valid URL that is not
   * already listed as exactly this string. Any valid input enables the start buttons and
   * marks the list non-empty; empty or invalid input changes nothing.
   */
  function AddUrl(t: TodoList, input: string): (r: (TodoList, AddResult))
    ensures var u := Trim(input);
      && (r.1 == EmptyInput <==> u == "")
      && (r.1 == InvalidUrl <==> u != "" && !ValidUrl(u))
      && (r.1 == AlreadyListed <==> u != "" && ValidUrl(u) && u in t.urls)
      && (r.1 == Added ==> r.0.urls == t.urls + [u])
      && (r.1 != Added ==> r.0.urls == t.urls)
      && (r.1 == EmptyInput || r.1 == InvalidUrl ==> r.0 == t)
      && (r.1 == Added || r.1 == AlreadyListed ==> !r.0.stateEmpty && r.0.startEnabled)
  {
    var u := Trim(input);
    if u == "" then (t, EmptyInput)
    else if !ValidUrl(u) then (t, InvalidUrl)
    else
      var listed := u in t.urls;
      var urls := if listed then t.urls else t.urls + [u];
      var next :=
        if |urls| == 0 then t.(urls := urls, stateEmpty := true)
        else t.(urls := urls, startEnabled := true, stateEmpty := false);
      (next, if listed then AlreadyListed else Added)
  }

  /** Every listed URL is a trimmed valid URL, and none is listed twice. */
  predicate Listable(urls: seq<string>) {
    && NoDuplicates(urls)
    && forall i :: 0 <= i < |urls| ==> ValidUrl(urls[i]) && Trim(urls[i]) == urls[i]
  }

  /** Adding keeps the list free of duplicates and of untrimmed or invalid entries. */
  lemma {:induction false} AddKeepsListable(t: TodoList, input: string)
    requires Listable(t.urls)
    ensures Listable(AddUrl(t, input).0.urls)
  {
    var u := Trim(input);
    if AddUrl(t, input).1 == Added {
      var urls := t.urls + [u];
      TrimIdempotent(input);
      assert urls[|t.urls|] == u;
      forall i, j | 0 <= i < j < |urls| ensures urls[i] != urls[j] {
        if j == |t.urls| {
          assert urls[i] == t.urls[i];
        }
      }
    }
  }

  /** Adding the same input again changes nothing: it is reported as already listed. */
  lemma {:induction false} AddTwice(t: TodoList, input: string)
    requires AddUrl(t, input).1 == Added
    ensures var once := AddUrl(t, input).0;
      AddUrl(once, input) == (once, AlreadyListed)
  {
    var once := AddUrl(t, input).0;
    var u := Trim(input);
    assert once.urls[|t.urls|] == u;
  }

  /**
   * The duplicate check compares the raw strings, while downloads use the decoded URL: two
   * different trimmed valid URLs that decode to the same target are both listed.
   */
  lemma {:induction false} RawDedupeAdmitsSameTarget(t: TodoList, a: string, b: string)
    requires t.urls == [] && a != b
    requires Trim(a) == a && a != [] && ValidUrl(a)
    requires Trim(b) == b && b != [] && ValidUrl(b)
    ensures AddUrl(t, a) == (TodoList([a], false, true), Added)
    ensures AddUrl(TodoList([a], false, true), b) == (TodoList([a, b], false, true), Added)
  {
    AddToEmpty(t, a);
    AddSecond(a, b);
  }

  lemma {:induction false} AddToEmpty(t: TodoList, a: string)
    requires t.urls == [] && Trim(a) == a && a != [] && ValidUrl(a)
    ensures AddUrl(t, a) == (TodoList([a], false, true), Added)
  {
    AddFresh(t, a);
    assert t.urls + [a] == [a];
  }

  lemma {:induction false} AddSecond(a: string, b: string)
    requires a != b && Trim(b) == b && b != [] && ValidUrl(b)
    ensures AddUrl(TodoList([a], false, true), b) == (TodoList([a, b], false, true), Added)
  {
    var listed := [a];
    assert listed + [b] == [a, b];
    assert b !in listed;
    AddFresh(TodoList(listed, false, true), b);
  }

  /** A trimmed valid URL that is not listed yet is appended. */
  lemma {:induction false} AddFresh(t: TodoList, u: string)
    requires Trim(u) == u && u != [] && ValidUrl(u) && u !in t.urls
    ensures AddUrl(t, u) == (TodoList(t.urls + [u], false, true), Added)
  {
  }

  /** Such a pair exists: `x.io/%41` and `x.io/A`, for any letter `x`, decode to the same URL. */
  lemma {:induction false} EncodedTwin(letter: char)
    requires IsLetter(letter)
    ensures var a, b := [letter, '.', 'i', 'o', '/', '%', '4', '1'], [letter, '.', 'i', 'o', '/', 'A'];
      && a != b && Trim(a) == a && ValidUrl(a) && Trim(b) == b && ValidUrl(b)
      && FullyDecodeUri(a) == b && FullyDecodeUri(b) == b
  {
    var host := [letter, '.', 'i', 'o'];
    var escaped, plain := ['/', '%', '4', '1'], ['/', 'A'];
    assert host + escaped == [letter, '.', 'i', 'o', '/', '%', '4', '1'];
    assert host + plain == [letter, '.', 'i', 'o', '/', 'A'];
    TwinValid(letter, host, escaped, plain);
    HostHasNoPercent(letter, host);
    DecodeTwin(host, escaped, plain);
    FullyDecodeStep(host + escaped, host + plain);
  }

  lemma {:induction false} TwinValid(letter: char, host: string, escaped: string, plain: string)
    requires IsLetter(letter) && host == [letter, '.', 'i', 'o']
    requires escaped == ['/', '%', '4', '1'] && plain == ['/', 'A']
    ensures var a, b := host + escaped, host + plain;
      a != b && Trim(a) == a && ValidUrl(a) && Trim(b) == b && ValidUrl(b)
  {
    var a, b := host + escaped, host + plain;
    assert a[|a| - 1] == '1' && b[|b| - 1] == 'A' && a[0] == letter && b[0] == letter;
    TrimOfTrimmed(a);
    TrimOfTrimmed(b);
    LetterDotIo(letter, host);
    PathsValid(host, escaped, plain);
    assert |a| != |b|;
  }

  lemma {:induction false} PathsValid(host: string, escaped: string, plain: string)
    requires IsHost(host) && escaped == ['/', '%', '4', '1'] && plain == ['/', 'A']
    ensures ValidUrl(host + escaped) && ValidUrl(host + plain)
  {
    assert IsPath(escaped);
    assert IsPath(plain);
    HostPathValid(host, escaped);
    HostPathValid(host, plain);
  }

  /**
   * The add button lists a URL on which the dispatch throws: `x.io/%25` is valid, the first pass
   * turns it into `x.io/%`, and `decodeURIComponent` throws on that.
   */
  lemma {:induction false} UndecodableValidUrl(letter: char)
    requires IsLetter(letter)
    ensures var a := [letter, '.', 'i', 'o', '/', '%', '2', '5'];
      && AddUrl(TodoList([], true, false), a) == (TodoList([a], false, true), Added)
      && FullyDecodeChecked(a).None?
  {
    var host, path := [letter, '.', 'i', 'o'], ['/', '%', '2', '5'];
    var a := [letter, '.', 'i', 'o', '/', '%', '2', '5'];
    assert a == host + path;
    ListedThenThrows(letter, host, path, a);
  }

  lemma {:induction false} ListedThenThrows(letter: char, host: string, path: string, a: string)
    requires IsLetter(letter) && host == [letter, '.', 'i', 'o'] && path == ['/', '%', '2', '5']
    requires a == host + path
    ensures AddUrl(TodoList([], true, false), a) == (TodoList([a], false, true), Added)
    ensures FullyDecodeChecked(a).None?
  {
    PercentPathValid(letter, host, path);
    AddToEmpty(TodoList([], true, false), a);
    HostHasNoPercent(letter, host);
    PercentPathThrows(host, path, a);
  }

  lemma {:induction false} PercentPathThrows(host: string, path: string, a: string)
    requires '%' !in host && path == ['/', '%', '2', '5'] && a == host + path
    ensures FullyDecodeChecked(a).None?
  {
    var slash, code: string := ['/'], "%25";
    assert path == slash + code;
    assert a == (host + slash) + code;
    assert '%' !in host + slash;
    EscapedPercentThrows(host + slash);
  }

  lemma {:induction false} PercentPathValid(letter: char, host: string, path: string)
    requires IsLetter(letter) && host == [letter, '.', 'i', 'o'] && path == ['/', '%', '2', '5']
    ensures var a := host + path; a != [] && Trim(a) == a && ValidUrl(a)
  {
    var a := host + path;
    assert a[|a| - 1] == '5' && a[0] == letter;
    TrimOfTrimmed(a);
    LetterDotIo(letter, host);
    assert IsPath(path);
    HostPathValid(host, path);
  }

  /** `x.io` is a host: one one-letter label and a two-letter top-level domain. */
  lemma {:induction false} LetterDotIo(letter: char, host: string)
    requires IsLetter(letter) && host == [letter, '.', 'i', 'o']
    ensures IsHost(host)
  {
    DomainNameFromLabels([[letter]], "io");
    assert [[letter]] + ["io"] == [[letter], "io"];
    assert Join([[letter], "io"], '.') == host;
  }

  lemma {:induction false} HostHasNoPercent(letter: char, host: string)
    requires IsLetter(letter) && host == [letter, '.', 'i', 'o']
    ensures '%' !in host
  {
    assert letter != '%';
  }

  lemma {:induction false} DecodeTwin(host: string, escaped: string, plain: string)
    requires '%' !in host && escaped == ['/', '%', '4', '1'] && plain == ['/', 'A']
    ensures DecodeOnce(host + escaped) == host + plain && DecodeOnce(host + plain) == host + plain
  {
    var slash := ['/'];
    var code, letter := escaped[1..], plain[1..];
    assert host + escaped == (host + slash) + code;
    assert host + plain == (host + slash) + letter;
    assert '%' !in host + slash;
    DecodeOncePlainPrefix(host + slash, code);
    DecodeOncePlainPrefix(host + slash, letter);
    DecodeEscapedLetter(code, letter);
  }

  lemma {:induction false} DecodeEscapedLetter(code: string, letter: string)
    requires code == ['%', '4', '1'] && letter == ['A']
    ensures DecodeOnce(code) == letter && DecodeOnce(letter) == letter
  {
    var none: string := [];
    assert HexDigitValue(code[1]) == 4 && HexDigitValue(code[2]) == 1;
    assert code[3..] == none && letter[1..] == none;
    DecodeOnceEscapeHead(code);
    DecodeOncePlainHead(letter);
  }

  lemma {:induction false} HostPathValid(host: string, path: string)
    requires IsHost(host) && IsPath(path)
    ensures ValidUrl(host + path)
  {
    var none: string := [];
    assert none + none == none;
    assert path + none == path;
    assert none + path == path;
    assert none + (host + path) == host + path;
    AcceptsComposition(none, host, none, path, none, none);
  }

  /** `removeUrlFromTodoList`: the first occurrence goes; the flag and the buttons follow the new length. */
  function RemoveUrl(t: TodoList, url: string): (r: TodoList)
    ensures url !in t.urls ==> r.urls == t.urls
    ensures url in t.urls ==> |r.urls| == |t.urls| - 1 && multiset(r.urls) == multiset(t.urls) - multiset{url}
    ensures url in t.urls ==>
      exists i :: 0 <= i < |t.urls| && t.urls[i] == url && url !in t.urls[..i] && r.urls == t.urls[..i] + t.urls[i + 1..]
    ensures r.stateEmpty <==> r.urls == []
    ensures r.startEnabled <==> r.urls != []
  {
    var urls := RemoveFirst(t.urls, url);
    if |urls| == 0 then TodoList(urls, true, false) else TodoList(urls, false, true)
  }

  /** Removing a URL from a duplicate-free list removes it entirely. */
  lemma {:induction false} RemoveFromListable(t: TodoList, url: string)
    requires NoDuplicates(t.urls)
    ensures url !in RemoveUrl(t, url).urls
    ensures NoDuplicates(RemoveUrl(t, url).urls)
  {
    RemoveFirstNoDuplicates(t.urls, url);
  }

  /** Removing what was just added gives the list back. */
  lemma {:induction false} RemoveUndoesAdd(t: TodoList, input: string)
    requires AddUrl(t, input).1 == Added
    ensures RemoveUrl(AddUrl(t, input).0, Trim(input)).urls == t.urls
  {
    var u := Trim(input);
    var urls := t.urls + [u];
    assert u !in t.urls;
    assert urls[..|t.urls|] == t.urls;
    var i := FirstIndex(urls, u);
    assert i == |t.urls|;
  }

  /** `windowMainDownloadQueueFinished`: the list is marked empty; its URLs stay. */
  function QueueFinished(t: TodoList): (r: TodoList)
    ensures r.stateEmpty && r.urls == t.urls && r.startEnabled == t.startEnabled
  {
    t.(stateEmpty := true)
  }

  /** `windowMainUiReset`: the start buttons are disabled and the list is marked empty; its URLs stay. */
  function UiReset(t: TodoList): (r: TodoList)
    ensures r.stateEmpty && !r.startEnabled && r.urls == t.urls
  {
    t.(stateEmpty := true, startEnabled := false)
  }

  /** `dataTablesReset`: the URLs are dropped; the flag and the buttons are left as they are. */
  function ListReset(t: TodoList): (r: TodoList)
    ensures r.urls == [] && r.stateEmpty == t.stateEmpty && r.startEnabled == t.startEnabled
  {
    t.(urls := [])
  }
}
