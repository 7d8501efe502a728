/**
 * Keeping the to-do list across sessions (`windowMainToDoListSave` and `windowMainToDoListRestore`
 * in app/js/modules/ui.js). electron-json-storage keeps one JSON file per key; here the storage is
 * a map from keys to values, where the value of a to-do entry is the URL it holds and every other
 * value is opaque. The writes and removals are asynchronous in the source; here each is complete
 * before the next step, and none fails.
 */
module TodoStorage {
  import opened Seqs
  import opened Text
  import opened TodoList

  type Storage = map<string, string>

  /** The name every to-do entry starts with; the entry's index follows it. */
  const EntryPrefix: string := "todoListEntry_"

  /** `key.startsWith('todoListEntry_')` */
  predicate IsEntryKey(key: string) {
    |EntryPrefix| <= |key| && key[..|EntryPrefix|] == EntryPrefix
  }

  /** `baseName + i` */
  function EntryKey(i: nat): (k: string)
    ensures IsEntryKey(k)
    ensures k[|EntryPrefix|..] == NatToString(i)
  {
    EntryPrefix + NatToString(i)
  }

  /** Different indexes give different keys. */
  lemma {:induction false} EntryKeyInjective(i: nat, j: nat)
    ensures EntryKey(i) == EntryKey(j) <==> i == j
  {
    if i != j {
      NatToStringInjective(i, j);
    }
  }

  /** One of the keys a list of `n` URLs is saved under. */
  predicate IsIndexKey(key: string, n: nat) {
    exists i :: 0 <= i < n && key == EntryKey(i)
  }

  /** The save loop: the URL at index `i` goes to `todoListEntry_i`; every other key keeps its value. */
  function SaveEntries(urls: seq<string>, storage: Storage): (r: Storage)
    ensures Saved(urls, storage, r, |urls|)
    decreases |urls|
  {
    if urls == [] then storage
    else
      var n := |urls| - 1;
      var prev := SaveEntries(urls[..n], storage);
      SaveStep(urls, storage, prev, n);
      prev[EntryKey(n) := urls[n]]
  }

  /**
   * `r` is `storage` after the first `n` URLs were written: each under its index key, every
   * other key untouched, and no other key added.
   */
  predicate Saved(urls: seq<string>, storage: Storage, r: Storage, n: nat)
    requires n <= |urls|
  {
    && HoldsEntries(urls, r, n)
    && (forall k :: k in storage && !IsIndexKey(k, n) ==> k in r && r[k] == storage[k])
    && (forall k :: k in r ==> k in storage || IsIndexKey(k, n))
  }

  /** The first `n` URLs are stored, each under its index key. */
  predicate HoldsEntries(urls: seq<string>, r: Storage, n: nat)
    requires n <= |urls|
  {
    forall i :: 0 <= i < n ==> EntryKey(i) in r && r[EntryKey(i)] == urls[i]
  }

  /** One more turn of the save loop. */
  lemma {:induction false} SaveStep(urls: seq<string>, storage: Storage, prev: Storage, n: nat)
    requires n < |urls| && Saved(urls[..n], storage, prev, n)
    ensures Saved(urls, storage, prev[EntryKey(n) := urls[n]], n + 1)
  {
    var r := prev[EntryKey(n) := urls[n]];
    forall i | 0 <= i < n + 1 ensures EntryKey(i) in r && r[EntryKey(i)] == urls[i] {
      if i < n {
        EntryKeyInjective(i, n);
        assert urls[..n][i] == urls[i];
      }
    }
    forall k | k in storage && !IsIndexKey(k, n + 1) ensures k in r && r[k] == storage[k] {
      assert !IsIndexKey(k, n) && k != EntryKey(n);
    }
    forall k | k in r ensures k in storage || IsIndexKey(k, n + 1) {
      if k != EntryKey(n) && !(k in storage) {
        assert IsIndexKey(k, n);
      }
    }
  }

  /**
   * `windowMainToDoListSave`: nothing is written while the list is marked empty; otherwise every
   * URL is written under its index.
   */
  function ToDoListSave(t: TodoList, storage: Storage): (r: Storage)
    ensures t.stateEmpty ==> r == storage
    ensures !t.stateEmpty ==> Saved(t.urls, storage, r, |t.urls|)
  {
    if t.stateEmpty then storage else SaveEntries(t.urls, storage)
  }

  /** What `getAll` hands to the restore loop: every stored key exactly once, in some order. */
  predicate Listing(storage: Storage, order: seq<string>) {
    && NoDuplicates(order)
    && (forall k :: k in order ==> k in storage)
    && (forall k :: k in storage ==> k in order)
  }

  /** The entry keys of a listing, in listing order. */
  function EntryKeys(order: seq<string>): (r: seq<string>)
    ensures forall k :: k in r <==> k in order && IsEntryKey(k)
    ensures |r| <= |order|
    decreases |order|
  {
    if order == [] then []
    else
      var last := order[|order| - 1];
      EntryKeys(order[..|order| - 1]) + if IsEntryKey(last) then [last] else []
  }

  /** The entry keys of a listing without repeated keys are not repeated either. */
  lemma {:induction false} EntryKeysNoDuplicates(order: seq<string>)
    requires NoDuplicates(order)
    ensures NoDuplicates(EntryKeys(order))
    decreases |order|
  {
    if order != [] {
      var init, last := order[..|order| - 1], order[|order| - 1];
      assert NoDuplicates(init) by {
        forall i, j | 0 <= i < j < |init| ensures init[i] != init[j] {
          assert init[i] == order[i] && init[j] == order[j];
        }
      }
      EntryKeysNoDuplicates(init);
      assert last !in init by {
        forall i | 0 <= i < |init| ensures init[i] != last {
          assert init[i] == order[i];
        }
      }
      var prev := EntryKeys(init);
      if IsEntryKey(last) {
        assert EntryKeys(order) == prev + [last];
        forall i, j | 0 <= i < j < |prev| + 1 ensures (prev + [last])[i] != (prev + [last])[j] {
          if j == |prev| {
            assert (prev + [last])[i] == prev[i];
          }
        }
      } else {
        assert EntryKeys(order) == prev;
      }
    }
  }

  /** The state the restore loop builds: the URLs it appended, the storage left, and its counter. */
  datatype Restoration = Restoration(urls: seq<string>, remaining: Storage, counter: nat)

  /**
   * The `for (var key in data)` loop: the URL of every key that starts with the entry prefix is
   * appended, counted and its file removed; every other key is skipped.
   */
  function RestoreLoop(storage: Storage, order: seq<string>): (r: Restoration)
    requires forall k :: k in order ==> k in storage
    ensures r.counter == |r.urls| == |EntryKeys(order)|
    ensures forall j :: 0 <= j < |r.urls| ==> r.urls[j] == storage[EntryKeys(order)[j]]
    ensures forall k :: k in r.remaining <==> k in storage && !(k in order && IsEntryKey(k))
    ensures forall k :: k in r.remaining ==> r.remaining[k] == storage[k]
    decreases |order|
  {
    if order == [] then Restoration([], storage, 0)
    else
      var init, key := order[..|order| - 1], order[|order| - 1];
      assert forall k :: k in init ==> k in order;
      var prev := RestoreLoop(storage, init);
      if IsEntryKey(key) then
        var r := Restoration(prev.urls + [storage[key]], prev.remaining - {key}, prev.counter + 1);
        assert EntryKeys(order) == EntryKeys(init) + [key];
        r
      else
        assert EntryKeys(order) == EntryKeys(init);
        prev
  }

  /** What restoring leaves behind: the list, the storage, and the number of URLs restored. */
  datatype Restored = Restored(list: TodoList, storage: Storage, counter: nat)

  /**
   * `windowMainToDoListRestore`: the stored URLs are appended to the list in listing order without
   * the duplicate check of the add button, their files are removed, and the list is marked
   * non-empty when anything was restored. The start buttons are left as they are.
   */
  function ToDoListRestore(t: TodoList, storage: Storage, order: seq<string>): (r: Restored)
    requires Listing(storage, order)
    ensures r.counter == |EntryKeys(order)|
    ensures |r.list.urls| == |t.urls| + r.counter && r.list.urls[..|t.urls|] == t.urls
    ensures forall j :: 0 <= j < r.counter ==> r.list.urls[|t.urls| + j] == storage[EntryKeys(order)[j]]
    ensures forall k :: k in r.storage <==> k in storage && !IsEntryKey(k)
    ensures forall k :: k in r.storage ==> r.storage[k] == storage[k]
    ensures r.list.stateEmpty <==> t.stateEmpty && r.counter == 0
    ensures r.list.startEnabled == t.startEnabled
  {
    var loop := RestoreLoop(storage, order);
    var list := t.(urls := t.urls + loop.urls);
    assert list.urls[..|t.urls|] == t.urls;
    Restored(if loop.counter > 0 then list.(stateEmpty := false) else list, loop.remaining, loop.counter)
  }

  /** The restore counter is the number of stored to-do entries, whatever the listing order. */
  lemma {:induction false} RestoreCounter(t: TodoList, storage: Storage, order: seq<string>)
    requires Listing(storage, order)
    ensures ToDoListRestore(t, storage, order).counter == |set k | k in storage && IsEntryKey(k)|
  {
    var keys := EntryKeys(order);
    EntryKeysNoDuplicates(order);
    CardOfNoDuplicates(keys);
    assert (set k | k in keys) == (set k | k in storage && IsEntryKey(k));
  }

  /** The keys a list of `n` URLs is saved under, in index order. */
  function IndexKeys(n: nat): (r: seq<string>)
    ensures |r| == n && forall i :: 0 <= i < n ==> r[i] == EntryKey(i)
  {
    seq(n, i requires 0 <= i => EntryKey(i))
  }

  /** A storage that holds no to-do entries. */
  predicate NoEntries(storage: Storage) {
    forall k :: k in storage ==> !IsEntryKey(k)
  }

  /** After a save into a storage without entries, the entry keys are exactly the index keys, and each holds its URL. */
  lemma {:induction false} SavedEntries(t: TodoList, storage: Storage)
    requires !t.stateEmpty && NoEntries(storage)
    ensures var saved := ToDoListSave(t, storage);
      forall k :: k in saved && IsEntryKey(k) <==> IsIndexKey(k, |t.urls|)
  {
    var saved := ToDoListSave(t, storage);
    forall k | IsIndexKey(k, |t.urls|) ensures k in saved && IsEntryKey(k) {
      var i :| 0 <= i < |t.urls| && k == EntryKey(i);
    }
  }

  /** Restoring what was saved leaves the storage as it was before the save. */
  lemma {:induction false} RestoreRemovesSaved(t: TodoList, next: TodoList, storage: Storage, order: seq<string>)
    requires !t.stateEmpty && NoEntries(storage)
    requires Listing(ToDoListSave(t, storage), order)
    ensures ToDoListRestore(next, ToDoListSave(t, storage), order).storage == storage
  {
    var saved := ToDoListSave(t, storage);
    EntriesRemoved(t.urls, storage, saved, ToDoListRestore(next, saved, order).storage);
  }

  /** Removing every entry from what a save wrote into a storage without entries gives that storage back. */
  lemma {:induction false} EntriesRemoved(urls: seq<string>, storage: Storage, saved: Storage, left: Storage)
    requires NoEntries(storage) && Saved(urls, storage, saved, |urls|)
    requires forall k :: k in left <==> k in saved && !IsEntryKey(k)
    requires forall k :: k in left ==> left[k] == saved[k]
    ensures left == storage
  {
    assert forall k :: k in storage ==> !IsIndexKey(k, |urls|);
    assert forall k :: k in left ==> k in storage;
  }

  /**
   * The round trip: saving a list marked non-empty into a storage without entries and restoring it
   * with the entries listed in index order appends exactly the saved URLs, counts them, and leaves
   * the storage as it was.
   */
  lemma {:induction false} SaveThenRestore(t: TodoList, next: TodoList, storage: Storage, order: seq<string>)
    requires !t.stateEmpty && NoEntries(storage)
    requires Listing(ToDoListSave(t, storage), order)
    requires EntryKeys(order) == IndexKeys(|t.urls|)
    ensures var r := ToDoListRestore(next, ToDoListSave(t, storage), order);
      && r.list.urls == next.urls + t.urls
      && r.counter == |t.urls|
      && r.storage == storage
      && (r.list.stateEmpty <==> next.stateEmpty && t.urls == [])
  {
    RestoreInIndexOrder(t, next, ToDoListSave(t, storage), order);
    RestoreRemovesSaved(t, next, storage, order);
  }

  /** The URL part of the round trip. */
  lemma {:induction false} RestoreInIndexOrder(t: TodoList, next: TodoList, saved: Storage, order: seq<string>)
    requires Listing(saved, order) && HoldsEntries(t.urls, saved, |t.urls|)
    requires EntryKeys(order) == IndexKeys(|t.urls|)
    ensures ToDoListRestore(next, saved, order).list.urls == next.urls + t.urls
  {
    var r := ToDoListRestore(next, saved, order);
    var keys := EntryKeys(order);
    var restored := r.list.urls[|next.urls|..];
    forall j | 0 <= j < |keys| ensures restored[j] == saved[keys[j]] {
      assert restored[j] == r.list.urls[|next.urls| + j];
    }
    RestoredInOrder(t.urls, saved, keys, restored);
    assert r.list.urls == r.list.urls[..|next.urls|] + restored;
  }

  /** Reading the URLs of the index keys in index order gives back the saved list. */
  lemma {:induction false} RestoredInOrder(urls: seq<string>, saved: Storage, keys: seq<string>, restored: seq<string>)
    requires HoldsEntries(urls, saved, |urls|)
    requires keys == IndexKeys(|urls|) && |restored| == |keys|
    requires forall j :: 0 <= j < |keys| ==> keys[j] in saved && restored[j] == saved[keys[j]]
    ensures restored == urls
  {
  }

  /**
   * Whatever order the storage lists its keys in, restoring what was saved brings back as many
   * URLs as were saved, and exactly the saved ones, though possibly in another order.
   */
  lemma {:induction false} SaveThenRestoreAnyOrder(t: TodoList, next: TodoList, storage: Storage, order: seq<string>)
    requires !t.stateEmpty && NoEntries(storage)
    requires Listing(ToDoListSave(t, storage), order)
    ensures var r := ToDoListRestore(next, ToDoListSave(t, storage), order);
      r.counter == |t.urls| && forall u :: u in r.list.urls[|next.urls|..] <==> u in t.urls
  {
    SavedEntries(t, storage);
    RestoreReadsBack(t.urls, ToDoListSave(t, storage), next, order);
  }

  /** Restoring from any listing of a storage whose entries are exactly the saved ones reads back the saved URLs. */
  lemma {:induction false} RestoreReadsBack(urls: seq<string>, saved: Storage, next: TodoList, order: seq<string>)
    requires Listing(saved, order) && HoldsEntries(urls, saved, |urls|)
    requires forall k :: k in saved && IsEntryKey(k) <==> IsIndexKey(k, |urls|)
    ensures var r := ToDoListRestore(next, saved, order);
      r.counter == |urls| && forall u :: u in r.list.urls[|next.urls|..] <==> u in urls
  {
    var keys := EntryKeys(order);
    EntryKeysNoDuplicates(order);
    ReadBack(urls, saved, keys, next.urls, ToDoListRestore(next, saved, order).list.urls);
  }

  /** The URLs read from any listing of the index keys, behind the list they were appended to. */
  lemma {:induction false} ReadBack(urls: seq<string>, saved: Storage, keys: seq<string>, prefix: seq<string>, all: seq<string>)
    requires HoldsEntries(urls, saved, |urls|)
    requires NoDuplicates(keys) && forall k :: k in keys <==> IsIndexKey(k, |urls|)
    requires |all| == |prefix| + |keys|
    requires forall j :: 0 <= j < |keys| ==> keys[j] in saved && all[|prefix| + j] == saved[keys[j]]
    ensures |keys| == |urls|
    ensures forall u :: u in all[|prefix|..] <==> u in urls
  {
    var restored := all[|prefix|..];
    IndexKeysCount(keys, |urls|);
    forall j | 0 <= j < |keys| ensures keys[j] in saved && restored[j] == saved[keys[j]] {
      assert restored[j] == all[|prefix| + j];
    }
    RestoredAreSaved(urls, saved, keys, restored);
  }

  /** A listing of the index keys without repeats has one key per index. */
  lemma {:induction false} IndexKeysCount(keys: seq<string>, n: nat)
    requires NoDuplicates(keys)
    requires forall k :: k in keys <==> IsIndexKey(k, n)
    ensures |keys| == n
  {
    var all := IndexKeys(n);
    IndexKeysNoDuplicates(n);
    CardOfNoDuplicates(keys);
    CardOfNoDuplicates(all);
    assert forall k :: k in all <==> IsIndexKey(k, n);
    assert (set k | k in keys) == (set k | k in all);
  }

  /** Reading the URLs of any listing of the index keys gives back exactly the saved URLs. */
  lemma {:induction false} RestoredAreSaved(urls: seq<string>, saved: Storage, keys: seq<string>, restored: seq<string>)
    requires HoldsEntries(urls, saved, |urls|)
    requires forall k :: k in keys <==> IsIndexKey(k, |urls|)
    requires |restored| == |keys|
    requires forall j :: 0 <= j < |keys| ==> keys[j] in saved && restored[j] == saved[keys[j]]
    ensures forall u :: u in restored <==> u in urls
  {
    forall u | u in restored ensures u in urls {
      var j :| 0 <= j < |restored| && restored[j] == u;
      assert keys[j] in keys;
      var i :| 0 <= i < |urls| && keys[j] == EntryKey(i);
      assert u == urls[i];
    }
    forall u | u in urls ensures u in restored {
      var i :| 0 <= i < |urls| && urls[i] == u;
      assert EntryKey(i) in keys;
      var j :| 0 <= j < |keys| && keys[j] == EntryKey(i);
      assert restored[j] == u;
    }
  }

  lemma {:induction false} IndexKeysNoDuplicates(n: nat)
    ensures NoDuplicates(IndexKeys(n))
  {
    var keys := IndexKeys(n);
    forall i, j | 0 <= i < j < n ensures keys[i] != keys[j] {
      EntryKeyInjective(i, j);
    }
  }

  /** Restore skips the duplicate check: a stored URL that is already listed ends up listed twice. */
  lemma {:induction false} RestoreAdmitsDuplicates(t: TodoList, storage: Storage, order: seq<string>, key: string)
    requires Listing(storage, order)
    requires key in storage && IsEntryKey(key) && storage[key] in t.urls
    ensures !NoDuplicates(ToDoListRestore(t, storage, order).list.urls)
  {
    var urls := ToDoListRestore(t, storage, order).list.urls;
    var keys := EntryKeys(order);
    assert key in keys;
    var j :| 0 <= j < |keys| && keys[j] == key;
    AppendedAgain(t.urls, urls, storage[key], j);
  }

  /** A list that starts with `prefix` and holds an element of `prefix` again further on has a repeat. */
  lemma {:induction false} AppendedAgain(prefix: seq<string>, urls: seq<string>, u: string, j: nat)
    requires |prefix| + j < |urls| && urls[..|prefix|] == prefix
    requires u in prefix && urls[|prefix| + j] == u
    ensures !NoDuplicates(urls)
  {
    var i :| 0 <= i < |prefix| && prefix[i] == u;
    assert urls[i] == urls[..|prefix|][i];
  }
}
