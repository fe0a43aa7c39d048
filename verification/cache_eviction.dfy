/**
  The resource-directory clean-up (estimatorMap.py, lines 191-203).

  The directory is a sequence of entries in the order `glob` lists them; each
  entry is a path with its modification time (`os.path.getmtime`).  When more
  than `MaxFiles` files are listed, the list is sorted by modification time
  (Python's `sorted`, which is stable), the first `len - MaxFiles` are selected,
  and each selected file is removed; a removal that raises is reported and
  skipped.  Whether `os.remove` raises for a path is given by an oracle.
*/
module CacheEviction {

  /** `MAX_FILES`: the number of files the clean-up keeps. */
  const MaxFiles: nat := 50

  /** A file of the resource directory and its modification time. */
  datatype Entry = Entry(path: string, mtime: int)

  /** What the clean-up reports for one selected file. */
  datatype Removal = Removed(path: string) | RemoveFailed(path: string)

  /** The report for a file that is present: removed unless `os.remove` raises. */
  function Attempt(path: string, removable: string -> bool): Removal {
    if removable(path) then Removed(path) else RemoveFailed(path)
  }

  /** The reports for the selected files, one per file, in order. */
  function Attempts(selected: seq<Entry>, removable: string -> bool): (r: seq<Removal>)
    ensures |r| == |selected|
  {
    if selected == [] then []
    else Attempts(selected[..|selected| - 1], removable) + [Attempt(selected[|selected| - 1].path, removable)]
  }

  function Paths(s: seq<Entry>): set<string> { set e | e in s :: e.path }

  /** No two entries name the same file, as in any directory listing. */
  predicate DistinctPaths(s: seq<Entry>) {
    forall i, j :: 0 <= i < j < |s| ==> s[i].path != s[j].path
  }

  predicate SortedByMtime(s: seq<Entry>) {
    forall i, j :: 0 <= i < j < |s| ==> s[i].mtime <= s[j].mtime
  }

  // ---------------------------------------------------------------------------
  // `sorted(all_files, key=os.path.getmtime)`

  /** Puts `e` before the first entry that is not older than it. */
  function Insert(e: Entry, s: seq<Entry>): (r: seq<Entry>)
    requires SortedByMtime(s)
    ensures SortedByMtime(r)
    ensures multiset(r) == multiset(s) + multiset{e}
    ensures |r| == |s| + 1 && (r[0] == e || (s != [] && r[0] == s[0]))
  {
    if s == [] || e.mtime <= s[0].mtime then
      ConsSorted(e, s);
      [e] + s
    else
      var rest := Insert(e, s[1..]);
      ConsSorted(s[0], rest);
      assert s == [s[0]] + s[1..];
      [s[0]] + rest
  }

  /** An entry no newer than the head of a sorted list can go in front of it. */
  lemma ConsSorted(x: Entry, s: seq<Entry>)
    requires SortedByMtime(s)
    requires s != [] ==> x.mtime <= s[0].mtime
    ensures SortedByMtime([x] + s)
  {
    var r := [x] + s;
    forall i, j | 0 <= i < j < |r| ensures r[i].mtime <= r[j].mtime {
      if i == 0 {
        assert s[0].mtime <= s[j - 1].mtime;
      } else {
        assert r[i] == s[i - 1] && r[j] == s[j - 1];
      }
    }
  }

  /** A stable sort by ascending modification time. */
  function SortByMtime(s: seq<Entry>): (r: seq<Entry>)
    ensures SortedByMtime(r)
    ensures multiset(r) == multiset(s)
    ensures |r| == |s|
  {
    if s == [] then []
    else
      assert s == [s[0]] + s[1..];
      Insert(s[0], SortByMtime(s[1..]))
  }

  // ---------------------------------------------------------------------------
  // Selection

  /** `files_to_remove`: the `|entries| - limit` oldest entries, or none when within the limit. */
  function Selected(entries: seq<Entry>, limit: nat): (r: seq<Entry>)
    ensures |r| == if |entries| > limit then |entries| - limit else 0
  {
    if |entries| > limit then SortByMtime(entries)[..|entries| - limit] else []
  }

  /** The entries the selection leaves: the newest `limit`, or all of them when within the limit. */
  function Kept(entries: seq<Entry>, limit: nat): seq<Entry> {
    if |entries| > limit then SortByMtime(entries)[|entries| - limit..] else entries
  }

  /** The paths of the selected entries whose removal succeeds. */
  function Gone(selected: seq<Entry>, removable: string -> bool): set<string> {
    set e | e in selected && removable(e.path) :: e.path
  }

  /** The entries whose path is not in `gone`, in their order. */
  function Keep(s: seq<Entry>, gone: set<string>): (r: seq<Entry>)
    ensures |r| <= |s|
  {
    if s == [] then []
    else (if s[0].path in gone then [] else [s[0]]) + Keep(s[1..], gone)
  }

  /** The directory after the clean-up. */
  function Evicted(entries: seq<Entry>, removable: string -> bool): (r: seq<Entry>)
    ensures |r| <= |entries|
  {
    Keep(entries, Gone(Selected(entries, MaxFiles), removable))
  }

  /** The removal outcome of a clean-up that also leaves the file `inUse` in place. */
  function Sparing(removable: string -> bool, inUse: string): string -> bool {
    p => removable(p) && p != inUse
  }

  // ---------------------------------------------------------------------------
  // The directory and the clean-up loop

  class ResourceDir {
    var entries: seq<Entry>

    ghost predicate Valid()
      reads this
    {
      DistinctPaths(entries)
    }

    constructor (listing: seq<Entry>)
      requires DistinctPaths(listing)
      ensures Valid() && entries == listing
    {
      entries := listing;
    }

    /** `os.remove(path)`: succeeds when the file is there and the oracle lets it go. */
    method Remove(path: string, removable: string -> bool) returns (ok: bool)
      requires Valid()
      modifies this
      ensures Valid()
      ensures ok == (path in Paths(old(entries)) && removable(path))
      ensures entries == if ok then Keep(old(entries), {path}) else old(entries)
    {
      ok := path in Paths(entries) && removable(path);
      if ok {
        KeepDistinct(entries, {path});
        entries := Keep(entries, {path});
      }
    }

    /**
      The clean-up: selects the oldest files beyond `MaxFiles` and tries to
      remove each of them, in order, whatever happened to the previous one.
    */
    method Evict(removable: string -> bool) returns (log: seq<Removal>)
      requires Valid()
      modifies this
      ensures Valid()
      ensures entries == Evicted(old(entries), removable)
      ensures |old(entries)| <= MaxFiles ==> entries == old(entries) && log == []
      ensures log == Attempts(Selected(old(entries), MaxFiles), removable)
    {
      ghost var before := entries;
      var all := entries;
      log := [];
      if |all| > MaxFiles {
        var toRemove := Selected(all, MaxFiles);
        SelectedDistinct(before, MaxFiles);
        assert toRemove[..0] == [];
        KeepNothing(before, Gone([], removable));
        for i := 0 to |toRemove|
          invariant Valid()
          invariant entries == Keep(before, Gone(toRemove[..i], removable))
          invariant log == Attempts(toRemove[..i], removable)
        {
          var path := toRemove[i].path;
          EvictStep(before, toRemove, i, removable);
          AttemptsSnoc(toRemove, i, removable);
          var ok := Remove(path, removable);
          log := log + [if ok then Removed(path) else RemoveFailed(path)];
        }
        assert toRemove[..|toRemove|] == toRemove;
      } else {
        KeepNothing(before, Gone([], removable));
      }
    }
  }

  // ---------------------------------------------------------------------------
  // Lemmas

  /** The clean-up reports on each selected file in turn, in the order of the selection. */
  lemma {:induction false} AttemptsAt(selected: seq<Entry>, removable: string -> bool)
    ensures forall k :: 0 <= k < |selected| ==>
      Attempts(selected, removable)[k] == Attempt(selected[k].path, removable)
  {
    if selected != [] {
      AttemptsAt(selected[..|selected| - 1], removable);
    }
  }

  /** One more selected file adds its report at the end. */
  lemma AttemptsSnoc(selected: seq<Entry>, i: nat, removable: string -> bool)
    requires i < |selected|
    ensures Attempts(selected[..i + 1], removable) ==
      Attempts(selected[..i], removable) + [Attempt(selected[i].path, removable)]
  {
    assert selected[..i + 1][..i] == selected[..i];
  }

  /** `Keep` keeps exactly the entries whose path is not in `gone`. */
  lemma {:induction false} KeepMembers(s: seq<Entry>, gone: set<string>)
    ensures forall e :: e in Keep(s, gone) <==> e in s && e.path !in gone
  {
    if s != [] {
      KeepMembers(s[1..], gone);
      assert s == [s[0]] + s[1..];
    }
  }

  lemma {:induction false} KeepNothing(s: seq<Entry>, gone: set<string>)
    requires gone == {}
    ensures Keep(s, gone) == s
  {
    if s != [] {
      KeepNothing(s[1..], gone);
      assert s == [s[0]] + s[1..];
    }
  }

  /**
    One turn of the clean-up loop: the next selected file is still there, and
    trying to remove it moves the directory on to the next prefix of the selection.
  */
  lemma EvictStep(before: seq<Entry>, sel: seq<Entry>, i: nat, removable: string -> bool)
    requires DistinctPaths(sel) && Paths(sel) <= Paths(before) && i < |sel|
    ensures sel[i].path in Paths(Keep(before, Gone(sel[..i], removable)))
    ensures Keep(before, Gone(sel[..i + 1], removable)) ==
      if removable(sel[i].path) then Keep(Keep(before, Gone(sel[..i], removable)), {sel[i].path})
      else Keep(before, Gone(sel[..i], removable))
  {
    var p := sel[i].path;
    var g := Gone(sel[..i], removable);
    forall x | x in g ensures x != p {
      var e :| e in sel[..i] && removable(e.path) && e.path == x;
      var k :| 0 <= k < i && sel[k] == e;
    }
    assert p in Paths(sel);
    var e :| e in before && e.path == p;
    KeepMembers(before, g);
    assert e in Keep(before, g);
    assert sel[..i + 1] == sel[..i] + [sel[i]];
    var g' := Gone(sel[..i + 1], removable);
    assert g' == g + (if removable(p) then {p} else {}) by {
      forall x | x in g' ensures x in g || (removable(p) && x == p) {
        var d :| d in sel[..i + 1] && removable(d.path) && d.path == x;
        if d != sel[i] { assert d in sel[..i]; }
      }
      forall x | x in g ensures x in g' {
        var d :| d in sel[..i] && removable(d.path) && d.path == x;
        assert d in sel[..i + 1];
      }
      assert sel[i] in sel[..i + 1];
    }
    if removable(p) {
      KeepKeep(before, g, p);
    } else {
      assert g' == g;
    }
  }

  /** Removing one more path after a set of paths is removing their union. */
  lemma {:induction false} KeepKeep(s: seq<Entry>, gone: set<string>, p: string)
    ensures Keep(Keep(s, gone), {p}) == Keep(s, gone + {p})
  {
    if s != [] {
      KeepKeep(s[1..], gone, p);
      var head := if s[0].path in gone then [] else [s[0]];
      assert Keep(s, gone) == head + Keep(s[1..], gone);
      KeepAppend(head, Keep(s[1..], gone), {p});
    }
  }

  lemma {:induction false} KeepAppend(a: seq<Entry>, b: seq<Entry>, gone: set<string>)
    ensures Keep(a + b, gone) == Keep(a, gone) + Keep(b, gone)
  {
    if a != [] {
      KeepAppend(a[1..], b, gone);
      assert (a + b)[1..] == a[1..] + b;
    } else {
      assert a + b == b;
    }
  }

  lemma {:induction false} KeepDistinct(s: seq<Entry>, gone: set<string>)
    requires DistinctPaths(s)
    ensures DistinctPaths(Keep(s, gone))
  {
    if s != [] {
      KeepDistinct(s[1..], gone);
      KeepMembers(s[1..], gone);
    }
  }

  /** With distinct paths, the number of entries is the number of paths. */
  lemma {:induction false} DistinctCount(s: seq<Entry>)
    ensures |Paths(s)| <= |s|
    ensures DistinctPaths(s) <==> |Paths(s)| == |s|
  {
    if s != [] {
      DistinctCount(s[1..]);
      PathsCons(s);
      DistinctCons(s);
    }
  }

  lemma PathsCons(s: seq<Entry>)
    requires s != []
    ensures Paths(s) == {s[0].path} + Paths(s[1..])
  {
    assert s == [s[0]] + s[1..];
  }

  /** A list has distinct paths when its head's path is not in its tail and its tail has distinct paths. */
  lemma DistinctCons(s: seq<Entry>)
    requires s != []
    ensures DistinctPaths(s) <==> s[0].path !in Paths(s[1..]) && DistinctPaths(s[1..])
  {
    if s[0].path in Paths(s[1..]) {
      var k :| 0 <= k < |s[1..]| && s[1..][k].path == s[0].path;
      assert s[0].path == s[k + 1].path;
    }
    if !DistinctPaths(s[1..]) {
      var i, j :| 0 <= i < j < |s[1..]| && s[1..][i].path == s[1..][j].path;
      assert s[i + 1].path == s[j + 1].path;
    }
  }

  /** The selection is drawn from the listing, and no path in it repeats. */
  lemma SelectedDistinct(entries: seq<Entry>, limit: nat)
    requires DistinctPaths(entries)
    ensures DistinctPaths(Selected(entries, limit))
    ensures Paths(Selected(entries, limit)) <= Paths(entries)
  {
    var sorted := SortByMtime(entries);
    assert Paths(sorted) == Paths(entries) by {
      forall e ensures e in sorted <==> e in entries {
        assert e in sorted <==> e in multiset(sorted);
      }
    }
    DistinctCount(entries);
    DistinctCount(sorted);
    assert |sorted| == |multiset(sorted)| == |entries|;
    if |entries| > limit {
      var sel := sorted[..|entries| - limit];
      forall e | e in sel ensures e in sorted { }
    }
  }

  /**
    The selection and what it leaves make up the listing, the right number is
    left, and no selected file is newer than a file left.
  */
  lemma SelectionSplit(entries: seq<Entry>, limit: nat)
    ensures multiset(Selected(entries, limit)) + multiset(Kept(entries, limit)) == multiset(entries)
    ensures |Kept(entries, limit)| == if |entries| > limit then limit else |entries|
    ensures forall d, e :: d in Selected(entries, limit) && e in Kept(entries, limit) ==> d.mtime <= e.mtime
  {
    if |entries| > limit {
      var sorted := SortByMtime(entries);
      var n := |entries| - limit;
      assert sorted == sorted[..n] + sorted[n..];
      forall d, e | d in sorted[..n] && e in sorted[n..] ensures d.mtime <= e.mtime {
        var i :| 0 <= i < n && sorted[..n][i] == d;
        var j :| 0 <= j < limit && sorted[n..][j] == e;
        assert sorted[n + j] == e;
      }
    }
  }

  /** Files the clean-up does not select are never removed. */
  lemma UnselectedSurvive(entries: seq<Entry>, removable: string -> bool)
    ensures forall e :: e in entries && e.path !in Paths(Selected(entries, MaxFiles)) ==>
      e in Evicted(entries, removable)
  {
    KeepMembers(entries, Gone(Selected(entries, MaxFiles), removable));
  }

  /** With distinct paths, dropping some of the listed paths drops exactly that many entries. */
  lemma KeepCount(s: seq<Entry>, gone: set<string>)
    requires DistinctPaths(s) && gone <= Paths(s)
    ensures |Keep(s, gone)| == |s| - |gone|
  {
    KeepDistinct(s, gone);
    KeepMembers(s, gone);
    var r := Keep(s, gone);
    assert Paths(r) == Paths(s) - gone;
    DistinctCount(r);
    DistinctCount(s);
    assert Paths(s) == (Paths(s) - gone) + gone;
  }

  /** Every selected entry is an entry of the listing. */
  lemma SelectedFromListing(entries: seq<Entry>, limit: nat)
    ensures forall d :: d in Selected(entries, limit) ==> d in entries
  {
    SelectionSplit(entries, limit);
    forall d | d in Selected(entries, limit) ensures d in entries {
      assert d in multiset(entries);
    }
  }

  /** When every removal succeeds, the files left are among those the selection leaves. */
  lemma EvictedAreKept(entries: seq<Entry>, removable: string -> bool)
    requires DistinctPaths(entries)
    requires forall e :: e in entries ==> removable(e.path)
    ensures forall e :: e in Evicted(entries, removable) ==> e in Kept(entries, MaxFiles)
  {
    var sel := Selected(entries, MaxFiles);
    SelectedFromListing(entries, MaxFiles);
    assert Gone(sel, removable) == Paths(sel);
    KeepMembers(entries, Paths(sel));
    SelectionSplit(entries, MaxFiles);
    forall e | e in Evicted(entries, removable) ensures e in Kept(entries, MaxFiles) {
      assert e !in sel;
      assert multiset(entries)[e] > 0;
    }
  }

  /**
    When every removal succeeds, exactly `MaxFiles` files are left over a full
    directory, and each file left is at least as new as each file removed.
  */
  lemma EvictAllSucceed(entries: seq<Entry>, removable: string -> bool)
    requires DistinctPaths(entries) && |entries| > MaxFiles
    requires forall e :: e in entries ==> removable(e.path)
    ensures |Evicted(entries, removable)| == MaxFiles
    ensures forall e, d :: e in Evicted(entries, removable) && d in Selected(entries, MaxFiles) ==>
      d.mtime <= e.mtime
  {
    var sel := Selected(entries, MaxFiles);
    SelectedDistinct(entries, MaxFiles);
    SelectedFromListing(entries, MaxFiles);
    assert Gone(sel, removable) == Paths(sel);
    DistinctCount(sel);
    KeepCount(entries, Paths(sel));
    EvictedAreKept(entries, removable);
    SelectionSplit(entries, MaxFiles);
  }

  /** Within the limit the clean-up removes nothing. */
  lemma WithinLimit(entries: seq<Entry>, removable: string -> bool)
    requires |entries| <= MaxFiles
    ensures Evicted(entries, removable) == entries
  {
    KeepNothing(entries, Gone([], removable));
  }

  /** A selected file whose removal succeeds is gone after the clean-up, whatever it is in use for. */
  lemma SelectedRemoved(entries: seq<Entry>, removable: string -> bool, path: string)
    requires path in Paths(Selected(entries, MaxFiles)) && removable(path)
    ensures path !in Paths(Evicted(entries, removable))
  {
    var g := Gone(Selected(entries, MaxFiles), removable);
    assert path in g;
    KeepMembers(entries, g);
  }

  /**
    A clean-up that spares `inUse` leaves it in the directory, and removes the
    same other files as the clean-up it is derived from.
  */
  lemma SparingKeepsInUse(entries: seq<Entry>, removable: string -> bool, inUse: string)
    ensures inUse in Paths(entries) ==> inUse in Paths(Evicted(entries, Sparing(removable, inUse)))
    ensures forall p :: p != inUse ==>
      (p in Paths(Evicted(entries, Sparing(removable, inUse))) <==> p in Paths(Evicted(entries, removable)))
  {
    var sel := Selected(entries, MaxFiles);
    var g := Gone(sel, removable);
    var g' := Gone(sel, Sparing(removable, inUse));
    assert g' == g - {inUse};
    KeepMembers(entries, g);
    KeepMembers(entries, g');
    assert Paths(Keep(entries, g)) == Paths(entries) - g;
    assert Paths(Keep(entries, g')) == Paths(entries) - g';
  }
}
