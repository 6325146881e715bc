/** Log rotation: every archive moves up by one, and the current log becomes archive 1. */
module LogRoll {
  import opened Bytes

  type File = seq<byte>

  /** The files of one log: the current one, and the archives by number. */
  datatype LogFiles = LogFiles(current: Option<File>, archives: map<nat, File>)

  /** The archives once the numbers in `done` have been processed, from the highest down. */
  ghost function Rolled(was: map<nat, File>, done: set<nat>): map<nat, File> {
    map j | j in Targets(was, done) ::
      if 0 < j && j - 1 in done && j - 1 in was then was[j - 1] else was[j]
  }

  ghost function Targets(was: map<nat, File>, done: set<nat>): set<nat> {
    (set i | i in was && i in done :: i + 1) + (set i | i in was && i !in done)
  }

  ghost function Numbers(s: seq<nat>): set<nat> {
    set i | i in s
  }

  /** The archives after the rotation: those renamed, and the log that was current. */
  ghost function Outcome(files: LogFiles, found: set<nat>): map<nat, File> {
    var a := Rolled(files.archives, found);
    if files.current.Some? then a[1 := files.current.value] else a
  }

  /** What rename does to the archives. */
  function Renamed(a: map<nat, File>, from: nat, to: nat): map<nat, File> {
    if from in a then
      var rest: map<nat, File> := a - {from};
      rest[to := a[from]]
    else a
  }

  predicate Descending(s: seq<nat>) {
    forall i, j :: 0 <= i < j < |s| ==> s[i] >= s[j]
  }

  /** The numbers a scan of the directory keeps. */
  ghost function Positive(entries: seq<int>): set<nat> {
    set e: nat | e in entries && 0 < e
  }

  function InsertDown(x: nat, s: seq<nat>): (r: seq<nat>)
    requires Descending(s)
    ensures Descending(r)
    ensures forall k :: k in r <==> k == x || k in s
  {
    if s == [] || x >= s[0] then [x] + s
    else
      var t := InsertDown(x, s[1..]);
      assert forall k :: k in t ==> k <= s[0];
      assert forall j :: 0 <= j < |t| ==> t[j] in t;
      [s[0]] + t
  }

  /** std::sort with std::greater. */
  function SortedDown(s: seq<nat>): (r: seq<nat>)
    ensures Descending(r)
    ensures forall k :: k in r <==> k in s
  {
    if s == [] then [] else InsertDown(s[0], SortedDown(s[1..]))
  }

  class Log {
    var files: LogFiles

    constructor (files: LogFiles)
      ensures this.files == files
    {
      this.files := files;
    }

    /** rename of one archive; it fails when the archive does not exist. */
    method RenameArchive(from: nat, to: nat)
      requires from != to
      modifies this
      ensures files.current == old(files.current)
      ensures files.archives == Renamed(old(files.archives), from, to)
    {
      if from in files.archives {
        files := files.(archives := Renamed(files.archives, from, to));
      }
    }

    /** The renames, for the numbers in `fileIdx`. */
    method RenameAll(fileIdx: seq<nat>)
      requires Descending(fileIdx)
      modifies this
      ensures files.current == old(files.current)
      ensures files.archives == Rolled(old(files.archives), Numbers(fileIdx))
    {
      ghost var was := files.archives;
      RolledNone(was);
      for n := 0 to |fileIdx|
        invariant files.current == old(files.current)
        invariant files.archives == Rolled(was, Numbers(fileIdx[..n]))
      {
        var idx := fileIdx[n];
        RollOne(was, Numbers(fileIdx[..n]), idx);
        RenameArchive(idx, idx + 1);
        assert Numbers(fileIdx[..n + 1]) == Numbers(fileIdx[..n]) + {idx} by {
          assert fileIdx[..n + 1] == fileIdx[..n] + [idx];
        }
      }
      assert fileIdx[..|fileIdx|] == fileIdx;
    }

    /**
     * `entries` are the numbers behind the last dot of the names in the directory, of any
     * log and in any order, 0 where there is no number; None when it cannot be opened.
     */
    method FileRoll(entries: Option<seq<int>>)
      modifies this
      ensures entries.None? ==> files == old(files)
      ensures entries.Some? ==> files == LogFiles(Some([]), Outcome(old(files), Positive(entries.value)))
    {
      if entries.None? {
        return;
      }
      var fileIdx: seq<nat> := [];
      for i := 0 to |entries.value|
        invariant forall k: nat :: k in fileIdx <==> k in Positive(entries.value[..i])
      {
        var idx := entries.value[i];
        assert entries.value[..i + 1] == entries.value[..i] + [idx];
        if idx > 0 {
          fileIdx := fileIdx + [idx];
        }
      }
      assert entries.value[..|entries.value|] == entries.value;
      fileIdx := SortedDown(fileIdx);
      assert Numbers(fileIdx) == Positive(entries.value);
      RenameAll(fileIdx);
      if files.current.Some? {
        files := files.(archives := files.archives[1 := files.current.value], current := None);
      }
      files := files.(current := Some([]));
    }
  }

  lemma RolledNone(a: map<nat, File>)
    ensures Rolled(a, Numbers([])) == a
  {
    assert forall i :: i in a ==> i in Targets(a, Numbers([]));
  }

  lemma TargetOf(was: map<nat, File>, done: set<nat>, j: nat)
    ensures j in Targets(was, done) <==>
      (0 < j && j - 1 in was && j - 1 in done) || (j in was && j !in done)
  {
    if 0 < j && j - 1 in was && j - 1 in done {
      assert (j - 1) + 1 in (set i | i in was && i in done :: i + 1);
    }
  }

  /** Which archive lies at number `j` after the renames, if any. */
  lemma PlaceOf(was: map<nat, File>, found: set<nat>, j: nat)
    ensures var (a, moved) := (Rolled(was, found), 0 < j && j - 1 in was && j - 1 in found);
      && (j in a <==> moved || (j in was && j !in found))
      && (j in a ==> a[j] == if moved then was[j - 1] else was[j])
  {
    TargetOf(was, found, j);
  }

  /** One rename, of a number no higher than any processed before, is one more step of Rolled. */
  lemma RollOne(was: map<nat, File>, done: set<nat>, idx: nat)
    requires forall i :: i in done ==> idx <= i
    ensures Rolled(was, done + {idx}) == Renamed(Rolled(was, done), idx, idx + 1)
  {
    var (a, b) := (Rolled(was, done), Rolled(was, done + {idx}));
    var c := Renamed(a, idx, idx + 1);
    if idx in done {
      assert done + {idx} == done;
      PlaceOf(was, done, idx);
    } else {
      hide Rolled, Targets;
      PlaceOf(was, done, idx);
      forall j: nat ensures (j in b <==> j in c) && (j in b ==> b[j] == c[j]) {
        PlaceOf(was, done, j);
        PlaceOf(was, done + {idx}, j);
      }
      assert b.Keys == c.Keys;
    }
  }

  /**
   * When every live archive is among the numbers found, archive i becomes i + 1, the
   * current log becomes 1, and nothing is overwritten.
   */
  lemma NothingOverwritten(was: map<nat, File>, found: set<nat>)
    requires forall i :: i in was ==> 0 < i && i in found
    ensures var a := Rolled(was, found);
      && 1 !in a
      && (forall i :: i in was ==> i + 1 in a && a[i + 1] == was[i])
      && (forall j :: j in a ==> 1 < j && j - 1 in was)
  {
    forall j: nat ensures j in Targets(was, found) <==> 1 < j && j - 1 in was {
      TargetOf(was, found, j);
    }
  }

  /** An archive whose number was not found stays, unless its predecessor moves into its place. */
  lemma UnfoundArchive(was: map<nat, File>, found: set<nat>, k: nat)
    requires k in was && k !in found && 0 < k
    ensures var a := Rolled(was, found);
      && k in a
      && a[k] == if k - 1 in was && k - 1 in found then was[k - 1] else was[k]
  {
    TargetOf(was, found, k);
  }

  /** Archive `k` ends where the current log goes, or stays where its predecessor goes. */
  predicate Lost(files: LogFiles, found: set<nat>, k: nat) {
    || (files.current.Some? && (if k in found then k == 0 else k == 1))
    || (0 < k && k !in found && k - 1 in files.archives && k - 1 in found)
  }

  /** The files have different contents, so that one can tell which of them are left. */
  ghost predicate Distinct(files: LogFiles) {
    && (forall i, j :: i in files.archives && j in files.archives && i != j ==> files.archives[i] != files.archives[j])
    && (files.current.Some? ==> forall i :: i in files.archives ==> files.archives[i] != files.current.value)
  }

  lemma StillThereIff(files: LogFiles, found: set<nat>, k: nat)
    requires Distinct(files) && k in files.archives
    ensures files.archives[k] in Outcome(files, found).Values <==> !Lost(files, found, k)
  {
    hide Rolled, Targets;
    var (was, o) := (files.archives, Outcome(files, found));
    var d := if k in found then k + 1 else k;
    PlaceOf(was, found, d);
    if !Lost(files, found, k) {
      assert d in o && o[d] == was[k];
    } else if was[k] in o.Values {
      var j: nat :| j in o && o[j] == was[k];
      PlaceOf(was, found, j);
    }
  }

  /**
   * The rotation keeps every file if and only if no archive is in the way: one that was
   * not found, behind one that was, or at number 1 when there is a current log.
   */
  lemma NothingLostIff(files: LogFiles, found: set<nat>)
    requires Distinct(files)
    ensures
      (forall k :: k in files.archives ==> files.archives[k] in Outcome(files, found).Values)
      <==> forall k :: k in files.archives ==> !Lost(files, found, k)
    ensures files.current.Some? ==> files.current.value in Outcome(files, found).Values
  {
    hide Outcome, Lost;
    forall k | k in files.archives
      ensures files.archives[k] in Outcome(files, found).Values <==> !Lost(files, found, k)
    {
      StillThereIff(files, found, k);
    }
    CurrentKept(files, found);
  }

  lemma CurrentKept(files: LogFiles, found: set<nat>)
    ensures files.current.Some? ==> files.current.value in Outcome(files, found).Values
  {
    var o := Outcome(files, found);
    if files.current.Some? {
      assert 1 in o && o[1] == files.current.value;
    }
  }

  /** Archive 1 appears behind the scan: the current log takes its place. */
  lemma MissedArchiveIsLost(files: LogFiles)
    requires files == LogFiles(Some([7]), map[1 := [8], 2 := [9]])
    ensures Distinct(files) && Lost(files, {2}, 1)
    ensures files.archives[1] !in Outcome(files, {2}).Values
    ensures files.archives[2] in Outcome(files, {2}).Values
  {
    hide Outcome;
    StillThereIff(files, {2}, 1);
    StillThereIff(files, {2}, 2);
  }

  /** The scan keeps every number from 1 on. */
  lemma PositiveIs(entries: seq<int>, e: nat)
    ensures e in Positive(entries) <==> e in entries && 1 <= e
  {
  }

  /** When the directory lists every archive, the whole rotation loses nothing, from archive 1 on. */
  lemma ListedMeansKept(files: LogFiles, entries: seq<int>, k: nat)
    requires forall i :: i in files.archives ==> 1 <= i && i in entries
    requires k in files.archives
    ensures !Lost(files, Positive(entries), k)
    ensures var o := Outcome(files, Positive(entries)); k + 1 in o && o[k + 1] == files.archives[k]
  {
    var found := Positive(entries);
    PositiveIs(entries, k);
    PlaceOf(files.archives, found, k + 1);
    hide Rolled;
  }
}
