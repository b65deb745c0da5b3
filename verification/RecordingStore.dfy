/** The recording store as it runs, on a disk whose operations may fail. */
module RecordingStores {
  import opened Wrappers
  import opened Seqs
  import opened Bytes
  import opened Disks
  import opened Harness
  import opened Store

  /** The entries whose mark is set. */
  function Retained(entries: Entries, keep: seq<bool>): Entries
    requires |keep| == |entries|
  {
    if entries == [] then []
    else (if keep[0] then [entries[0]] else []) + Retained(entries[1..], keep[1..])
  }

  function RemoveOps(name: Name): seq<Op> {
    [Remove(QmdlFile(name)), Remove(AnalysisFile(name))]
  }

  lemma RemovingRemoves(before: Files, name: Name, after: Files, done: bool)
    requires Progress(before, RemoveOps(name), after, done)
    ensures after.Keys <= before.Keys
    ensures done ==> NoFiles(after, name)
  {
    if done {
      CrashInRemoves(before, name, 2, 0);
    } else {
      var k: nat, torn: nat :| k < 2 && after == CrashAt(before, RemoveOps(name), k, torn);
      CrashInRemoves(before, name, k, torn);
    }
  }

  /** The files of recordings are as before, but for some of those of these entries, which are gone. */
  ghost predicate OnlyRecordingsRemoved(before: Files, after: Files, entries: Entries) {
    forall path: Path | path.QmdlFile? || path.AnalysisFile? ::
      At(after, path) == At(before, path) || (Owned(entries, path) && At(after, path).None?)
  }

  lemma RemovingIsOnly(before: Files, now: Files, name: Name, after: Files, done: bool, entries: Entries)
    requires OnlyRecordingsRemoved(before, now, entries) && Listed(entries, name)
    requires Progress(now, RemoveOps(name), after, done)
    ensures OnlyRecordingsRemoved(before, after, entries)
  {
    var k: nat, torn: nat :| k <= 2 && after == CrashAt(now, RemoveOps(name), k, torn);
    CrashInRemoves(now, name, k, torn);
  }

  lemma WritingRemovesNothing(before: Files, now: Files, written: Entries, after: Files, done: bool, entries: Entries)
    requires OnlyRecordingsRemoved(before, now, entries) && Progress(now, WriteManifestOps(written), after, done)
    ensures OnlyRecordingsRemoved(before, after, entries)
  {
    WriteProgress(now, written, after, done);
    assert forall path | path != Manifest :: At(now[Manifest := Toml(written)], path) == At(now, path);
    assert forall path: Path | path.QmdlFile? || path.AnalysisFile? :: At(after, path) == At(now, path);
  }

  lemma {:induction false} RemoveAllAppend(a: Entries, b: Entries)
    ensures RemoveAllOps(a + b) == RemoveAllOps(a) + RemoveAllOps(b)
    decreases |a|
  {
    if a == [] {
      assert a + b == b;
    } else {
      TailOfConcat(a, b);
      RemoveAllAppend(a[1..], b);
    }
  }

  lemma RemoveAllNext(entries: Entries, i: nat)
    requires i < |entries|
    ensures RemoveAllOps(entries[..i + 1]) == RemoveAllOps(entries[..i]) + RemoveOps(entries[i].name)
  {
    PrefixGrows(entries, i);
    RemoveAllAppend(entries[..i], [entries[i]]);
    assert [entries[i]][1..] == [];
    assert RemoveAllOps([]) == [];
  }

  /** Rewriting the manifest, even in part, touches no file of a recording. */
  lemma WritingKeepsFiles(before: Files, entries: Entries, after: Files, done: bool, name: Name)
    requires Progress(before, WriteManifestOps(entries), after, done) && NoFiles(before, name)
    ensures NoFiles(after, name)
  {
    var k: nat, torn: nat :| k <= 3 && after == CrashAt(before, WriteManifestOps(entries), k, torn);
    ManifestReplacedAtOnce(before, entries, k, torn);
    assert At(after, QmdlFile(name)) == At(before, QmdlFile(name));
    assert At(after, AnalysisFile(name)) == At(before, AnalysisFile(name));
  }

  lemma {:induction false} KeepNone(entries: Entries, keep: seq<bool>)
    requires |keep| == |entries| && true !in keep
    ensures Retained(entries, keep) == []
  {
    if entries == [] {
    } else {
      assert keep[0] in keep;
      assert forall k | k in keep[1..] :: k in keep;
      KeepNone(entries[1..], keep[1..]);
    }
  }

  lemma ListedInTail(entries: Entries, name: Name)
    requires entries != []
    ensures Listed(entries, name) <==> entries[0].name == name || Listed(entries[1..], name)
  {
    var rest := entries[1..];
    if Listed(rest, name) {
      var i :| 0 <= i < |rest| && rest[i].name == name;
      assert entries[i + 1].name == name;
    }
    if Listed(entries, name) && entries[0].name != name {
      var i :| 0 <= i < |entries| && entries[i].name == name;
      assert rest[i - 1].name == name;
    }
  }

  lemma DistinctTail(entries: Entries)
    requires entries != []
    ensures Distinct(entries) <==> Distinct(entries[1..]) && !Listed(entries[1..], entries[0].name)
  {
    var rest := entries[1..];
    assert forall i | 0 <= i < |rest| :: rest[i] == entries[i + 1];
    assert forall i | 1 <= i < |entries| :: entries[i] == rest[i - 1];
  }

  lemma {:induction false} RetainedListed(entries: Entries, keep: seq<bool>, name: Name)
    requires |keep| == |entries| && Listed(Retained(entries, keep), name)
    ensures Listed(entries, name)
    decreases |entries|
  {
    if entries == [] {
    } else {
      var kept := Retained(entries[1..], keep[1..]);
      ListedInTail(entries, name);
      if keep[0] {
        assert ([entries[0]] + kept)[1..] == kept;
        ListedInTail([entries[0]] + kept, name);
      } else {
        assert [] + kept == kept;
      }
      if Listed(kept, name) {
        RetainedListed(entries[1..], keep[1..], name);
      }
    }
  }

  lemma {:induction false} RetainedDistinct(entries: Entries, keep: seq<bool>)
    requires |keep| == |entries|
    ensures |Retained(entries, keep)| <= |entries| && (Retained(entries, keep) == [] ==> true !in keep)
    ensures Distinct(entries) ==> Distinct(Retained(entries, keep))
    decreases |entries|
  {
    if entries == [] {
    } else {
      var rest, kept := entries[1..], Retained(entries[1..], keep[1..]);
      RetainedDistinct(rest, keep[1..]);
      assert keep == [keep[0]] + keep[1..];
      if Listed(kept, entries[0].name) {
        RetainedListed(rest, keep[1..], entries[0].name);
      }
      DistinctTail(entries);
      if keep[0] {
        assert ([entries[0]] + kept)[1..] == kept;
        DistinctTail([entries[0]] + kept);
      } else {
        assert [] + kept == kept;
      }
    }
  }

  lemma RestDistinct(entries: Entries, i: nat)
    requires Distinct(entries) && i < |entries|
    ensures Distinct(Without(entries, i)) && !Listed(Without(entries, i), entries[i].name)
  {
    var rest := Without(entries, i);
    assert forall j | 0 <= j < |rest| :: rest[j] == entries[if j < i then j else j + 1];
  }

  /** However far the files of a new name are created, the disk stays consistent and backs what it backed. */
  lemma CreatingIsSound(before: Files, entries: Entries, name: Name, after: Files, done: bool)
    requires Consistent(before) && Backed(before, entries) && Distinct(entries)
    requires !Listed(entries, name) && !Listed(ManifestOf(before), name)
    requires Progress(before, [Create(QmdlFile(name)), Create(AnalysisFile(name))], after, done)
    ensures Consistent(after) && Backed(after, entries)
    ensures done ==> Backed(after, entries + [ManifestEntry(name, 0)]) && Distinct(entries + [ManifestEntry(name, 0)])
  {
    var creates := [Create(QmdlFile(name)), Create(AnalysisFile(name))];
    var created := before[QmdlFile(name) := Recording([])];
    var both := created[AnalysisFile(name) := Report([])];
    var k: nat, torn: nat :| k <= 2 && after == CrashAt(before, creates, k, torn) && (done ==> k == 2);
    assert creates[1..] == [Create(AnalysisFile(name))] && creates[1..][1..] == [];
    assert k > 0 ==> CrashAt(before, creates, k, torn) == CrashAt(created, creates[1..], k - 1, torn);
    assert k > 1 ==> CrashAt(created, creates[1..], 1, torn) == CrashAt(both, [], 0, torn);
    CreatedBacksIff(before, ManifestOf(before), name);
    CreatedBacksIff(before, entries, name);
    if done {
      OpenedSound(both, entries, name);
    }
  }

  lemma OpenedSound(files: Files, entries: Entries, name: Name)
    requires Backed(files, entries) && Distinct(entries) && !Listed(entries, name)
    requires At(files, QmdlFile(name)) == Some(Recording([])) && At(files, AnalysisFile(name)).Some?
    ensures var more := entries + [ManifestEntry(name, 0)]; Backed(files, more) && Distinct(more)
  {
    var more := entries + [ManifestEntry(name, 0)];
    forall i | 0 <= i < |more|
      ensures IsBacked(files, more[i]) && (i < |entries| ==> more[i].name != name)
    {
      assert i < |entries| ==> more[i] == entries[i];
    }
  }

  lemma ResizingIsSound(files: Files, s: Store, i: nat, size: nat)
    requires Backed(files, s.entries) && Distinct(s.entries) && i < |s.entries|
    requires size <= |files[QmdlFile(s.entries[i].name)].bytes|
    ensures Backed(files, Resized(s, i, size).entries) && Distinct(Resized(s, i, size).entries)
  {
    var after := Resized(s, i, size).entries;
    assert IsBacked(files, s.entries[i]);
    forall j | 0 <= j < |after|
      ensures IsBacked(files, after[j]) && after[j].name == s.entries[j].name
    {
      assert IsBacked(files, s.entries[j]);
    }
  }

  lemma RemovingIsSound(before: Files, entries: Entries, name: Name, after: Files, done: bool)
    requires Consistent(before) && ManifestOf(before) == entries && !Listed(entries, name)
    requires Progress(before, RemoveOps(name), after, done)
    ensures Consistent(after) && Backed(after, entries)
  {
    RemoveProgress(before, name, entries, after, done);
    var k: nat, torn: nat :| k <= 2 && after == CrashAt(before, RemoveOps(name), k, torn);
    CrashInRemoves(before, name, k, torn);
    assert At(after, Manifest) == At(before, Manifest);
  }

  // ---- What becomes of the files of recordings ----

  /** The files of every other name are as before. */
  ghost predicate OthersKept(before: Files, after: Files, name: Name) {
    forall other | other != name :: SameFilesOf(before, after, other)
  }

  lemma KeptTwice(before: Files, between: Files, after: Files, name: Name)
    requires OthersKept(before, between, name) && OthersKept(between, after, name)
    ensures OthersKept(before, after, name)
  {
    forall other | other != name
      ensures SameFilesOf(before, after, other)
    {
      assert SameFilesOf(before, between, other) && SameFilesOf(between, after, other);
    }
  }

  lemma WritingKeepsRecordings(before: Files, entries: Entries, after: Files, done: bool)
    requires Progress(before, WriteManifestOps(entries), after, done)
    ensures forall name :: SameFilesOf(before, after, name)
    ensures done ==> At(after, Manifest) == Some(Toml(entries))
  {
    WriteProgress(before, entries, after, done);
    assert At(before[Manifest := Toml(entries)], Manifest) == Some(Toml(entries));
    forall name
      ensures SameFilesOf(before, after, name)
    {
      assert At(before[Manifest := Toml(entries)], QmdlFile(name)) == At(before, QmdlFile(name));
      assert At(before[Manifest := Toml(entries)], AnalysisFile(name)) == At(before, AnalysisFile(name));
    }
  }

  /** The new files are empty, and other recordings keep theirs. */
  lemma CreatingMakesEmpty(before: Files, name: Name, after: Files, done: bool)
    requires Progress(before, [Create(QmdlFile(name)), Create(AnalysisFile(name))], after, done)
    ensures OthersKept(before, after, name)
    ensures done ==>
              At(after, QmdlFile(name)) == Some(Recording([])) && At(after, AnalysisFile(name)) == Some(Report([]))
  {
    var creates := [Create(QmdlFile(name)), Create(AnalysisFile(name))];
    var created := before[QmdlFile(name) := Recording([])];
    var both := created[AnalysisFile(name) := Report([])];
    var k: nat, torn: nat :| k <= 2 && after == CrashAt(before, creates, k, torn) && (done ==> k == 2);
    assert creates[1..] == [Create(AnalysisFile(name))] && creates[1..][1..] == [];
    assert k > 0 ==> CrashAt(before, creates, k, torn) == CrashAt(created, creates[1..], k - 1, torn);
    assert k > 1 ==> CrashAt(created, creates[1..], 1, torn) == CrashAt(both, [], 0, torn);
  }

  /** Both files of the name go, and other recordings keep theirs. */
  lemma RemovingKeepsOthers(before: Files, name: Name, after: Files, done: bool)
    requires Progress(before, RemoveOps(name), after, done)
    ensures OthersKept(before, after, name)
    ensures done ==> NoFiles(after, name)
    ensures At(after, Manifest) == At(before, Manifest)
  {
    var k: nat, torn: nat :| k <= 2 && after == CrashAt(before, RemoveOps(name), k, torn) && (done ==> k == 2);
    CrashInRemoves(before, name, k, torn);
  }

  // ---- A disk that lists only certain names ----

  predicate NamesIn(entries: Entries, names: set<Name>) {
    forall i | 0 <= i < |entries| :: entries[i].name in names
  }

  predicate ListsOnly(files: Files, names: set<Name>) {
    HasManifest(files) && NamesIn(ManifestOf(files), names)
  }

  lemma OldOrNewLists(before: Files, after: Files, entries: Entries, names: set<Name>)
    requires OldOrNew(before, after, entries) && ListsOnly(before, names) && NamesIn(entries, names)
    ensures ListsOnly(after, names)
  {
  }

  lemma WritingLists(before: Files, entries: Entries, after: Files, done: bool, names: set<Name>)
    requires Progress(before, WriteManifestOps(entries), after, done)
    requires ListsOnly(before, names) && NamesIn(entries, names)
    ensures ListsOnly(after, names)
  {
    WriteProgress(before, entries, after, done);
    assert At(before[Manifest := Toml(entries)], Manifest) == Some(Toml(entries));
    OldOrNewLists(before, after, entries, names);
  }

  lemma OpeningLists(before: Files, name: Name, entries: Entries, after: Files, done: bool, names: set<Name>)
    requires Progress(before, NewEntryOps(name, entries), after, done)
    requires ListsOnly(before, names) && NamesIn(entries, names)
    ensures ListsOnly(after, names)
  {
    var ops := NewEntryOps(name, entries);
    var k: nat, torn: nat :| k <= |ops| && after == CrashAt(before, ops, k, torn);
    NewEntryManifest(before, name, entries, k, torn);
    OldOrNewLists(before, after, entries, names);
  }

  lemma DeletingLists(before: Files, entries: Entries, i: nat, name: Name, after: Files, done: bool, names: set<Name>)
    requires i < |entries| && Progress(before, DeleteEntryOps(name, Without(entries, i)), after, done)
    requires ListsOnly(before, names) && NamesIn(entries, names)
    ensures NamesIn(Without(entries, i), names) && ListsOnly(after, names)
  {
    var rest := Without(entries, i);
    var ops := DeleteEntryOps(name, rest);
    assert forall j | 0 <= j < |rest| :: rest[j] == entries[if j < i then j else j + 1];
    var k: nat, torn: nat :| k <= |ops| && after == CrashAt(before, ops, k, torn);
    DeleteEntryManifest(before, name, rest, k, torn);
    OldOrNewLists(before, after, rest, names);
  }

  /**
   The disk is consistent, it backs the entries in memory, too, no two of these share a name, and all
   names in memory and on disk are among the given ones.
   */
  predicate SafeOn(files: Files, entries: Entries, names: set<Name>) {
    && Consistent(files) && Backed(files, entries) && Distinct(entries)
    && NamesIn(entries, names) && ListsOnly(files, names)
  }

  /** A recording or a report that grows takes nothing from the entries and leaves the manifest alone. */
  lemma GrowingIsSafe(files: Files, entries: Entries, names: set<Name>, path: Path, bytes: seq<byte>,
                      rows: seq<AnalysisRow>)
    requires SafeOn(files, entries, names)
    ensures path.QmdlFile? ==> SafeOn(Appended(files, path, bytes), entries, names)
    ensures path.AnalysisFile? ==> SafeOn(AppendedRows(files, path, rows), entries, names)
  {
    GrownBacks(files, path, entries, bytes, rows);
    GrownBacks(files, path, ManifestOf(files), bytes, rows);
  }

  /** So does the manifest with the size of an entry that was written to. */
  lemma ResizingIsSafe(files: Files, s: Store, i: nat, bytes: seq<byte>, size: nat, names: set<Name>, after: Files,
                       done: bool)
    requires SafeOn(files, s.entries, names) && i < |s.entries| && size <= s.entries[i].qmdlSizeBytes + |bytes|
    requires Progress(Appended(files, QmdlFile(s.entries[i].name), bytes),
                      WriteManifestOps(Resized(s, i, size).entries), after, done)
    ensures SafeOn(after, Resized(s, i, size).entries, names)
  {
    var path, entries := QmdlFile(s.entries[i].name), Resized(s, i, size).entries;
    var appended := Appended(files, path, bytes);
    GrowingIsSafe(files, s.entries, names, path, bytes, []);
    assert IsBacked(files, s.entries[i]);
    ResizingIsSound(appended, s, i, size);
    assert NamesIn(entries, names);
    WriteProgress(appended, entries, after, done);
    WriteManifestSafeIff(appended, entries);
    ProgressSafe(appended, WriteManifestOps(entries), after, done);
    WritingLists(appended, entries, after, done, names);
  }

  class RecordingStore {
    const disk: Disk
    var entries: Entries
    var currentEntry: Option<nat>

    ghost function Model(): Store
      reads this
    {
      Store(entries, currentEntry)
    }

    /** The disk is consistent, it backs the entries in memory, too, and no two of these share a name. */
    ghost predicate Sound()
      reads this, disk
    {
      Consistent(disk.files) && Backed(disk.files, entries) && Distinct(entries)
    }

    constructor (disk: Disk, entries: Entries)
      ensures this.disk == disk && Model() == Store(entries, None)
    {
      this.disk := disk;
      this.entries := entries;
      currentEntry := None;
    }

    method WriteManifest() returns (r: Result<(), StoreError>)
      modifies disk
      ensures r.Ok? || r == Err(WriteManifestError)
      ensures Progress(old(disk.files), WriteManifestOps(entries), disk.files, r.Ok?)
      ensures disk.NeverFails() ==> r.Ok?
      ensures r.Ok? ==> At(disk.files, Manifest) == Some(Toml(entries))
      ensures forall name :: SameFilesOf(old(disk.files), disk.files, name)
      ensures old(Sound()) ==> Sound()
    {
      WriteManifestFeasible(disk.files, entries);
      ghost var before := disk.files;
      var ok := PerformAll(disk, WriteManifestOps(entries));
      r := if ok then Ok(()) else Err(WriteManifestError);
      WriteProgress(before, entries, disk.files, ok);
      WritingKeepsRecordings(before, entries, disk.files, ok);
      if old(Sound()) {
        WriteManifestSafeIff(before, entries);
        ProgressSafe(before, WriteManifestOps(entries), disk.files, ok);
      }
    }

    method CloseCurrentEntry() returns (r: Result<(), StoreError>)
      modifies this`currentEntry
      ensures r == if old(currentEntry).Some? then Ok(()) else Err(NoCurrentEntry)
      ensures Model() == old(Model()).(current := None)
    {
      if currentEntry.None? {
        return Err(NoCurrentEntry);
      }
      currentEntry := None;
      r := Ok(());
    }

    /** Closes the current entry, if any, and opens one of that name with empty files. */
    method NewEntry(name: Name) returns (r: Result<(), StoreError>)
      modifies this, disk
      ensures Progress(old(disk.files), NewEntryOps(name, Opened(old(Model()), name).entries), disk.files, r.Ok?)
      ensures r.Ok? || r == Err(WriteManifestError) ==> Model() == Opened(old(Model()), name)
      ensures r.Err? && r.error != WriteManifestError ==> Model() == old(Model()).(current := None)
      ensures r.Ok? ==>
                && At(disk.files, QmdlFile(name)) == Some(Recording([]))
                && At(disk.files, AnalysisFile(name)) == Some(Report([]))
                && At(disk.files, Manifest) == Some(Toml(old(entries) + [ManifestEntry(name, 0)]))
                && Model() == Store(old(entries) + [ManifestEntry(name, 0)], Some(|old(entries)|))
      ensures OthersKept(old(disk.files), disk.files, name)
      ensures disk.NeverFails() ==> r.Ok?
      ensures old(Sound()) && !Listed(old(entries), name) && !Listed(ManifestOf(old(disk.files)), name) ==> Sound()
    {
      if currentEntry.Some? {
        var _ := CloseCurrentEntry();
      }
      ghost var before := disk.files;
      ghost var write := WriteManifestOps(entries + [ManifestEntry(name, 0)]);
      var creates := [Create(QmdlFile(name)), Create(AnalysisFile(name))];
      var ok := PerformAll(disk, creates);
      if old(Sound()) && !Listed(old(entries), name) && !Listed(ManifestOf(before), name) {
        CreatingIsSound(before, entries, name, disk.files, ok);
      }
      CreatingMakesEmpty(before, name, disk.files, ok);
      if !ok {
        ProgressCut(before, creates, write, disk.files);
        return Err(FileError);
      }
      entries := entries + [ManifestEntry(name, 0)];
      currentEntry := Some(|entries| - 1);
      ghost var created := disk.files;
      r := WriteManifest();
      assert SameFilesOf(created, disk.files, name);
      KeptTwice(before, created, disk.files, name);
      ProgressThen(before, creates, write, disk.files, r.Ok?);
    }

    /** Takes the new size of an entry and rewrites the manifest; an index out of range is the caller's error. */
    method UpdateEntryQmdlSize(i: nat, size: nat) returns (r: Result<(), StoreError>)
      requires i < |entries|
      modifies this`entries, disk
      ensures Model() == Resized(old(Model()), i, size)
      ensures entries == old(entries)[i := ManifestEntry(old(entries)[i].name, size)]
      ensures r.Ok? ==> At(disk.files, Manifest) == Some(Toml(entries))
      ensures forall name :: SameFilesOf(old(disk.files), disk.files, name)
      ensures Progress(old(disk.files), WriteManifestOps(entries), disk.files, r.Ok?)
      ensures disk.NeverFails() ==> r.Ok?
      ensures old(Sound()) && size <= |old(disk.files)[QmdlFile(entries[i].name)].bytes| ==> Sound()
    {
      if Sound() && size <= |disk.files[QmdlFile(entries[i].name)].bytes| {
        ResizingIsSound(disk.files, Model(), i, size);
      }
      entries := entries[i := ManifestEntry(entries[i].name, size)];
      r := WriteManifest();
    }

    predicate IsCurrentEntry(name: Name)
      reads this
    {
      currentEntry.Some? && currentEntry.value < |entries| && entries[currentEntry.value].name == name
    }

    /** Closes entry i if it is current; otherwise moves the current index down by one. */
    method LeaveEntry(i: nat)
      requires i < |entries|
      modifies this`currentEntry
      ensures currentEntry == Deleted(old(Model()), i).current
    {
      match currentEntry {
        case Some(c) =>
          if c == i {
            var _ := CloseCurrentEntry();
          } else {
            currentEntry := Some((c + USIZE_VALUES - 1) % USIZE_VALUES);
          }
        case None =>
      }
    }

    method RemoveEntryFiles(name: Name) returns (ok: bool)
      modifies disk
      ensures Progress(old(disk.files), RemoveOps(name), disk.files, ok)
      ensures disk.NeverFails() ==> ok
      ensures ok ==> NoFiles(disk.files, name)
      ensures At(disk.files, Manifest) == At(old(disk.files), Manifest)
      ensures OthersKept(old(disk.files), disk.files, name)
      ensures old(Sound()) && At(old(disk.files), Manifest) == Some(Toml(entries)) && !Listed(entries, name) ==> Sound()
    {
      ghost var before := disk.files;
      ok := PerformAll(disk, RemoveOps(name));
      RemovingKeepsOthers(before, name, disk.files, ok);
      if old(Sound()) && At(before, Manifest) == Some(Toml(entries)) && !Listed(entries, name) {
        RemovingIsSound(before, entries, name, disk.files, ok);
      }
    }

    /** Forgets the first entry of that name, then removes its files. */
    method DeleteEntry(name: Name) returns (r: Result<(), StoreError>)
      modifies this, disk
      ensures r == Err(NoSuchEntry) <==> PositionOf(old(entries), name).None?
      ensures r == Err(NoSuchEntry) ==> Model() == old(Model()) && disk.files == old(disk.files)
      ensures r != Err(NoSuchEntry) ==>
                && Model() == Deleted(old(Model()), PositionOf(old(entries), name).value)
                && Progress(old(disk.files), DeleteEntryOps(name, entries), disk.files, r.Ok?)
                && (disk.NeverFails() ==> r.Ok?)
      ensures r.Ok? ==> NoFiles(disk.files, name) && At(disk.files, Manifest) == Some(Toml(entries))
      ensures OthersKept(old(disk.files), disk.files, name)
      ensures old(Sound()) ==> Sound()
    {
      var position := PositionOf(entries, name);
      if position.None? {
        return Err(NoSuchEntry);
      }
      var i := position.value;
      LeaveEntry(i);
      if Sound() {
        RestBacked(disk.files, entries, i);
        RestDistinct(entries, i);
      }
      entries := Without(entries, i);
      ghost var before := disk.files;
      ghost var write := WriteManifestOps(entries);
      ghost var removes := RemoveOps(name);
      r := WriteManifest();
      ghost var written := disk.files;
      if r.Err? {
        ProgressCut(before, write, removes, disk.files);
        return;
      }
      var ok := RemoveEntryFiles(name);
      ProgressThen(before, write, removes, disk.files, ok);
      KeptTwice(before, written, disk.files, name);
      r := if ok then Ok(()) else Err(FileError);
    }

    /** Removes the files of every entry and forgets the entries, except those whose removal fails. */
    method DeleteAllEntries() returns (r: Result<(), StoreError>, ghost keep: seq<bool>)
      modifies this, disk
      ensures currentEntry == None && |keep| == |old(entries)| && entries == Retained(old(entries), keep)
      ensures forall i | 0 <= i < |keep| && !keep[i] :: NoFiles(disk.files, old(entries)[i].name)
      ensures OnlyRecordingsRemoved(old(disk.files), disk.files, old(entries))
      ensures disk.NeverFails() ==> r.Ok? && true !in keep
      ensures true !in keep ==>
                entries == [] && Progress(old(disk.files), DeleteAllOps(old(entries)), disk.files, r.Ok?)
    {
      if currentEntry.Some? {
        var _ := CloseCurrentEntry();
      }
      ghost var before := disk.files;
      var marks := [];
      for i := 0 to |entries|
        modifies disk
        invariant |marks| == i && (disk.NeverFails() ==> true !in marks)
        invariant forall j | 0 <= j < i && !marks[j] :: NoFiles(disk.files, entries[j].name)
        invariant OnlyRecordingsRemoved(before, disk.files, entries)
        invariant true !in marks ==> Progress(before, RemoveAllOps(entries[..i]), disk.files, true)
      {
        var name := entries[i].name;
        ghost var now := disk.files;
        var ok := PerformAll(disk, RemoveOps(name));
        RemovingRemoves(now, name, disk.files, ok);
        RemovingIsOnly(before, now, name, disk.files, ok, entries);
        RemoveAllNext(entries, i);
        if ok && true !in marks {
          ProgressThen(before, RemoveAllOps(entries[..i]), RemoveOps(name), disk.files, true);
        }
        marks := marks + [!ok];
      }
      WholeSlice(entries);
      keep := marks;
      if true !in marks {
        KeepNone(entries, marks);
      }
      ghost var all, removed := entries, disk.files;
      entries := Retained(entries, marks);
      r := WriteManifest();
      WritingRemovesNothing(before, removed, entries, disk.files, r.Ok?, all);
      forall i | 0 <= i < |keep| && !keep[i]
        ensures NoFiles(disk.files, all[i].name)
      {
        WritingKeepsFiles(removed, entries, disk.files, r.Ok?, all[i].name);
      }
      if true !in marks {
        ProgressThen(before, RemoveAllOps(all), WriteManifestOps([]), disk.files, r.Ok?);
      }
    }
  }
}
