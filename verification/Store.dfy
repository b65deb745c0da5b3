/** The recording store: a manifest in memory and on disk, and the files of its recordings. */
module Store {
  import opened Wrappers
  import opened Bytes
  import opened Seqs
  import opened Disks
  import opened Harness

  type Entries = seq<ManifestEntry>

  datatype StoreError = NoCurrentEntry | NoSuchEntry | FileError | WriteManifestError

  // ---- The store in memory ----

  datatype Store = Store(entries: Entries, current: Option<nat>)

  /** Index arithmetic wraps at the width of the device's addresses. */
  const USIZE_VALUES: nat := 0x1_0000_0000

  predicate Distinct(entries: Entries) {
    forall i, j | 0 <= i < j < |entries| :: entries[i].name != entries[j].name
  }

  predicate Listed(entries: Entries, name: Name) {
    exists i :: 0 <= i < |entries| && entries[i].name == name
  }

  /** The first entry of that name. */
  function PositionOf(entries: Entries, name: Name): (r: Option<nat>)
    ensures r.Some? ==> r.value < |entries| && entries[r.value].name == name
  {
    if entries == [] then None
    else if entries[0].name == name then Some(0)
    else
      var i :- PositionOf(entries[1..], name);
      Some(i + 1)
  }

  lemma {:induction false} PositionFound(entries: Entries, name: Name)
    ensures PositionOf(entries, name).Some? <==> Listed(entries, name)
    ensures PositionOf(entries, name).Some? ==>
              forall i | 0 <= i < PositionOf(entries, name).value :: entries[i].name != name
  {
    if entries == [] {
    } else {
      PositionFound(entries[1..], name);
      if Listed(entries, name) && entries[0].name != name {
        var i :| 0 <= i < |entries| && entries[i].name == name;
        assert entries[1..][i - 1].name == name;
      }
      if Listed(entries[1..], name) {
        var i :| 0 <= i < |entries[1..]| && entries[1..][i].name == name;
        assert entries[i + 1].name == name;
      }
    }
  }

  function Without(entries: Entries, i: nat): (r: Entries)
    requires i < |entries|
    ensures |r| == |entries| - 1
  {
    entries[..i] + entries[i + 1..]
  }

  function Opened(s: Store, name: Name): Store {
    Store(s.entries + [ManifestEntry(name, 0)], Some(|s.entries|))
  }

  /** Deleting the current entry closes it; deleting any other moves the current index down by one. */
  function Deleted(s: Store, i: nat): Store
    requires i < |s.entries|
  {
    var current :=
      if s.current == Some(i) then None
      else if s.current.Some? then Some((s.current.value + USIZE_VALUES - 1) % USIZE_VALUES)
      else None;
    Store(Without(s.entries, i), current)
  }

  function Resized(s: Store, i: nat, size: nat): Store
    requires i < |s.entries|
  {
    Store(s.entries[i := ManifestEntry(s.entries[i].name, size)], s.current)
  }

  lemma SameSize(s: Store, i: nat, size: nat, other: nat)
    requires i < |s.entries| && size == other
    ensures Resized(s, i, size) == Resized(s, i, other)
  {
  }

  function CurrentEntry(s: Store): Option<ManifestEntry> {
    if s.current.Some? && s.current.value < |s.entries| then Some(s.entries[s.current.value]) else None
  }

  /** Deleting another entry keeps the same recording current exactly when that entry came before it. */
  lemma KeepsCurrentIff(s: Store, i: nat)
    requires Distinct(s.entries) && |s.entries| <= USIZE_VALUES
    requires s.current.Some? && s.current.value < |s.entries| && i < |s.entries| && i != s.current.value
    ensures CurrentEntry(Deleted(s, i)) == CurrentEntry(s) <==> i < s.current.value
  {
    var c := s.current.value;
    if i < c {
      assert Without(s.entries, i)[c - 1] == s.entries[c];
    } else if c > 0 {
      assert Without(s.entries, i)[c - 1] == s.entries[c - 1];
    }
  }

  /** Deleting a later entry makes another one current, or leaves an index at which there is none. */
  lemma LosesCurrent()
    ensures var a, b, c := ManifestEntry("a", 0), ManifestEntry("b", 0), ManifestEntry("c", 0);
            && CurrentEntry(Deleted(Store([a, b, c], Some(1)), 2)) == Some(a)
            && Deleted(Store([a, b, c], Some(0)), 2) == Store([a, b], Some(USIZE_VALUES - 1))
  {
    var a, b, c := ManifestEntry("a", 0), ManifestEntry("b", 0), ManifestEntry("c", 0);
    assert Without([a, b, c], 2) == [a, b];
  }

  // ---- What the store does to the disk ----

  function WriteManifestOps(entries: Entries): seq<Op> {
    [Create(ManifestTmp), Save(ManifestTmp, entries), Rename(ManifestTmp, Manifest)]
  }

  function NewEntryOps(name: Name, entries: Entries): seq<Op> {
    [Create(QmdlFile(name)), Create(AnalysisFile(name))] + WriteManifestOps(entries)
  }

  function DeleteEntryOps(name: Name, rest: Entries): seq<Op> {
    WriteManifestOps(rest) + [Remove(QmdlFile(name)), Remove(AnalysisFile(name))]
  }

  function RemoveAllOps(entries: Entries): seq<Op> {
    if entries == [] then []
    else [Remove(QmdlFile(entries[0].name)), Remove(AnalysisFile(entries[0].name))] + RemoveAllOps(entries[1..])
  }

  function DeleteAllOps(entries: Entries): seq<Op> {
    RemoveAllOps(entries) + WriteManifestOps([])
  }

  /** The disk when the first k operations have been done and the next one, if any, fails or never happens. */
  function CrashAt(files: Files, ops: seq<Op>, k: nat, torn: nat): Files
    requires k <= |ops|
    decreases k
  {
    if ops == [] then files
    else if k == 0 then Broken(files, ops[0], torn)
    else CrashAt(Apply(files, ops[0]), ops[1..], k - 1, torn)
  }

  function AfterOps(files: Files, ops: seq<Op>): Files {
    CrashAt(files, ops, |ops|, 0)
  }

  lemma {:induction false} CrashLater(files: Files, a: seq<Op>, b: seq<Op>, k: nat, torn: nat)
    requires k <= |b|
    ensures CrashAt(files, a + b, |a| + k, torn) == CrashAt(AfterOps(files, a), b, k, torn)
    decreases |a|
  {
    if a == [] {
      assert a + b == b;
    } else {
      TailOfConcat(a, b);
      CrashLater(Apply(files, a[0]), a[1..], b, k, torn);
    }
  }

  lemma {:induction false} CrashEarlier(files: Files, a: seq<Op>, b: seq<Op>, k: nat, torn: nat)
    requires k < |a|
    ensures CrashAt(files, a + b, k, torn) == CrashAt(files, a, k, torn)
    decreases |a|
  {
    TailOfConcat(a, b);
    if k == 0 {
    } else {
      CrashEarlier(Apply(files, a[0]), a[1..], b, k - 1, torn);
    }
  }

  // ---- Consistency ----

  function At(files: Files, path: Path): Option<File> {
    if path in files then Some(files[path]) else None
  }

  predicate SameFilesOf(before: Files, after: Files, name: Name) {
    && At(after, QmdlFile(name)) == At(before, QmdlFile(name))
    && At(after, AnalysisFile(name)) == At(before, AnalysisFile(name))
  }

  predicate NoFiles(files: Files, name: Name) {
    QmdlFile(name) !in files && AnalysisFile(name) !in files
  }

  /** A listed recording has both files, and its file is at least as long as listed. */
  predicate IsBacked(files: Files, e: ManifestEntry) {
    && At(files, QmdlFile(e.name)).Some? && At(files, QmdlFile(e.name)).value.Recording?
    && e.qmdlSizeBytes <= |At(files, QmdlFile(e.name)).value.bytes|
    && At(files, AnalysisFile(e.name)).Some?
  }

  predicate Backed(files: Files, entries: Entries) {
    forall i | 0 <= i < |entries| :: IsBacked(files, entries[i])
  }

  predicate HasManifest(files: Files) {
    At(files, Manifest).Some? && At(files, Manifest).value.Toml?
  }

  function ManifestOf(files: Files): Entries
    requires HasManifest(files)
  {
    files[Manifest].entries
  }

  predicate Consistent(files: Files) {
    HasManifest(files) && Backed(files, ManifestOf(files))
  }

  /** Wherever the operations are cut short, what is on disk is consistent. */
  ghost predicate CrashSafe(files: Files, ops: seq<Op>) {
    forall k: nat, torn: nat | k <= |ops| :: Consistent(CrashAt(files, ops, k, torn))
  }

  /** Equal but for the manifest's temporary file. */
  ghost predicate SameRecords(a: Files, b: Files) {
    forall path :: path == ManifestTmp || At(a, path) == At(b, path)
  }

  lemma SameRecordsConsistent(a: Files, b: Files)
    requires SameRecords(a, b)
    ensures Consistent(a) <==> Consistent(b)
    ensures forall entries: Entries :: Backed(a, entries) <==> Backed(b, entries)
  {
    forall entries: Entries
      ensures Backed(a, entries) <==> Backed(b, entries)
    {
      forall i | 0 <= i < |entries|
        ensures IsBacked(a, entries[i]) <==> IsBacked(b, entries[i])
      {
        assert At(a, QmdlFile(entries[i].name)) == At(b, QmdlFile(entries[i].name));
      }
    }
    assert At(a, Manifest) == At(b, Manifest);
  }

  /** The manifest is replaced in one step: on disk it is wholly the old one or wholly the new one. */
  lemma ManifestReplacedAtOnce(files: Files, entries: Entries, k: nat, torn: nat)
    requires k <= 3
    ensures SameRecords(CrashAt(files, WriteManifestOps(entries), k, torn),
                  if k < 3 then files else files[Manifest := Toml(entries)])
  {
    var ops := WriteManifestOps(entries);
    var save := [Save(ManifestTmp, entries), Rename(ManifestTmp, Manifest)];
    assert ops[1..] == save && save[1..] == [Rename(ManifestTmp, Manifest)] && save[1..][1..] == [];
    var created := Apply(files, ops[0]);
    var saved := Apply(created, save[0]);
    if k == 1 {
      assert CrashAt(files, ops, k, torn) == CrashAt(created, save, 0, torn);
    } else if k > 1 {
      assert CrashAt(files, ops, k, torn) == CrashAt(created, save, k - 1, torn);
      assert CrashAt(created, save, k - 1, torn) == CrashAt(saved, save[1..], k - 2, torn);
      assert k == 3 ==> CrashAt(saved, save[1..], 1, torn) == Apply(saved, save[1]);
    }
  }

  // ---- Which operations are safe against crashes ----

  /** Rewriting the manifest is safe exactly when the disk backs every entry of the new one. */
  lemma WriteManifestSafeIff(files: Files, entries: Entries)
    requires Consistent(files)
    ensures CrashSafe(files, WriteManifestOps(entries)) <==> Backed(files, entries)
  {
    forall k: nat, torn: nat | k <= 3
      ensures Consistent(CrashAt(files, WriteManifestOps(entries), k, torn)) <==> k < 3 || Backed(files, entries)
    {
      ManifestReplacedAtOnce(files, entries, k, torn);
      var after := files[Manifest := Toml(entries)];
      SameRecordsConsistent(CrashAt(files, WriteManifestOps(entries), k, torn), if k < 3 then files else after);
      assert forall e :: IsBacked(after, e) <==> IsBacked(files, e);
    }
    assert Backed(files, entries) <==> Consistent(CrashAt(files, WriteManifestOps(entries), 3, 0));
  }

  /** Recording a size is safe exactly when the file is at least that long. */
  lemma UpdateSizeSafeIff(files: Files, s: Store, i: nat, size: nat)
    requires Consistent(files) && Backed(files, s.entries) && i < |s.entries|
    ensures CrashSafe(files, WriteManifestOps(Resized(s, i, size).entries))
       <==> size <= |files[QmdlFile(s.entries[i].name)].bytes|
  {
    WriteManifestSafeIff(files, Resized(s, i, size).entries);
    var after := Resized(s, i, size).entries;
    assert forall j | 0 <= j < |after| && j != i :: after[j] == s.entries[j] && IsBacked(files, s.entries[j]);
    assert IsBacked(files, s.entries[i]);
    assert Backed(files, after) <==> IsBacked(files, after[i]);
  }

  /** No entry of that name claims any bytes. */
  predicate Unclaimed(entries: Entries, name: Name) {
    forall i | 0 <= i < |entries| && entries[i].name == name :: entries[i].qmdlSizeBytes == 0
  }

  /** A file created anew still backs the entries exactly when none of them claims bytes of it. */
  lemma CreatedBacksIff(files: Files, entries: Entries, name: Name)
    requires Backed(files, entries)
    ensures Backed(files[QmdlFile(name) := Recording([])], entries) <==> Unclaimed(entries, name)
    ensures Backed(files[QmdlFile(name) := Recording([])][AnalysisFile(name) := Report([])], entries)
       <==> Unclaimed(entries, name)
  {
    var after := files[QmdlFile(name) := Recording([])];
    forall i | 0 <= i < |entries|
      ensures IsBacked(after, entries[i]) <==> (entries[i].name == name ==> entries[i].qmdlSizeBytes == 0)
      ensures IsBacked(after[AnalysisFile(name) := Report([])], entries[i]) <==> IsBacked(after, entries[i])
    {
      assert IsBacked(files, entries[i]);
    }
  }

  /** Opening a recording is safe exactly when no entry, on disk or in memory, claims bytes of that name. */
  lemma NewEntrySafeIff(files: Files, entries: Entries, name: Name)
    requires Consistent(files) && Backed(files, entries)
    ensures CrashSafe(files, NewEntryOps(name, entries + [ManifestEntry(name, 0)]))
       <==> Unclaimed(ManifestOf(files), name) && Unclaimed(entries, name)
  {
    var more := entries + [ManifestEntry(name, 0)];
    var creates, ops := [Create(QmdlFile(name)), Create(AnalysisFile(name))], NewEntryOps(name, more);
    var created := files[QmdlFile(name) := Recording([])];
    var both := created[AnalysisFile(name) := Report([])];
    CreatedBacksIff(files, ManifestOf(files), name);
    CreatedBacksIff(files, entries, name);
    assert creates[1..] == [Create(AnalysisFile(name))] && creates[1..][1..] == [];
    assert CrashAt(files, creates, 2, 0) == CrashAt(created, creates[1..], 1, 0);
    assert CrashAt(created, creates[1..], 1, 0) == CrashAt(both, [], 0, 0);
    assert Backed(both, more) <==> Backed(both, entries) by {
      assert IsBacked(both, more[|entries|]);
      assert forall i | 0 <= i < |entries| :: more[i] == entries[i];
    }
    forall k: nat, torn: nat | k <= 5
      ensures CrashAt(files, ops, k, torn)
           == if k == 0 then files else if k == 1 then created else CrashAt(both, WriteManifestOps(more), k - 2, torn)
    {
      if k < 2 {
        CrashEarlier(files, creates, WriteManifestOps(more), k, torn);
      } else {
        CrashLater(files, creates, WriteManifestOps(more), k - 2, torn);
      }
    }
    if Consistent(both) {
      WriteManifestSafeIff(both, more);
      assert forall k: nat, torn: nat | k <= 3 ::
          CrashAt(files, ops, k + 2, torn) == CrashAt(both, WriteManifestOps(more), k, torn);
    }
    assert Consistent(CrashAt(files, ops, 1, 0)) <==> Consistent(created);
  }

  /** Entries stay backed without the files of a name exactly when they do not list it. */
  lemma RemovedBacksIff(files: Files, entries: Entries, name: Name)
    requires Backed(files, entries)
    ensures Backed(files - {QmdlFile(name)}, entries) <==> !Listed(entries, name)
    ensures Backed(files - {QmdlFile(name)} - {AnalysisFile(name)}, entries) <==> !Listed(entries, name)
  {
    forall i | 0 <= i < |entries|
      ensures IsBacked(files - {QmdlFile(name)}, entries[i]) <==> entries[i].name != name
      ensures IsBacked(files - {QmdlFile(name)} - {AnalysisFile(name)}, entries[i]) <==> entries[i].name != name
    {
      assert IsBacked(files, entries[i]);
    }
  }

  lemma RestBacked(files: Files, entries: Entries, i: nat)
    requires Backed(files, entries) && i < |entries|
    ensures Backed(files, Without(entries, i))
  {
    forall j | 0 <= j < |entries| - 1
      ensures IsBacked(files, Without(entries, i)[j])
    {
      assert Without(entries, i)[j] == entries[if j < i then j else j + 1];
    }
  }

  /** Deleting an entry is safe exactly when no other entry has its name. */
  lemma DeleteEntrySafeIff(files: Files, entries: Entries, i: nat)
    requires Consistent(files) && Backed(files, entries) && i < |entries|
    ensures CrashSafe(files, DeleteEntryOps(entries[i].name, Without(entries, i)))
       <==> !Listed(Without(entries, i), entries[i].name)
  {
    var name, rest := entries[i].name, Without(entries, i);
    var write, ops := WriteManifestOps(rest), DeleteEntryOps(name, rest);
    var removes := [Remove(QmdlFile(name)), Remove(AnalysisFile(name))];
    var written := AfterOps(files, write);
    RestBacked(files, entries, i);
    WriteManifestSafeIff(files, rest);
    assert Consistent(CrashAt(files, write, 3, 0));
    ManifestReplacedAtOnce(files, rest, 3, 0);
    assert At(written, Manifest) == Some(Toml(rest));
    assert At(written - {QmdlFile(name)}, Manifest) == At(written, Manifest);
    assert At(written - {QmdlFile(name)} - {AnalysisFile(name)}, Manifest) == At(written, Manifest);
    RemovedBacksIff(written, rest, name);
    forall k: nat, torn: nat | k <= 5
      ensures Consistent(CrashAt(files, ops, k, torn)) <==> k <= 3 || !Listed(rest, name)
    {
      if k < 3 {
        CrashEarlier(files, write, removes, k, torn);
      } else {
        CrashLater(files, write, removes, k - 3, torn);
        CrashInRemoves(written, name, k - 3, torn);
      }
    }
    assert Consistent(CrashAt(files, ops, 4, 0)) <==> !Listed(rest, name);
  }

  lemma CrashInRemoves(files: Files, name: Name, k: nat, torn: nat)
    requires k <= 2
    ensures CrashAt(files, [Remove(QmdlFile(name)), Remove(AnalysisFile(name))], k, torn)
         == if k == 0 then files
            else if k == 1 then files - {QmdlFile(name)}
            else files - {QmdlFile(name)} - {AnalysisFile(name)}
  {
    var ops := [Remove(QmdlFile(name)), Remove(AnalysisFile(name))];
    var first := files - {QmdlFile(name)};
    assert ops[1..] == [Remove(AnalysisFile(name))] && ops[1..][1..] == [];
    if k > 0 {
      assert CrashAt(files, ops, k, torn) == CrashAt(first, ops[1..], k - 1, torn);
      assert k == 2 ==> CrashAt(first, ops[1..], 1, torn) == CrashAt(first - {AnalysisFile(name)}, [], 0, torn);
    }
  }

  predicate Owned(entries: Entries, path: Path) {
    (path.QmdlFile? || path.AnalysisFile?) && Listed(entries, path.name)
  }

  /** Between the two disks some files of these entries were removed, and nothing else happened. */
  ghost predicate OnlyRemoved(before: Files, after: Files, entries: Entries) {
    forall path :: At(after, path) == At(before, path) || (Owned(entries, path) && At(after, path).None?)
  }

  predicate NoFilesLeft(files: Files, entries: Entries) {
    forall i | 0 <= i < |entries| :: NoFiles(files, entries[i].name)
  }

  lemma {:induction false} RemoveAllRemoves(files: Files, entries: Entries, k: nat, torn: nat)
    requires k <= |RemoveAllOps(entries)|
    ensures OnlyRemoved(files, CrashAt(files, RemoveAllOps(entries), k, torn), entries)
    ensures k == |RemoveAllOps(entries)| ==> NoFilesLeft(CrashAt(files, RemoveAllOps(entries), k, torn), entries)
    decreases |entries|
  {
    if entries == [] {
    } else {
      var name, rest := entries[0].name, entries[1..];
      var pair := [Remove(QmdlFile(name)), Remove(AnalysisFile(name))];
      var after := CrashAt(files, RemoveAllOps(entries), k, torn);
      assert Listed(entries, name);
      CrashInRemoves(files, name, if k < 2 then k else 2, 0);
      if k < 2 {
        CrashEarlier(files, pair, RemoveAllOps(rest), k, torn);
        CrashInRemoves(files, name, k, torn);
      } else {
        var second := AfterOps(files, pair);
        CrashLater(files, pair, RemoveAllOps(rest), k - 2, torn);
        RemoveAllRemoves(second, rest, k - 2, torn);
        forall path
          ensures At(after, path) == At(files, path) || (Owned(entries, path) && At(after, path).None?)
        {
          assert At(after, path) == At(second, path) || (Owned(rest, path) && At(after, path).None?);
          if Owned(rest, path) {
            var i :| 0 <= i < |rest| && rest[i].name == path.name;
            assert entries[i + 1].name == path.name;
          }
        }
        forall i | 0 <= i < |entries| && k == |RemoveAllOps(entries)|
          ensures NoFiles(after, entries[i].name)
        {
          assert i > 0 ==> entries[i] == rest[i - 1];
          assert At(second, QmdlFile(name)).None? && At(second, AnalysisFile(name)).None?;
          assert At(after, QmdlFile(entries[i].name)).None? && At(after, AnalysisFile(entries[i].name)).None?;
        }
      }
    }
  }

  lemma UnlistedRemoved(before: Files, after: Files, entries: Entries)
    requires Consistent(before) && OnlyRemoved(before, after, entries)
    requires forall i | 0 <= i < |entries| :: !Listed(ManifestOf(before), entries[i].name)
    ensures Consistent(after)
  {
    var listed := ManifestOf(before);
    assert At(after, Manifest) == At(before, Manifest);
    forall j | 0 <= j < |listed|
      ensures IsBacked(after, listed[j])
    {
      assert IsBacked(before, listed[j]) && Listed(listed, listed[j].name);
      assert !Owned(entries, QmdlFile(listed[j].name)) && !Owned(entries, AnalysisFile(listed[j].name));
      assert At(after, QmdlFile(listed[j].name)) == At(before, QmdlFile(listed[j].name));
      assert At(after, AnalysisFile(listed[j].name)) == At(before, AnalysisFile(listed[j].name));
    }
  }

  /**
   Deleting everything removes files before it rewrites the manifest, so it is safe exactly when the
   manifest on disk lists none of the entries deleted.
   */
  lemma DeleteAllSafeIff(files: Files, entries: Entries)
    requires Consistent(files)
    ensures CrashSafe(files, DeleteAllOps(entries))
       <==> forall i | 0 <= i < |entries| :: !Listed(ManifestOf(files), entries[i].name)
  {
    var removes, write := RemoveAllOps(entries), WriteManifestOps([]);
    var n := |removes|;
    var removed := AfterOps(files, removes);
    RemoveAllRemoves(files, entries, n, 0);
    CrashLater(files, removes, write, 0, 0);
    assert CrashAt(files, DeleteAllOps(entries), n, 0) == removed;
    if forall i | 0 <= i < |entries| :: !Listed(ManifestOf(files), entries[i].name) {
      UnlistedRemoved(files, removed, entries);
      WriteManifestSafeIff(removed, []);
      forall k: nat, torn: nat | k <= |DeleteAllOps(entries)|
        ensures Consistent(CrashAt(files, DeleteAllOps(entries), k, torn))
      {
        if k < n {
          CrashEarlier(files, removes, write, k, torn);
          RemoveAllRemoves(files, entries, k, torn);
          UnlistedRemoved(files, CrashAt(files, removes, k, torn), entries);
        } else {
          CrashLater(files, removes, write, k - n, torn);
          assert Consistent(CrashAt(removed, write, k - n, torn));
        }
      }
    } else {
      var i :| 0 <= i < |entries| && Listed(ManifestOf(files), entries[i].name);
      DeletedButListed(files, removed, entries, i);
    }
  }

  lemma DeletedButListed(before: Files, after: Files, entries: Entries, i: nat)
    requires Consistent(before) && OnlyRemoved(before, after, entries) && NoFilesLeft(after, entries)
    requires i < |entries| && Listed(ManifestOf(before), entries[i].name)
    ensures !Consistent(after)
  {
    assert At(after, Manifest) == At(before, Manifest);
    var listed := ManifestOf(before);
    var j :| 0 <= j < |listed| && listed[j].name == entries[i].name;
    assert !IsBacked(after, listed[j]);
  }

  /** More bytes in a recording, or more rows in a report, take nothing from an entry. */
  lemma GrownBacks(files: Files, path: Path, entries: Entries, bytes: seq<byte>, rows: seq<AnalysisRow>)
    requires Backed(files, entries)
    ensures path.QmdlFile? ==> Backed(Appended(files, path, bytes), entries)
    ensures path.AnalysisFile? ==> Backed(AppendedRows(files, path, rows), entries)
  {
    forall i | 0 <= i < |entries|
      ensures path.QmdlFile? ==> IsBacked(Appended(files, path, bytes), entries[i])
      ensures path.AnalysisFile? ==> IsBacked(AppendedRows(files, path, rows), entries[i])
    {
      assert IsBacked(files, entries[i]);
    }
  }

  // ---- The manifest while entries come and go ----

  /** The manifest on disk is wholly the old one or wholly the new one. */
  predicate OldOrNew(before: Files, after: Files, entries: Entries) {
    At(after, Manifest) == At(before, Manifest) || At(after, Manifest) == Some(Toml(entries))
  }

  lemma NewEntryManifest(files: Files, name: Name, entries: Entries, k: nat, torn: nat)
    requires k <= |NewEntryOps(name, entries)|
    ensures OldOrNew(files, CrashAt(files, NewEntryOps(name, entries), k, torn), entries)
  {
    var creates, write := [Create(QmdlFile(name)), Create(AnalysisFile(name))], WriteManifestOps(entries);
    var created := files[QmdlFile(name) := Recording([])];
    assert creates[1..] == [Create(AnalysisFile(name))] && creates[1..][1..] == [];
    if k < 2 {
      CrashEarlier(files, creates, write, k, torn);
      assert k == 1 ==> CrashAt(files, creates, k, torn) == CrashAt(created, creates[1..], 0, torn);
    } else {
      CrashLater(files, creates, write, k - 2, torn);
      assert CrashAt(files, creates, 2, 0) == CrashAt(created, creates[1..], 1, 0);
      assert CrashAt(created, creates[1..], 1, 0) == CrashAt(created[AnalysisFile(name) := Report([])], [], 0, 0);
      ManifestReplacedAtOnce(AfterOps(files, creates), entries, k - 2, torn);
    }
  }

  lemma DeleteEntryManifest(files: Files, name: Name, rest: Entries, k: nat, torn: nat)
    requires k <= |DeleteEntryOps(name, rest)|
    ensures OldOrNew(files, CrashAt(files, DeleteEntryOps(name, rest), k, torn), rest)
  {
    var write, removes := WriteManifestOps(rest), [Remove(QmdlFile(name)), Remove(AnalysisFile(name))];
    ManifestReplacedAtOnce(files, rest, if k < 3 then k else 3, if k < 3 then torn else 0);
    if k < 3 {
      CrashEarlier(files, write, removes, k, torn);
    } else {
      CrashLater(files, write, removes, k - 3, torn);
      CrashInRemoves(AfterOps(files, write), name, k - 3, torn);
    }
  }

  // ---- Operations in sequence, up to the first that fails ----

  /** All operations were done, or they were cut short at one of them. */
  ghost predicate Progress(before: Files, ops: seq<Op>, after: Files, done: bool) {
    if done then after == AfterOps(before, ops)
    else exists k: nat, torn: nat | k < |ops| :: after == CrashAt(before, ops, k, torn)
  }

  /** Cut short anywhere, safe operations leave a consistent disk. */
  lemma ProgressSafe(before: Files, ops: seq<Op>, after: Files, done: bool)
    requires CrashSafe(before, ops) && Progress(before, ops, after, done)
    ensures Consistent(after)
  {
    if done {
      assert Consistent(CrashAt(before, ops, |ops|, 0));
    }
  }

  lemma ProgressThen(before: Files, a: seq<Op>, b: seq<Op>, after: Files, done: bool)
    requires Progress(AfterOps(before, a), b, after, done)
    ensures Progress(before, a + b, after, done)
  {
    if done {
      CrashLater(before, a, b, |b|, 0);
    } else {
      var k: nat, torn: nat :| k < |b| && after == CrashAt(AfterOps(before, a), b, k, torn);
      CrashLater(before, a, b, k, torn);
      assert |a| + k < |a + b|;
    }
  }

  lemma ProgressCut(before: Files, a: seq<Op>, b: seq<Op>, after: Files)
    requires Progress(before, a, after, false)
    ensures Progress(before, a + b, after, false)
  {
    var k: nat, torn: nat :| k < |a| && after == CrashAt(before, a, k, torn);
    CrashEarlier(before, a, b, k, torn);
    assert k < |a + b|;
  }

  lemma OneOp(before: Files, op: Op, torn: nat)
    ensures AfterOps(before, [op]) == Apply(before, op)
    ensures Progress(before, [op], Broken(before, op, torn), false)
  {
    assert [op][1..] == [];
    assert CrashAt(before, [op], 1, 0) == CrashAt(Apply(before, op), [], 0, 0);
    assert CrashAt(before, [op], 0, torn) == Broken(before, op, torn);
  }

  /** Every operation finds the file it needs. */
  predicate Feasible(files: Files, ops: seq<Op>) {
    forall k | 0 <= k < |ops| :: Applicable(AfterOps(files, ops[..k]), ops[k])
  }

  lemma WriteManifestFeasible(files: Files, entries: Entries)
    ensures Feasible(files, WriteManifestOps(entries))
  {
    var ops := WriteManifestOps(entries);
    var created := Apply(files, ops[0]);
    assert ops[..2] == [ops[0], ops[1]] && ops[..2][1..] == [ops[1]] && [ops[1]][1..] == [];
    assert CrashAt(files, ops[..2], 2, 0) == CrashAt(created, [ops[1]], 1, 0);
    assert CrashAt(created, [ops[1]], 1, 0) == CrashAt(Apply(created, ops[1]), [], 0, 0);
  }

  /** What rewriting the manifest in part or in full leaves: the old or the new manifest, all recordings as before. */
  lemma WriteProgress(before: Files, entries: Entries, after: Files, done: bool)
    requires Progress(before, WriteManifestOps(entries), after, done)
    ensures SameRecords(after, before) || SameRecords(after, before[Manifest := Toml(entries)])
    ensures done ==> SameRecords(after, before[Manifest := Toml(entries)])
    ensures forall es: Entries :: Backed(after, es) <==> Backed(before, es)
  {
    var k: nat, torn: nat :|
      k <= 3 && after == CrashAt(before, WriteManifestOps(entries), k, torn) && (done ==> k == 3);
    var written := before[Manifest := Toml(entries)];
    ManifestReplacedAtOnce(before, entries, k, torn);
    SameRecordsConsistent(after, if k < 3 then before else written);
    assert forall e :: IsBacked(written, e) <==> IsBacked(before, e);
  }

  /** Removing the files of a name, in part or in full, leaves entries of other names backed. */
  lemma RemoveProgress(before: Files, name: Name, entries: Entries, after: Files, done: bool)
    requires Progress(before, [Remove(QmdlFile(name)), Remove(AnalysisFile(name))], after, done)
    requires Backed(before, entries) && !Listed(entries, name)
    ensures Backed(after, entries)
  {
    var k: nat, torn: nat :|
      k <= 2 && after == CrashAt(before, [Remove(QmdlFile(name)), Remove(AnalysisFile(name))], k, torn);
    CrashInRemoves(before, name, k, torn);
    RemovedBacksIff(before, entries, name);
  }

  method PerformAll(disk: Disk, ops: seq<Op>) returns (ok: bool)
    modifies disk
    ensures Progress(old(disk.files), ops, disk.files, ok)
    ensures disk.NeverFails() && Feasible(old(disk.files), ops) ==> ok
  {
    ghost var before := old(disk.files);
    for i := 0 to |ops|
      invariant Progress(before, ops[..i], disk.files, true)
    {
      var torn := disk.torn(disk.step);
      OneOp(disk.files, ops[i], torn);
      ok := disk.Perform(ops[i]);
      ProgressThen(before, ops[..i], [ops[i]], disk.files, ok);
      PrefixGrows(ops, i);
      if !ok {
        ProgressCut(before, ops[..i + 1], ops[i + 1..], disk.files);
        CutInTwo(ops, i + 1);
        return;
      }
    }
    WholeSlice(ops);
    ok := true;
  }
}
