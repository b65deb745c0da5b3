/**
 What a crash in the middle of a recorder's command leaves on the disk: the I/O operations of every
 command, in order, and the commands that can be cut short anywhere.
 */
module CrashSafety {
  import opened Wrappers
  import opened Bytes
  import opened Frames
  import opened Harness
  import opened Containers
  import opened Reports
  import opened Disks
  import opened Store
  import opened Recorder

  // ---- The operations of a command ----

  function AppendOps(path: Path, datas: seq<seq<byte>>): seq<Op> {
    if datas == [] then [] else [Append(path, datas[0])] + AppendOps(path, datas[1..])
  }

  function RowOps(path: Path, rows: seq<AnalysisRow>): seq<Op> {
    if rows == [] then [] else [AppendRow(path, rows[0])] + RowOps(path, rows[1..])
  }

  /** A container while recording: its messages, the manifest with the new size, the rows. */
  function RecordOps<H>(machine: Machine<H>, r: Recorder<H>, i: nat, c: MessagesContainer): seq<Op>
    requires i < |r.store.entries| && r.task.Active?
  {
    var name, datas := r.task.name, Datas(c.messages);
    var resized := Resized(r.store, i, r.task.totalWritten + |Concat(datas)|);
    AppendOps(QmdlFile(name), datas)
    + (WriteManifestOps(resized.entries)
       + RowOps(AnalysisFile(name), Reported(machine.analyze(r.task.harness, c).1)))
  }

  function DeleteOps<H>(r: Recorder<H>, name: Name): seq<Op> {
    match PositionOf(r.store.entries, name)
    case None => []
    case Some(i) => DeleteEntryOps(name, Without(r.store.entries, i))
  }

  /** What a command does to the disk, one operation after another. */
  function CommandOps<H>(machine: Machine<H>, r: Recorder<H>, command: Command): seq<Op> {
    match command
    case StartRecording(name) => NewEntryOps(name, Opened(r.store, name).entries)
    case StopRecording => []
    case DeleteEntry(name) => DeleteOps(r, name)
    case DeleteAllEntries => DeleteAllOps(r.store.entries)
    case Container(c) =>
      if c.dataType != UserSpace || r.task.Idle? || r.store.current.None? || Dangling(r.store) then []
      else RecordOps(machine, r, r.store.current.value, c)
  }

  // ---- They are what the command does ----

  lemma AfterBoth(files: Files, a: seq<Op>, b: seq<Op>)
    ensures AfterOps(files, a + b) == AfterOps(AfterOps(files, a), b)
  {
    CrashLater(files, a, b, |b|, 0);
  }

  lemma AfterFirst(files: Files, op: Op, ops: seq<Op>)
    ensures AfterOps(files, [op] + ops) == AfterOps(Apply(files, op), ops)
  {
    AfterBoth(files, [op], ops);
    OneOp(files, op, 0);
  }

  lemma {:induction false} AfterAppends(files: Files, path: Path, datas: seq<seq<byte>>)
    ensures AfterOps(files, AppendOps(path, datas)) == Appended(files, path, Concat(datas))
    decreases |datas|
  {
    if datas == [] {
      AppendedNothing(files, path);
    } else {
      AfterFirst(files, Append(path, datas[0]), AppendOps(path, datas[1..]));
      AfterAppends(Appended(files, path, datas[0]), path, datas[1..]);
      AppendedTwice(files, path, datas[0], Concat(datas[1..]));
    }
  }

  lemma {:induction false} AfterRows(files: Files, path: Path, rows: seq<AnalysisRow>)
    ensures AfterOps(files, RowOps(path, rows)) == AppendedRows(files, path, rows)
    decreases |rows|
  {
    if rows == [] {
      AppendedNoRows(files, path);
    } else {
      AfterFirst(files, AppendRow(path, rows[0]), RowOps(path, rows[1..]));
      AfterRows(AppendedRows(files, path, [rows[0]]), path, rows[1..]);
      AppendedRowsTwice(files, path, [rows[0]], rows[1..]);
      assert rows == [rows[0]] + rows[1..];
    }
  }

  lemma AfterRecord<H>(machine: Machine<H>, r: Recorder<H>, i: nat, c: MessagesContainer)
    requires i < |r.store.entries| && r.task.Active?
    ensures AfterOps(r.files, RecordOps(machine, r, i, c)) == Recorded(machine, r, i, c).files
  {
    var name, datas := r.task.name, Datas(c.messages);
    var write := WriteManifestOps(Resized(r.store, i, r.task.totalWritten + |Concat(datas)|).entries);
    var rows := Reported(machine.analyze(r.task.harness, c).1);
    var appended := Appended(r.files, QmdlFile(name), Concat(datas));
    AfterBoth(r.files, AppendOps(QmdlFile(name), datas), write + RowOps(AnalysisFile(name), rows));
    AfterAppends(r.files, QmdlFile(name), datas);
    AfterBoth(appended, write, RowOps(AnalysisFile(name), rows));
    AfterRows(AfterOps(appended, write), AnalysisFile(name), rows);
  }

  lemma AfterDelete<H>(r: Recorder<H>, name: Name)
    ensures AfterOps(r.files, DeleteOps(r, name)) == EntryDeleted(r, name).files
  {
  }

  /** Done to the end, the operations of a command leave the disk that the command leaves. */
  lemma OpsDoCommand<H>(machine: Machine<H>, r: Recorder<H>, command: Command)
    requires Handled(machine, r, command).Some?
    ensures AfterOps(r.files, CommandOps(machine, r, command)) == Handled(machine, r, command).value.files
  {
    match command {
      case StartRecording(_) =>
      case StopRecording =>
      case DeleteEntry(name) => AfterDelete(r, name);
      case DeleteAllEntries =>
      case Container(c) =>
        if c.dataType == UserSpace && r.task.Active? {
          AfterRecord(machine, r, r.store.current.value, c);
        }
    }
  }

  // ---- Which commands are safe against crashes ----

  lemma BothSafe(files: Files, a: seq<Op>, b: seq<Op>)
    requires CrashSafe(files, a) && CrashSafe(AfterOps(files, a), b)
    ensures CrashSafe(files, a + b)
  {
    forall k: nat, torn: nat | k <= |a + b|
      ensures Consistent(CrashAt(files, a + b, k, torn))
    {
      if k < |a| {
        CrashEarlier(files, a, b, k, torn);
        assert Consistent(CrashAt(files, a, k, torn));
      } else {
        CrashLater(files, a, b, k - |a|, torn);
        assert Consistent(CrashAt(AfterOps(files, a), b, k - |a|, torn));
      }
    }
  }

  lemma NothingSafe(files: Files)
    requires Consistent(files)
    ensures CrashSafe(files, [])
  {
  }

  lemma GrownConsistent(files: Files, path: Path, bytes: seq<byte>, rows: seq<AnalysisRow>)
    requires Consistent(files)
    ensures path.QmdlFile? ==> Consistent(Appended(files, path, bytes))
    ensures path.AnalysisFile? ==> Consistent(AppendedRows(files, path, rows))
  {
    GrownBacks(files, path, ManifestOf(files), bytes, rows);
  }

  lemma FirstSafe(files: Files, op: Op, ops: seq<Op>)
    requires Consistent(files) && CrashSafe(Apply(files, op), ops)
    requires forall torn: nat :: Consistent(Broken(files, op, torn))
    ensures CrashSafe(files, [op] + ops)
  {
    forall k: nat, torn: nat | k <= |[op] + ops|
      ensures Consistent(CrashAt(files, [op] + ops, k, torn))
    {
      assert ([op] + ops)[1..] == ops;
      if k > 0 {
        assert Consistent(CrashAt(Apply(files, op), ops, k - 1, torn));
      }
    }
  }

  lemma {:induction false} AppendsSafe(files: Files, path: Path, datas: seq<seq<byte>>)
    requires Consistent(files) && path.QmdlFile?
    ensures CrashSafe(files, AppendOps(path, datas))
    decreases |datas|
  {
    if datas == [] {
      NothingSafe(files);
    } else {
      GrownConsistent(files, path, datas[0], []);
      AppendsSafe(Appended(files, path, datas[0]), path, datas[1..]);
      forall torn: nat
        ensures Consistent(Broken(files, Append(path, datas[0]), torn))
      {
        GrownConsistent(files, path, Torn(datas[0], torn), []);
      }
      FirstSafe(files, Append(path, datas[0]), AppendOps(path, datas[1..]));
    }
  }

  lemma {:induction false} RowsSafe(files: Files, path: Path, rows: seq<AnalysisRow>)
    requires Consistent(files) && path.AnalysisFile?
    ensures CrashSafe(files, RowOps(path, rows))
    decreases |rows|
  {
    if rows == [] {
      NothingSafe(files);
    } else {
      GrownConsistent(files, path, [], [rows[0]]);
      RowsSafe(AppendedRows(files, path, [rows[0]]), path, rows[1..]);
      FirstSafe(files, AppendRow(path, rows[0]), RowOps(path, rows[1..]));
    }
  }

  /** The manifest may list the new size as soon as the bytes are in the file. */
  lemma ResizeSafe(files: Files, s: Store, i: nat, bytes: seq<byte>, size: nat)
    requires Consistent(files) && Backed(files, s.entries) && i < |s.entries|
    requires size <= s.entries[i].qmdlSizeBytes + |bytes|
    ensures var appended := Appended(files, QmdlFile(s.entries[i].name), bytes);
            CrashSafe(appended, WriteManifestOps(Resized(s, i, size).entries))
  {
    var path := QmdlFile(s.entries[i].name);
    GrownConsistent(files, path, bytes, []);
    GrownBacks(files, path, s.entries, bytes, []);
    assert IsBacked(files, s.entries[i]);
    UpdateSizeSafeIff(Appended(files, path, bytes), s, i, size);
  }

  lemma RecordSafe<H>(machine: Machine<H>, r: Recorder<H>, c: MessagesContainer)
    requires Inv(machine, r) && r.task.Active?
    ensures CrashSafe(r.files, RecordOps(machine, r, r.store.current.value, c))
  {
    var name, datas, i := r.task.name, Datas(c.messages), r.store.current.value;
    var bytes, rows := Concat(datas), Reported(machine.analyze(r.task.harness, c).1);
    var write := WriteManifestOps(Resized(r.store, i, r.task.totalWritten + |bytes|).entries);
    var appended := Appended(r.files, QmdlFile(name), bytes);
    AppendsSafe(r.files, QmdlFile(name), datas);
    AfterAppends(r.files, QmdlFile(name), datas);
    ResizeSafe(r.files, r.store, i, bytes, r.task.totalWritten + |bytes|);
    assert Consistent(CrashAt(appended, write, |write|, 0));
    RowsSafe(AfterOps(appended, write), AnalysisFile(name), rows);
    BothSafe(appended, write, RowOps(AnalysisFile(name), rows));
    BothSafe(r.files, AppendOps(QmdlFile(name), datas), write + RowOps(AnalysisFile(name), rows));
  }

  lemma StartSafe<H>(machine: Machine<H>, r: Recorder<H>, name: Name)
    requires Inv(machine, r) && Admissible(r, StartRecording(name))
    ensures CrashSafe(r.files, NewEntryOps(name, Opened(r.store, name).entries))
  {
    NewEntrySafeIff(r.files, r.store.entries, name);
  }

  lemma DeleteSafe<H>(machine: Machine<H>, r: Recorder<H>, name: Name)
    requires Inv(machine, r)
    ensures CrashSafe(r.files, DeleteOps(r, name))
  {
    match PositionOf(r.store.entries, name) {
      case None => NothingSafe(r.files);
      case Some(i) =>
        DeletedDistinct(r.store, i);
        DeleteEntrySafeIff(r.files, r.store.entries, i);
    }
  }

  /** Deleting all entries can leave the manifest with entries whose files are gone, if there is any entry. */
  lemma DeleteAllUnsafe<H>(machine: Machine<H>, r: Recorder<H>)
    requires Inv(machine, r)
    ensures CrashSafe(r.files, DeleteAllOps(r.store.entries)) <==> r.store.entries == []
  {
    DeleteAllSafeIff(r.files, r.store.entries);
    if r.store.entries != [] {
      assert Listed(ManifestOf(r.files), r.store.entries[0].name);
    }
  }

  /**
   In every reachable state, a crash anywhere in a command leaves a consistent disk, whatever the
   command is, with one exception: deleting all of at least one entry.
   */
  lemma CommandSafeIff<H>(machine: Machine<H>, r: Recorder<H>, command: Command)
    requires Inv(machine, r) && Admissible(r, command)
    ensures CrashSafe(r.files, CommandOps(machine, r, command))
       <==> (command.DeleteAllEntries? ==> r.store.entries == [])
  {
    match command {
      case StartRecording(name) => StartSafe(machine, r, name);
      case StopRecording => NothingSafe(r.files);
      case DeleteEntry(name) => DeleteSafe(machine, r, name);
      case DeleteAllEntries => DeleteAllUnsafe(machine, r);
      case Container(c) =>
        if c.dataType == UserSpace && r.task.Active? {
          RecordSafe(machine, r, c);
        } else {
          NothingSafe(r.files);
        }
    }
  }

  // ---- Starting again after a crash ----

  /** The manifest is wholly that of one of two lists of entries. */
  predicate ManifestIn(files: Files, a: Entries, b: Entries) {
    At(files, Manifest) == Some(Toml(a)) || At(files, Manifest) == Some(Toml(b))
  }

  lemma {:induction false} AppendsKeepManifest(files: Files, path: Path, datas: seq<seq<byte>>, k: nat, torn: nat)
    requires path.QmdlFile? && k <= |AppendOps(path, datas)|
    ensures At(CrashAt(files, AppendOps(path, datas), k, torn), Manifest) == At(files, Manifest)
    decreases |datas|
  {
    if datas == [] {
    } else {
      var ops := AppendOps(path, datas);
      assert ops[1..] == AppendOps(path, datas[1..]);
      if k > 0 {
        AppendsKeepManifest(Appended(files, path, datas[0]), path, datas[1..], k - 1, torn);
      }
    }
  }

  lemma {:induction false} RowsKeepManifest(files: Files, path: Path, rows: seq<AnalysisRow>, k: nat, torn: nat)
    requires path.AnalysisFile? && k <= |RowOps(path, rows)|
    ensures At(CrashAt(files, RowOps(path, rows), k, torn), Manifest) == At(files, Manifest)
    decreases |rows|
  {
    if rows == [] {
    } else {
      var ops := RowOps(path, rows);
      assert ops[1..] == RowOps(path, rows[1..]);
      if k > 0 {
        RowsKeepManifest(AppendedRows(files, path, [rows[0]]), path, rows[1..], k - 1, torn);
      }
    }
  }

  lemma WriteManifestIn(files: Files, listed: Entries, entries: Entries, k: nat, torn: nat)
    requires At(files, Manifest) == Some(Toml(listed)) && k <= 3
    ensures ManifestIn(CrashAt(files, WriteManifestOps(entries), k, torn), listed, entries)
    ensures k == 3 ==> At(CrashAt(files, WriteManifestOps(entries), k, torn), Manifest) == Some(Toml(entries))
  {
    ManifestReplacedAtOnce(files, entries, k, torn);
    var after := CrashAt(files, WriteManifestOps(entries), k, torn);
    assert At(after, Manifest) == At(if k < 3 then files else files[Manifest := Toml(entries)], Manifest);
  }

  lemma WriteAndRowsManifest(files: Files, listed: Entries, entries: Entries, path: Path, rows: seq<AnalysisRow>,
                             k: nat, torn: nat)
    requires At(files, Manifest) == Some(Toml(listed)) && path.AnalysisFile?
    requires k <= |WriteManifestOps(entries) + RowOps(path, rows)|
    ensures ManifestIn(CrashAt(files, WriteManifestOps(entries) + RowOps(path, rows), k, torn), listed, entries)
  {
    var write := WriteManifestOps(entries);
    if k < 3 {
      CrashEarlier(files, write, RowOps(path, rows), k, torn);
      WriteManifestIn(files, listed, entries, k, torn);
    } else {
      CrashLater(files, write, RowOps(path, rows), k - 3, torn);
      WriteManifestIn(files, listed, entries, 3, 0);
      RowsKeepManifest(AfterOps(files, write), path, rows, k - 3, torn);
    }
  }

  lemma AppendsFirstManifest(files: Files, path: Path, datas: seq<seq<byte>>, ops: seq<Op>, k: nat, torn: nat)
    requires path.QmdlFile? && k <= |AppendOps(path, datas) + ops|
    ensures var n, after := |AppendOps(path, datas)|, CrashAt(files, AppendOps(path, datas) + ops, k, torn);
            && At(AfterOps(files, AppendOps(path, datas)), Manifest) == At(files, Manifest)
            && if k < n then At(after, Manifest) == At(files, Manifest)
               else after == CrashAt(AfterOps(files, AppendOps(path, datas)), ops, k - n, torn)
  {
    var appends := AppendOps(path, datas);
    AppendsKeepManifest(files, path, datas, |appends|, 0);
    if k < |appends| {
      CrashEarlier(files, appends, ops, k, torn);
      AppendsKeepManifest(files, path, datas, k, torn);
    } else {
      CrashLater(files, appends, ops, k - |appends|, torn);
    }
  }

  lemma RecordManifest<H>(machine: Machine<H>, r: Recorder<H>, i: nat, c: MessagesContainer, k: nat, torn: nat)
    requires i < |r.store.entries| && r.task.Active? && At(r.files, Manifest) == Some(Toml(r.store.entries))
    requires k <= |RecordOps(machine, r, i, c)|
    ensures ManifestIn(CrashAt(r.files, RecordOps(machine, r, i, c), k, torn), r.store.entries,
                       Recorded(machine, r, i, c).store.entries)
  {
    var name, datas := r.task.name, Datas(c.messages);
    var entries := Resized(r.store, i, r.task.totalWritten + |Concat(datas)|).entries;
    var rows := Reported(machine.analyze(r.task.harness, c).1);
    var n, ops := |AppendOps(QmdlFile(name), datas)|, WriteManifestOps(entries) + RowOps(AnalysisFile(name), rows);
    AppendsFirstManifest(r.files, QmdlFile(name), datas, ops, k, torn);
    if k >= n {
      var appended := AfterOps(r.files, AppendOps(QmdlFile(name), datas));
      WriteAndRowsManifest(appended, r.store.entries, entries, AnalysisFile(name), rows, k - n, torn);
    }
  }

  /** Cut short anywhere, a command that may be cut short leaves the manifest from before or after it. */
  lemma CommandManifest<H>(machine: Machine<H>, r: Recorder<H>, command: Command, k: nat, torn: nat)
    requires Inv(machine, r) && Handled(machine, r, command).Some?
    requires command.DeleteAllEntries? ==> r.store.entries == []
    requires k <= |CommandOps(machine, r, command)|
    ensures ManifestIn(CrashAt(r.files, CommandOps(machine, r, command), k, torn), r.store.entries,
                       Handled(machine, r, command).value.store.entries)
  {
    match command {
      case StartRecording(name) => NewEntryManifest(r.files, name, Opened(r.store, name).entries, k, torn);
      case StopRecording =>
      case DeleteEntry(name) =>
        match PositionOf(r.store.entries, name) {
          case None =>
          case Some(i) => DeleteEntryManifest(r.files, name, Without(r.store.entries, i), k, torn);
        }
      case DeleteAllEntries =>
        assert DeleteAllOps([]) == WriteManifestOps([]);
        WriteManifestIn(r.files, [], [], k, torn);
      case Container(c) =>
        if c.dataType == UserSpace && r.task.Active? {
          RecordManifest(machine, r, r.store.current.value, c, k, torn);
        }
    }
  }

  lemma RestartHasInv<H>(machine: Machine<H>, r: Recorder<H>, command: Command, k: nat, torn: nat)
    requires Inv(machine, r) && Admissible(r, command) && (command.DeleteAllEntries? ==> r.store.entries == [])
    requires k <= |CommandOps(machine, r, command)|
    ensures var files := CrashAt(r.files, CommandOps(machine, r, command), k, torn);
            HasManifest(files) && Inv(machine, Begin<H>(ManifestOf(files), files))
  {
    var files := CrashAt(r.files, CommandOps(machine, r, command), k, torn);
    CommandSafeIff(machine, r, command);
    assert Consistent(files);
    InvPreserved(machine, r, command);
    CommandManifest(machine, r, command, k, torn);
    BeginHasInv(machine, ManifestOf(files), files);
  }

  lemma {:induction false} PrefixReaches<H>(machine: Machine<H>, r: Recorder<H>, commands: seq<Command>, i: nat)
    requires Inv(machine, r) && AdmissibleRun(r, commands) && i < |commands|
    ensures RunAll(machine, r, commands[..i]).Some?
    ensures var z := RunAll(machine, r, commands[..i]).value; Inv(machine, z) && Admissible(z, commands[i])
    decreases i
  {
    AdmissibleStep(machine, r, commands);
    InvPreserved(machine, r, commands[0]);
    if i == 0 {
    } else {
      PrefixReaches(machine, Handled(machine, r, commands[0]).value, commands[1..], i - 1);
      assert commands[..i][1..] == commands[1..][..i - 1];
    }
  }

  /**
   Recovery: wherever a run is cut short, inside any command but one that deletes all of at least one
   entry, a recorder that starts again from the disk satisfies the invariant of `Recorder.RunsKeepInv`.
   */
  lemma CrashRecovers<H>(machine: Machine<H>, r: Recorder<H>, commands: seq<Command>, i: nat, k: nat, torn: nat)
    requires Inv(machine, r) && AdmissibleRun(r, commands) && i < |commands|
    ensures RunAll(machine, r, commands[..i]).Some?
    ensures var z := RunAll(machine, r, commands[..i]).value;
            var ops := CommandOps(machine, z, commands[i]);
            k <= |ops| && (commands[i].DeleteAllEntries? ==> z.store.entries == []) ==>
              && HasManifest(CrashAt(z.files, ops, k, torn))
              && Inv(machine, Begin<H>(ManifestOf(CrashAt(z.files, ops, k, torn)), CrashAt(z.files, ops, k, torn)))
  {
    PrefixReaches(machine, r, commands, i);
    var z := RunAll(machine, r, commands[..i]).value;
    if k <= |CommandOps(machine, z, commands[i])| && (commands[i].DeleteAllEntries? ==> z.store.entries == []) {
      RestartHasInv(machine, z, commands[i], k, torn);
    }
  }
}
