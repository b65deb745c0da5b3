/**
 The recorder: start, stop, delete and container commands, over a store and the files of its
 recordings. This module is the specification, with every I/O operation succeeding.
 */
module Recorder {
  import opened Wrappers
  import opened Bytes
  import opened Events
  import opened Seqs
  import opened Frames
  import opened Containers
  import opened Harness
  import opened Reports
  import opened Disks
  import opened Store
  import Qmdl

  datatype Command =
    | StartRecording(name: Name)
    | StopRecording
    | DeleteEntry(name: Name)
    | DeleteAllEntries
    | Container(container: MessagesContainer)

  /** While recording, the open files keep the name they were opened under. */
  datatype Task<H> = Idle | Active(name: Name, totalWritten: nat, harness: H)

  /**
   History gives, for every name recorded in this run, the containers recorded under it; used are all
   names that ever had an entry.
   */
  datatype Recorder<H> = Recorder(
    store: Store, files: Files, task: Task<H>, maxTypeSeen: EventType, announced: seq<Name>,
    notified: seq<EventType>, history: map<Name, seq<MessagesContainer>>, used: set<Name>)

  // ---- Commands ----

  function Started<H>(machine: Machine<H>, r: Recorder<H>, name: Name): Recorder<H> {
    var store := Opened(r.store, name);
    r.(store := store, files := AfterOps(r.files, NewEntryOps(name, store.entries)),
       task := Active(name, 0, machine.initial), history := r.history[name := []], used := r.used + {name})
  }

  /** The current index points past the entries, so that looking the entry up panics. */
  predicate Dangling(s: Store) {
    s.current.Some? && s.current.value >= |s.entries|
  }

  function StoppedNow<H>(r: Recorder<H>): Recorder<H> {
    var current := CurrentEntry(r.store);
    r.(store := r.store.(current := None), task := Idle,
       announced := if current.Some? then r.announced + [current.value.name] else r.announced)
  }

  predicate IsCurrent(s: Store, name: Name) {
    CurrentEntry(s).Some? && CurrentEntry(s).value.name == name
  }

  function EntryDeleted<H>(r: Recorder<H>, name: Name): Recorder<H> {
    var stopped := if IsCurrent(r.store, name) then StoppedNow(r) else r;
    match PositionOf(stopped.store.entries, name)
    case None => stopped
    case Some(i) =>
      var store := Deleted(stopped.store, i);
      stopped.(store := store, files := AfterOps(stopped.files, DeleteEntryOps(name, store.entries)))
  }

  function AllDeleted<H>(r: Recorder<H>): Recorder<H> {
    var stopped := StoppedNow(r);
    stopped.(store := Store([], None), files := AfterOps(stopped.files, DeleteAllOps(stopped.store.entries)))
  }

  /** A container while recording: its bytes are written, then accounted to entry i, then analyzed. */
  function Recorded<H>(machine: Machine<H>, r: Recorder<H>, i: nat, c: MessagesContainer): Recorder<H>
    requires i < |r.store.entries| && r.task.Active?
  {
    var name := r.task.name;
    var bytes := Concat(Datas(c.messages));
    var total := r.task.totalWritten + |bytes|;
    var store := Resized(r.store, i, total);
    var (harness, rows) := machine.analyze(r.task.harness, c);
    var written := AfterOps(Appended(r.files, QmdlFile(name), bytes), WriteManifestOps(store.entries));
    var worst := MaxOfRows(rows);
    Recorder(store, AppendedRows(written, AnalysisFile(name), Reported(rows)), Active(name, total, harness),
             Max(r.maxTypeSeen, worst), r.announced,
             if worst != Informational then r.notified + [worst] else r.notified,
             r.history[name := (if name in r.history then r.history[name] else []) + [c]], r.used)
  }

  /** None stands for a panic: there is no entry to account the bytes to. */
  function Processed<H>(machine: Machine<H>, r: Recorder<H>, c: MessagesContainer): Option<Recorder<H>>
  {
    if c.dataType != UserSpace || r.task.Idle? then Some(r)
    else if r.store.current.None? || Dangling(r.store) then None
    else Some(Recorded(machine, r, r.store.current.value, c))
  }

  /** None stands for a panic. */
  function Handled<H>(machine: Machine<H>, r: Recorder<H>, command: Command): (after: Option<Recorder<H>>)
  {
    match command
    case StartRecording(name) => Some(Started(machine, r, name))
    case StopRecording => if Dangling(r.store) then None else Some(StoppedNow(r))
    case DeleteEntry(name) => Some(EntryDeleted(r, name))
    case DeleteAllEntries => if Dangling(r.store) then None else Some(AllDeleted(r))
    case Container(c) => Processed(machine, r, c)
  }

  // ---- Store and task agree ----

  /**
   The task is recording exactly when the store has a current entry, and that entry is the last one,
   has the name of the open files, and lists the bytes written so far.
   */
  predicate Agree<H>(s: Store, task: Task<H>) {
    && Distinct(s.entries) && |s.entries| <= USIZE_VALUES
    && (s.current.Some? <==> task.Active?)
    && (s.current.Some? ==>
          && s.entries != [] && s.current.value == |s.entries| - 1
          && s.entries[s.current.value].name == task.name
          && s.entries[s.current.value].qmdlSizeBytes == task.totalWritten)
  }

  predicate NamesUsed<H>(r: Recorder<H>) {
    r.history.Keys <= r.used && forall i | 0 <= i < |r.store.entries| :: r.store.entries[i].name in r.used
  }

  /** A new recording takes a name never used before, and the list of entries fits the address space. */
  predicate Admissible<H>(r: Recorder<H>, command: Command) {
    command.StartRecording? ==> command.name !in r.used && |r.store.entries| < USIZE_VALUES
  }

  lemma OpenedDistinct(s: Store, name: Name)
    requires Distinct(s.entries) && !Listed(s.entries, name)
    ensures Distinct(Opened(s, name).entries)
  {
    forall i | 0 <= i < |s.entries|
      ensures s.entries[i].name != name
    {
    }
  }

  lemma DeletedDistinct(s: Store, i: nat)
    requires Distinct(s.entries) && i < |s.entries|
    ensures Distinct(Deleted(s, i).entries) && !Listed(Deleted(s, i).entries, s.entries[i].name)
  {
    var rest := Without(s.entries, i);
    forall j | 0 <= j < |rest|
      ensures rest[j] == s.entries[if j < i then j else j + 1]
    {
    }
  }

  /** Deleting any entry but the current one, which is last, keeps that one current and last. */
  lemma DeletedAgree<H>(s: Store, task: Task<H>, i: nat)
    requires Agree(s, task) && i < |s.entries| && s.current != Some(i)
    ensures Agree(Deleted(s, i), task) && CurrentEntry(Deleted(s, i)) == CurrentEntry(s)
  {
    DeletedDistinct(s, i);
    if s.current.Some? {
      KeepsCurrentIff(s, i);
    }
  }

  lemma NotCurrentPosition<H>(s: Store, task: Task<H>, name: Name)
    requires Agree(s, task) && !IsCurrent(s, name) && PositionOf(s.entries, name).Some?
    ensures s.current != PositionOf(s.entries, name)
  {
  }

  lemma DeleteKeepsAgree<H>(r: Recorder<H>, name: Name)
    requires Agree(r.store, r.task) && NamesUsed(r)
    ensures var after := EntryDeleted(r, name);
            Agree(after.store, after.task) && NamesUsed(after) && (after.task == r.task || after.task == Idle)
  {
    var stopped := if IsCurrent(r.store, name) then StoppedNow(r) else r;
    var position := PositionOf(stopped.store.entries, name);
    if position.Some? {
      NotCurrentPosition(stopped.store, stopped.task, name);
      DeletedAgree(stopped.store, stopped.task, position.value);
    }
  }

  /** Under any command the store and the task stay in agreement; in particular there is no panic. */
  lemma {:induction false} AgreePreserved<H>(machine: Machine<H>, r: Recorder<H>, command: Command)
    requires Agree(r.store, r.task) && NamesUsed(r) && Admissible(r, command)
    ensures Handled(machine, r, command).Some?
    ensures var after := Handled(machine, r, command).value;
            Agree(after.store, after.task) && NamesUsed(after)
  {
    match command {
      case StartRecording(name) => OpenedDistinct(r.store, name);
      case DeleteEntry(name) => DeleteKeepsAgree(r, name);
      case _ =>
    }
  }

  // ---- Store, task and disk agree ----

  /** The files of a recording hold exactly its containers and the report on them. */
  ghost predicate Holds<H>(machine: Machine<H>, files: Files, e: ManifestEntry, cs: seq<MessagesContainer>)
  {
    && At(files, QmdlFile(e.name)) == Some(Recording(Concat(AllDatas(cs))))
    && e.qmdlSizeBytes == |Concat(AllDatas(cs))|
    && At(files, AnalysisFile(e.name)) == Some(Report(Reported(Live(machine, cs).1)))
  }

  ghost predicate AllHold<H>(machine: Machine<H>, r: Recorder<H>)
  {
    forall i | 0 <= i < |r.store.entries| && r.store.entries[i].name in r.history ::
      Holds(machine, r.files, r.store.entries[i], r.history[r.store.entries[i].name])
  }

  ghost predicate Inv<H>(machine: Machine<H>, r: Recorder<H>) {
    && Agree(r.store, r.task) && NamesUsed(r)
    && At(r.files, Manifest) == Some(Toml(r.store.entries))
    && Backed(r.files, r.store.entries)
    && AllHold(machine, r)
    && (r.task.Active? ==>
          && r.task.name in r.history
          && r.task.harness == Live(machine, r.history[r.task.name]).0)
  }

  // ---- What the operations leave on the disk ----

  lemma AfterWrite(files: Files, entries: Entries)
    ensures var after := AfterOps(files, WriteManifestOps(entries));
            && At(after, Manifest) == Some(Toml(entries))
            && forall name :: SameFilesOf(files, after, name)
  {
    ManifestReplacedAtOnce(files, entries, 3, 0);
    var written := files[Manifest := Toml(entries)];
    assert At(written, Manifest) == Some(Toml(entries));
    assert forall path | path != Manifest :: At(written, path) == At(files, path);
  }

  lemma AfterCreates(files: Files, name: Name)
    ensures AfterOps(files, [Create(QmdlFile(name)), Create(AnalysisFile(name))])
         == files[QmdlFile(name) := Recording([])][AnalysisFile(name) := Report([])]
  {
    var ops := [Create(QmdlFile(name)), Create(AnalysisFile(name))];
    var first := files[QmdlFile(name) := Recording([])];
    assert ops[1..] == [ops[1]] && [ops[1]][1..] == [];
    assert CrashAt(files, ops, 2, 0) == CrashAt(first, ops[1..], 1, 0);
    assert CrashAt(first, ops[1..], 1, 0) == CrashAt(first[AnalysisFile(name) := Report([])], [], 0, 0);
  }

  lemma AfterNewEntry(files: Files, name: Name, entries: Entries)
    ensures var after := AfterOps(files, NewEntryOps(name, entries));
            && At(after, Manifest) == Some(Toml(entries))
            && At(after, QmdlFile(name)) == Some(Recording([]))
            && At(after, AnalysisFile(name)) == Some(Report([]))
            && forall other | other != name :: SameFilesOf(files, after, other)
  {
    var creates, write := [Create(QmdlFile(name)), Create(AnalysisFile(name))], WriteManifestOps(entries);
    AfterCreates(files, name);
    CrashLater(files, creates, write, 3, 0);
    AfterWrite(AfterOps(files, creates), entries);
  }

  lemma AfterDeleteEntry(files: Files, name: Name, rest: Entries)
    ensures var after := AfterOps(files, DeleteEntryOps(name, rest));
            && At(after, Manifest) == Some(Toml(rest)) && NoFiles(after, name)
            && forall other | other != name :: SameFilesOf(files, after, other)
  {
    var write, removes := WriteManifestOps(rest), [Remove(QmdlFile(name)), Remove(AnalysisFile(name))];
    var written := AfterOps(files, write);
    CrashLater(files, write, removes, 2, 0);
    AfterWrite(files, rest);
    CrashInRemoves(written, name, 2, 0);
    forall other | other != name
      ensures SameFilesOf(files, AfterOps(files, DeleteEntryOps(name, rest)), other)
    {
      assert SameFilesOf(files, written, other);
    }
  }

  lemma AfterDeleteAll(files: Files, entries: Entries)
    ensures var after := AfterOps(files, DeleteAllOps(entries));
            && At(after, Manifest) == Some(Toml([]))
            && forall name ::
                 if Listed(entries, name) then NoFiles(after, name) else SameFilesOf(files, after, name)
  {
    var removes, write := RemoveAllOps(entries), WriteManifestOps([]);
    var removed, after := AfterOps(files, removes), AfterOps(files, DeleteAllOps(entries));
    RemoveAllRemoves(files, entries, |removes|, 0);
    CrashLater(files, removes, write, |write|, 0);
    AfterWrite(removed, []);
    forall name
      ensures if Listed(entries, name) then NoFiles(after, name) else SameFilesOf(files, after, name)
    {
      assert SameFilesOf(removed, after, name);
      if Listed(entries, name) {
        var i :| 0 <= i < |entries| && entries[i].name == name;
        assert NoFiles(removed, entries[i].name);
        assert At(after, QmdlFile(name)).None? && At(after, AnalysisFile(name)).None?;
      } else {
        assert !Owned(entries, QmdlFile(name)) && !Owned(entries, AnalysisFile(name));
      }
    }
  }

  // ---- The invariant is kept ----

  lemma StartKeepsInv<H>(machine: Machine<H>, r: Recorder<H>, name: Name)
    requires Inv(machine, r) && Admissible(r, StartRecording(name))
    ensures Inv(machine, Started(machine, r, name))
  {
    var after := Started(machine, r, name);
    AgreePreserved(machine, r, StartRecording(name));
    AfterNewEntry(r.files, name, after.store.entries);
    forall i | 0 <= i < |after.store.entries|
      ensures IsBacked(after.files, after.store.entries[i])
      ensures after.store.entries[i].name in after.history ==>
                Holds(machine, after.files, after.store.entries[i], after.history[after.store.entries[i].name])
    {
      var e := after.store.entries[i];
      if i < |r.store.entries| {
        assert e == r.store.entries[i] && e.name != name;
        SameFiles(machine, r, after.files, i);
      }
    }
  }

  /** Files that did not change still back and hold what they did. */
  lemma SameFiles<H>(machine: Machine<H>, r: Recorder<H>, files: Files, i: nat)
    requires Inv(machine, r) && i < |r.store.entries|
    requires SameFilesOf(r.files, files, r.store.entries[i].name)
    ensures IsBacked(files, r.store.entries[i])
    ensures r.store.entries[i].name in r.history ==>
              Holds(machine, files, r.store.entries[i], r.history[r.store.entries[i].name])
  {
    assert IsBacked(r.files, r.store.entries[i]);
  }

  lemma StopKeepsInv<H>(machine: Machine<H>, r: Recorder<H>)
    requires Inv(machine, r)
    ensures Inv(machine, StoppedNow(r))
  {
  }

  lemma RemovedKeepsInv<H>(machine: Machine<H>, r: Recorder<H>, i: nat)
    requires Inv(machine, r) && i < |r.store.entries| && r.store.current != Some(i)
    ensures var store, name := Deleted(r.store, i), r.store.entries[i].name;
            Inv(machine, r.(store := store, files := AfterOps(r.files, DeleteEntryOps(name, store.entries))))
  {
    var store, name := Deleted(r.store, i), r.store.entries[i].name;
    var files := AfterOps(r.files, DeleteEntryOps(name, store.entries));
    DeletedAgree(r.store, r.task, i);
    DeletedDistinct(r.store, i);
    AfterDeleteEntry(r.files, name, store.entries);
    forall j | 0 <= j < |store.entries|
      ensures IsBacked(files, store.entries[j])
      ensures store.entries[j].name in r.history ==>
                Holds(machine, files, store.entries[j], r.history[store.entries[j].name])
    {
      var k := if j < i then j else j + 1;
      assert store.entries[j] == r.store.entries[k] && r.store.entries[k].name != name;
      SameFiles(machine, r, files, k);
    }
  }

  lemma DeleteKeepsInv<H>(machine: Machine<H>, r: Recorder<H>, name: Name)
    requires Inv(machine, r)
    ensures Inv(machine, EntryDeleted(r, name))
  {
    var stopped := if IsCurrent(r.store, name) then StoppedNow(r) else r;
    var position := PositionOf(stopped.store.entries, name);
    assert Inv(machine, stopped);
    if position.Some? {
      NotCurrentPosition(stopped.store, stopped.task, name);
      RemovedKeepsInv(machine, stopped, position.value);
    }
  }

  lemma DeleteAllKeepsInv<H>(machine: Machine<H>, r: Recorder<H>)
    requires Inv(machine, r)
    ensures Inv(machine, AllDeleted(r))
  {
    AfterDeleteAll(r.files, r.store.entries);
  }

  /** The history gains a container: what the recording holds is then its new bytes and rows. */
  lemma HoldsOneMore<H>(machine: Machine<H>, e: ManifestEntry, files: Files, cs: seq<MessagesContainer>,
                           c: MessagesContainer, after: Files)
    requires Holds(machine, files, e, cs)
    requires var rows := machine.analyze(Live(machine, cs).0, c).1;
             && At(after, QmdlFile(e.name))
                == Some(Recording(files[QmdlFile(e.name)].bytes + Concat(Datas(c.messages))))
             && At(after, AnalysisFile(e.name)) == Some(Report(files[AnalysisFile(e.name)].rows + Reported(rows)))
    ensures Holds(machine, after, e.(qmdlSizeBytes := e.qmdlSizeBytes + |Concat(Datas(c.messages))|), cs + [c])
  {
    AllDatasOneMore(cs, c);
    LiveOneMore(machine, cs, c);
  }

  lemma ProcessFiles(files: Files, name: Name, bytes: seq<byte>, entries: Entries, rows: seq<AnalysisRow>)
    requires At(files, QmdlFile(name)).Some? && files[QmdlFile(name)].Recording?
    requires At(files, AnalysisFile(name)).Some? && files[AnalysisFile(name)].Report?
    ensures var after := AppendedRows(AfterOps(Appended(files, QmdlFile(name), bytes), WriteManifestOps(entries)),
                                      AnalysisFile(name), rows);
            && At(after, Manifest) == Some(Toml(entries))
            && At(after, QmdlFile(name)) == Some(Recording(files[QmdlFile(name)].bytes + bytes))
            && At(after, AnalysisFile(name)) == Some(Report(files[AnalysisFile(name)].rows + rows))
            && forall other | other != name :: SameFilesOf(files, after, other)
  {
    var written := Appended(files, QmdlFile(name), bytes);
    var saved := AfterOps(written, WriteManifestOps(entries));
    AfterWrite(written, entries);
    assert SameFilesOf(written, saved, name);
    forall other | other != name
      ensures SameFilesOf(files, AppendedRows(saved, AnalysisFile(name), rows), other)
    {
      assert SameFilesOf(written, saved, other);
    }
  }

  /** Every entry but the last is untouched by a container. */
  lemma ProcessKeepsOthers<H>(machine: Machine<H>, r: Recorder<H>, after: Recorder<H>, i: nat)
    requires Inv(machine, r) && r.task.Active? && i < |r.store.entries| - 1
    requires |after.store.entries| == |r.store.entries|
    requires after.store.entries[..|r.store.entries| - 1] == r.store.entries[..|r.store.entries| - 1]
    requires SameFilesOf(r.files, after.files, r.store.entries[i].name)
    requires forall name | name in after.history && name != r.task.name ::
               name in r.history && after.history[name] == r.history[name]
    ensures after.store.entries[i] == r.store.entries[i] && IsBacked(after.files, after.store.entries[i])
    ensures after.store.entries[i].name in after.history ==>
              Holds(machine, after.files, after.store.entries[i], after.history[after.store.entries[i].name])
  {
    var n := |r.store.entries| - 1;
    assert after.store.entries[..n][i] == r.store.entries[..n][i];
    assert r.store.entries[i].name != r.store.entries[n].name;
    SameFiles(machine, r, after.files, i);
  }

  lemma ProcessKeepsHolds<H>(machine: Machine<H>, r: Recorder<H>, c: MessagesContainer)
    requires Inv(machine, r) && c.dataType == UserSpace && r.task.Active?
    requires Processed(machine, r, c).Some?
    ensures var after := Processed(machine, r, c).value;
            && At(after.files, Manifest) == Some(Toml(after.store.entries))
            && Backed(after.files, after.store.entries) && AllHold(machine, after)
  {
    var after := Processed(machine, r, c).value;
    var name, last := r.task.name, |r.store.entries| - 1;
    var rows := machine.analyze(r.task.harness, c).1;
    SameFiles(machine, r, r.files, last);
    ProcessFiles(r.files, name, Concat(Datas(c.messages)), after.store.entries, Reported(rows));
    HoldsOneMore(machine, r.store.entries[last], r.files, r.history[name], c, after.files);
    assert after.store.entries[..last] == r.store.entries[..last];
    forall i | 0 <= i < last
      ensures after.store.entries[i] == r.store.entries[i] && IsBacked(after.files, after.store.entries[i])
      ensures after.store.entries[i].name in after.history ==>
                Holds(machine, after.files, after.store.entries[i], after.history[after.store.entries[i].name])
    {
      assert r.store.entries[i].name != r.store.entries[last].name;
      ProcessKeepsOthers(machine, r, after, i);
    }
  }

  lemma ProcessKeepsInv<H>(machine: Machine<H>, r: Recorder<H>, c: MessagesContainer)
    requires Inv(machine, r)
    ensures Processed(machine, r, c).Some? && Inv(machine, Processed(machine, r, c).value)
  {
    AgreePreserved(machine, r, Container(c));
    if c.dataType == UserSpace && r.task.Active? {
      ProcessKeepsHolds(machine, r, c);
      LiveOneMore(machine, r.history[r.task.name], c);
    }
  }

  // ---- Whole runs ----

  function RunAll<H>(machine: Machine<H>, r: Recorder<H>, commands: seq<Command>): Option<Recorder<H>>
    decreases |commands|
  {
    if commands == [] then Some(r)
    else
      var after :- Handled(machine, r, commands[0]);
      RunAll(machine, after, commands[1..])
  }

  /** Every recording the commands start takes a name that was not used before. */
  predicate FreshNames(used: set<Name>, commands: seq<Command>)
    decreases |commands|
  {
    commands == [] ||
    match commands[0]
    case StartRecording(name) => name !in used && FreshNames(used + {name}, commands[1..])
    case _ => FreshNames(used, commands[1..])
  }

  predicate AdmissibleRun<H>(r: Recorder<H>, commands: seq<Command>) {
    FreshNames(r.used, commands) && |r.store.entries| + |commands| <= USIZE_VALUES
  }

  lemma DeletedUses<H>(r: Recorder<H>, name: Name)
    ensures EntryDeleted(r, name).used == r.used && |EntryDeleted(r, name).store.entries| <= |r.store.entries|
    ensures forall other :: Listed(EntryDeleted(r, name).store.entries, other) ==> Listed(r.store.entries, other)
  {
    var position := PositionOf(r.store.entries, name);
    if position.Some? {
      var rest := Without(r.store.entries, position.value);
      assert forall j | 0 <= j < |rest| :: rest[j] == r.store.entries[if j < position.value then j else j + 1];
    }
  }

  lemma RecordedUses<H>(machine: Machine<H>, r: Recorder<H>, i: nat, c: MessagesContainer)
    requires i < |r.store.entries| && r.task.Active?
    ensures Recorded(machine, r, i, c).used == r.used
    ensures |Recorded(machine, r, i, c).store.entries| == |r.store.entries|
    ensures forall name :: Listed(Recorded(machine, r, i, c).store.entries, name) ==> Listed(r.store.entries, name)
  {
    assert forall j, size | 0 <= j < |r.store.entries| ::
        Resized(r.store, i, size).entries[j].name == r.store.entries[j].name;
  }

  lemma AdmissibleStep<H>(machine: Machine<H>, r: Recorder<H>, commands: seq<Command>)
    requires commands != [] && AdmissibleRun(r, commands)
    ensures Admissible(r, commands[0])
    ensures Handled(machine, r, commands[0]).Some? ==>
              AdmissibleRun(Handled(machine, r, commands[0]).value, commands[1..])
  {
    match commands[0] {
      case StartRecording(_) =>
      case StopRecording =>
      case DeleteEntry(name) => DeletedUses(r, name);
      case DeleteAllEntries =>
      case Container(c) =>
        if c.dataType == UserSpace && r.task.Active? && Processed(machine, r, c).Some? {
          RecordedUses(machine, r, r.store.current.value, c);
        }
    }
  }

  lemma InvPreserved<H>(machine: Machine<H>, r: Recorder<H>, command: Command)
    requires Inv(machine, r) && Admissible(r, command)
    ensures Handled(machine, r, command).Some? && Inv(machine, Handled(machine, r, command).value)
  {
    match command {
      case StartRecording(name) => StartKeepsInv(machine, r, name);
      case StopRecording => StopKeepsInv(machine, r);
      case DeleteEntry(name) => DeleteKeepsInv(machine, r, name);
      case DeleteAllEntries => DeleteAllKeepsInv(machine, r);
      case Container(c) => ProcessKeepsInv(machine, r, c);
    }
  }

  /** The recorder as it starts on a consistent store. */
  function Begin<H>(entries: Entries, files: Files): Recorder<H> {
    Recorder(Store(entries, None), files, Idle, Informational, [], [], map[],
             set i | 0 <= i < |entries| :: entries[i].name)
  }

  /**
   No run of commands panics, and after every run store, task and disk agree: the recorder is recording
   exactly when the store has a current entry, that entry is the last, its listed size is what was
   written, and every recording of the run holds its containers and their report.
   */
  lemma {:induction false} RunsKeepInv<H>(machine: Machine<H>, r: Recorder<H>, commands: seq<Command>)
    requires Inv(machine, r) && AdmissibleRun(r, commands)
    ensures RunAll(machine, r, commands).Some? && Inv(machine, RunAll(machine, r, commands).value)
    decreases |commands|
  {
    if commands == [] {
    } else {
      AdmissibleStep(machine, r, commands);
      InvPreserved(machine, r, commands[0]);
      RunsKeepInv(machine, Handled(machine, r, commands[0]).value, commands[1..]);
    }
  }

  lemma BeginHasInv<H>(machine: Machine<H>, entries: Entries, files: Files)
    requires Distinct(entries) && |entries| <= USIZE_VALUES
    requires Consistent(files) && ManifestOf(files) == entries
    ensures Inv(machine, Begin<H>(entries, files))
  {
  }

  // ---- What happens to a recording from some point of a run on ----

  /** The recording has lost nothing. */
  predicate Extends(before: Files, after: Files, name: Name) {
    && At(before, QmdlFile(name)).Some? && At(before, QmdlFile(name)).value.Recording?
    && At(after, QmdlFile(name)).Some? && At(after, QmdlFile(name)).value.Recording?
    && At(before, QmdlFile(name)).value.bytes <= At(after, QmdlFile(name)).value.bytes
  }

  /** Entry i at r was deleted by the time of z, or its file only grew and, if it was closed, it is as it was. */
  predicate Kept<H>(r: Recorder<H>, i: nat, z: Recorder<H>)
    requires i < |r.store.entries|
  {
    var e := r.store.entries[i];
    e.name in z.used &&
    (Listed(z.store.entries, e.name) ==>
       && Extends(r.files, z.files, e.name)
       && (r.store.current != Some(i) ==>
             && SameFilesOf(r.files, z.files, e.name)
             && exists j | 0 <= j < |z.store.entries| :: z.store.entries[j] == e && z.store.current != Some(j)))
  }

  lemma EntryExtends<H>(machine: Machine<H>, r: Recorder<H>, files: Files, i: nat)
    requires Inv(machine, r) && i < |r.store.entries| && SameFilesOf(r.files, files, r.store.entries[i].name)
    ensures Extends(r.files, files, r.store.entries[i].name)
  {
    SameFiles(machine, r, files, i);
    WholeSlice(r.files[QmdlFile(r.store.entries[i].name)].bytes);
  }

  lemma StartKeeps<H>(machine: Machine<H>, r: Recorder<H>, name: Name, i: nat)
    requires Inv(machine, r) && Admissible(r, StartRecording(name)) && i < |r.store.entries|
    ensures Kept(r, i, Started(machine, r, name))
  {
    var after := Started(machine, r, name);
    AfterNewEntry(r.files, name, after.store.entries);
    EntryExtends(machine, r, after.files, i);
    assert after.store.entries[i] == r.store.entries[i];
  }

  lemma StopKeeps<H>(machine: Machine<H>, r: Recorder<H>, i: nat)
    requires Inv(machine, r) && i < |r.store.entries|
    ensures Kept(r, i, StoppedNow(r))
  {
    EntryExtends(machine, r, r.files, i);
  }

  /** Where an entry is after another was deleted; if it was not current it still is not. */
  lemma DeletedMoves(s: Store, p: nat, i: nat) returns (j: nat)
    requires p < |s.entries| && i < |s.entries| && i != p && s.current != Some(p) && |s.entries| <= USIZE_VALUES
    requires s.current.Some? ==> s.current.value == |s.entries| - 1
    ensures var after := Deleted(s, p);
            && j < |after.entries| && after.entries[j] == s.entries[i]
            && (s.current != Some(i) ==> after.current != Some(j))
  {
    j := if i < p then i else i - 1;
  }

  lemma RemoveKeeps<H>(machine: Machine<H>, r: Recorder<H>, p: nat, i: nat)
    requires Inv(machine, r) && p < |r.store.entries| && r.store.current != Some(p) && i < |r.store.entries|
    ensures var store, name := Deleted(r.store, p), r.store.entries[p].name;
            Kept(r, i, r.(store := store, files := AfterOps(r.files, DeleteEntryOps(name, store.entries))))
  {
    var store, name := Deleted(r.store, p), r.store.entries[p].name;
    if i == p {
      DeletedDistinct(r.store, p);
    } else {
      var files := AfterOps(r.files, DeleteEntryOps(name, store.entries));
      var j := DeletedMoves(r.store, p, i);
      AfterDeleteEntry(r.files, name, store.entries);
      assert r.store.entries[i].name != name;
      EntryExtends(machine, r, files, i);
    }
  }

  lemma DeleteKeeps<H>(machine: Machine<H>, r: Recorder<H>, name: Name, i: nat)
    requires Inv(machine, r) && i < |r.store.entries|
    ensures Kept(r, i, EntryDeleted(r, name))
  {
    var stopped := if IsCurrent(r.store, name) then StoppedNow(r) else r;
    var position := PositionOf(stopped.store.entries, name);
    StopKeeps(machine, r, i);
    EntryExtends(machine, r, r.files, i);
    StopKeepsInv(machine, r);
    if position.Some? {
      NotCurrentPosition(stopped.store, stopped.task, name);
      RemoveKeeps(machine, stopped, position.value, i);
    }
  }

  lemma RecordKeeps<H>(machine: Machine<H>, r: Recorder<H>, c: MessagesContainer, i: nat)
    requires Inv(machine, r) && r.task.Active? && i < |r.store.entries|
    ensures Kept(r, i, Recorded(machine, r, r.store.current.value, c))
  {
    var name, last := r.task.name, |r.store.entries| - 1;
    var after := Recorded(machine, r, last, c);
    var rows := machine.analyze(r.task.harness, c).1;
    SameFiles(machine, r, r.files, last);
    ProcessFiles(r.files, name, Concat(Datas(c.messages)), after.store.entries, Reported(rows));
    if i == last {
      assert Extends(r.files, after.files, name);
    } else {
      assert r.store.entries[i].name != r.store.entries[last].name;
      EntryExtends(machine, r, after.files, i);
      assert after.store.entries[i] == r.store.entries[i];
    }
  }

  lemma ProcessKeeps<H>(machine: Machine<H>, r: Recorder<H>, c: MessagesContainer, i: nat)
    requires Inv(machine, r) && i < |r.store.entries| && Processed(machine, r, c).Some?
    ensures Kept(r, i, Processed(machine, r, c).value)
  {
    if c.dataType == UserSpace && r.task.Active? {
      RecordKeeps(machine, r, c, i);
    } else {
      EntryExtends(machine, r, r.files, i);
    }
  }

  lemma CommandKeeps<H>(machine: Machine<H>, r: Recorder<H>, command: Command, i: nat)
    requires Inv(machine, r) && Admissible(r, command) && i < |r.store.entries| && Handled(machine, r, command).Some?
    ensures Kept(r, i, Handled(machine, r, command).value)
  {
    match command {
      case StartRecording(name) => StartKeeps(machine, r, name, i);
      case StopRecording => StopKeeps(machine, r, i);
      case DeleteEntry(name) => DeleteKeeps(machine, r, name, i);
      case DeleteAllEntries =>
      case Container(c) => ProcessKeeps(machine, r, c, i);
    }
  }

  /** A name that is used and not listed is not listed again. */
  lemma StaysUnlisted<H>(machine: Machine<H>, r: Recorder<H>, command: Command, name: Name)
    requires Inv(machine, r) && Admissible(r, command) && Handled(machine, r, command).Some?
    requires name in r.used && !Listed(r.store.entries, name)
    ensures var after := Handled(machine, r, command).value; name in after.used && !Listed(after.store.entries, name)
  {
    match command {
      case StartRecording(_) =>
      case StopRecording =>
      case DeleteEntry(deleted) => DeletedUses(r, deleted);
      case DeleteAllEntries =>
      case Container(c) =>
        if c.dataType == UserSpace && r.task.Active? && Processed(machine, r, c).Some? {
          RecordedUses(machine, r, r.store.current.value, c);
        }
    }
  }

  /**
   From any reachable state on, whatever happens: an entry that stays listed loses no byte of its
   recording, and one that was closed keeps its size and its files unchanged.
   */
  lemma {:induction false} RunKeeps<H>(machine: Machine<H>, r: Recorder<H>, commands: seq<Command>, i: nat)
    requires Inv(machine, r) && AdmissibleRun(r, commands) && i < |r.store.entries|
    ensures RunAll(machine, r, commands).Some? && Kept(r, i, RunAll(machine, r, commands).value)
    decreases |commands|
  {
    RunsKeepInv(machine, r, commands);
    if commands == [] {
      EntryExtends(machine, r, r.files, i);
    } else {
      var e := r.store.entries[i];
      AdmissibleStep(machine, r, commands);
      InvPreserved(machine, r, commands[0]);
      CommandKeeps(machine, r, commands[0], i);
      var next := Handled(machine, r, commands[0]).value;
      if Listed(next.store.entries, e.name) {
        var j :| 0 <= j < |next.store.entries| && next.store.entries[j].name == e.name
                 && (r.store.current != Some(i) ==> next.store.entries[j] == e && next.store.current != Some(j));
        RunKeeps(machine, next, commands[1..], j);
      } else {
        RunStaysUnlisted(machine, next, commands[1..], e.name);
      }
    }
  }

  lemma {:induction false} RunStaysUnlisted<H>(machine: Machine<H>, r: Recorder<H>, commands: seq<Command>, name: Name)
    requires Inv(machine, r) && AdmissibleRun(r, commands)
    requires name in r.used && !Listed(r.store.entries, name)
    ensures RunAll(machine, r, commands).Some?
    ensures var z := RunAll(machine, r, commands).value; name in z.used && !Listed(z.store.entries, name)
    decreases |commands|
  {
    RunsKeepInv(machine, r, commands);
    if commands == [] {
    } else {
      AdmissibleStep(machine, r, commands);
      InvPreserved(machine, r, commands[0]);
      StaysUnlisted(machine, r, commands[0], name);
      RunStaysUnlisted(machine, Handled(machine, r, commands[0]).value, commands[1..], name);
    }
  }

  /**
   Snapshot reads: a reader that took the listed size of a recording at some point gets, whenever it
   reads the file later, exactly the messages of the containers finished at that point, if and only if
   forgetting their structure is harmless, and they ended between two frames or nothing was added since.
   */
  lemma SnapshotReads<H>(machine: Machine<H>, r: Recorder<H>, commands: seq<Command>, i: nat)
    requires Inv(machine, r) && AdmissibleRun(r, commands) && i < |r.store.entries|
    requires r.store.entries[i].name in r.history
    requires RunAll(machine, r, commands).Some?
    requires Listed(RunAll(machine, r, commands).value.store.entries, r.store.entries[i].name)
    ensures var e, z := r.store.entries[i], RunAll(machine, r, commands).value;
            var datas := AllDatas(r.history[e.name]);
            && At(z.files, QmdlFile(e.name)).Some? && At(z.files, QmdlFile(e.name)).value.Recording?
            && var later := At(z.files, QmdlFile(e.name)).value.bytes;
               && e.qmdlSizeBytes <= |later|
               && (Qmdl.MessagesRead(later, e.qmdlSizeBytes) == AllMessages(r.history[e.name])
                   <==> Harmless(datas) && (Closed(Concat(datas)) || |later| == e.qmdlSizeBytes))
  {
    var e, z := r.store.entries[i], RunAll(machine, r, commands).value;
    var file := Concat(AllDatas(r.history[e.name]));
    RunKeeps(machine, r, commands, i);
    SameFiles(machine, r, r.files, i);
    var later := At(z.files, QmdlFile(e.name)).value.bytes;
    assert At(r.files, QmdlFile(e.name)) == Some(Recording(file)) && file <= later;
    assert later[..|file|] == file;
    CutInTwo(later, |file|);
    Qmdl.SnapshotOfContainersIff(r.history[e.name], later[|file|..]);
  }
}
