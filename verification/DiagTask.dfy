/** The recorder as it runs: it holds the open files and the store, and changes both as commands come in. */
module DiagTasks {
  import opened Wrappers
  import opened Events
  import opened Frames
  import opened Containers
  import opened Reports
  import opened Disks
  import opened Store
  import opened Recorder
  import opened RecordingStores
  import Qmdl

  datatype DiagState<!H> =
    | Stopped
    | Recording(qmdlWriter: Qmdl.QmdlWriter, analysisWriter: AnalysisWriter<H>)

  lemma RetainedUsed<H>(r: Recorder<H>, keep: seq<bool>)
    requires NamesUsed(r) && |keep| == |r.store.entries|
    ensures NamesIn(Retained(r.store.entries, keep), r.used)
  {
    var kept := Retained(r.store.entries, keep);
    forall i | 0 <= i < |kept|
      ensures kept[i].name in r.used
    {
      assert Listed(kept, kept[i].name);
      RetainedListed(r.store.entries, keep, kept[i].name);
    }
  }

  class DiagTask<!H> {
    const machine: Machine<H>
    const store: RecordingStore
    var state: DiagState<H>
    var maxTypeSeen: EventType
    var announced: seq<Name>
    var notified: seq<EventType>
    ghost var history: map<Name, seq<MessagesContainer>>
    ghost var used: set<Name>

    ghost function Open(): set<object>
      reads this
    {
      if state.Stopped? then {}
      else {state.qmdlWriter, state.analysisWriter}
    }

    ghost predicate Valid()
      reads this, Open()
    {
      state.Recording? ==>
        && state.qmdlWriter.disk == store.disk && state.analysisWriter.disk == store.disk
        && state.qmdlWriter.path.QmdlFile?
        && state.analysisWriter.path == AnalysisFile(state.qmdlWriter.path.name)
        && state.analysisWriter.machine == machine
    }

    ghost function TaskModel(): Task<H>
      requires Valid()
      reads this, Open()
    {
      if state.Stopped? then Idle
      else Active(state.qmdlWriter.path.name, state.qmdlWriter.totalWritten, state.analysisWriter.harness)
    }

    ghost function Model(): Recorder<H>
      requires Valid()
      reads this, store, store.disk, Open()
    {
      Recorder(store.Model(), store.disk.files, TaskModel(), maxTypeSeen, announced, notified, history, used)
    }

    /** The store is sound, and memory and disk list only names that count as used. */
    ghost predicate Safe()
      reads this`used, store, store.disk
    {
      SafeOn(store.disk.files, store.entries, used)
    }

    constructor (machine: Machine<H>, store: RecordingStore)
      ensures store.Sound() && ManifestOf(store.disk.files) == store.entries ==> Safe()
      ensures Valid() && this.machine == machine && this.store == store && Open() == {}
      ensures store.currentEntry.None? ==> Model() == Begin(store.entries, store.disk.files)
    {
      this.machine := machine;
      this.store := store;
      state := Stopped;
      maxTypeSeen := Informational;
      announced, notified := [], [];
      history := map[];
      used := set i | 0 <= i < |store.entries| :: store.entries[i].name;
    }

    /** Gives the report back to the disk; the open files are dropped. */
    method StopCurrentRecording()
      requires Valid()
      modifies this`state
      ensures Valid() && state == Stopped
    {
      state := Stopped;
    }

    /** Opens a new entry, then leaves the files of the previous recording, if any. */
    method Start(name: Name) returns (ok: bool)
      requires Valid()
      modifies this, store, store.disk
      ensures ok ==> Valid() && fresh(Open()) && Model() == Started(machine, old(Model()), name)
      ensures store.disk.NeverFails() ==> ok
      ensures old(Safe()) && name !in old(used) ==> Consistent(store.disk.files) && (ok ==> Safe())
    {
      ghost var safe, files := Safe() && name !in used, store.disk.files;
      ghost var entries := Opened(store.Model(), name).entries;
      assert safe ==> !Listed(store.entries, name) && !Listed(ManifestOf(files), name);
      var r := store.NewEntry(name);
      if safe {
        OpeningLists(files, name, entries, store.disk.files, r.Ok?, used + {name});
      }
      if r.Err? {
        return false;
      }
      StopCurrentRecording();
      var qmdlWriter := new Qmdl.QmdlWriter(store.disk, QmdlFile(name), 0);
      var analysisWriter := new AnalysisWriter(store.disk, AnalysisFile(name), machine);
      state := DiagState.Recording(qmdlWriter, analysisWriter);
      history := history[name := []];
      used := used + {name};
      ok := true;
    }

    /** Stops, announces the recording that was current as finished, and closes its entry. */
    method Stop() returns (ok: bool)
      requires Valid()
      modifies this, store
      ensures Valid() && state == Stopped
      ensures ok <==> !Dangling(old(store.Model()))
      ensures ok ==> Model() == StoppedNow(old(Model()))
    {
      StopCurrentRecording();
      if store.currentEntry.Some? {
        if store.currentEntry.value >= |store.entries| {
          return false;
        }
        announced := announced + [store.entries[store.currentEntry.value].name];
      }
      var _ := store.CloseCurrentEntry();
      ok := true;
    }

    /** Deletes an entry, stopping first if it is the current one. */
    method Delete(name: Name) returns (r: Result<(), StoreError>)
      requires Valid()
      modifies this, store, store.disk
      ensures Valid() && Open() <= old(Open())
      ensures var deleted := EntryDeleted(old(Model()), name);
              && Model() == deleted.(files := store.disk.files)
              && (r.Ok? || r == Err(NoSuchEntry) ==> Model() == deleted)
      ensures store.disk.NeverFails() ==> r.Ok? || r == Err(NoSuchEntry)
      ensures used == old(used) && (old(Safe()) ==> Safe())
    {
      ghost var safe, files, entries := Safe(), store.disk.files, store.entries;
      if store.IsCurrentEntry(name) {
        var _ := Stop();
      }
      r := store.DeleteEntry(name);
      if safe && r != Err(NoSuchEntry) {
        DeletingLists(files, entries, PositionOf(entries, name).value, name, store.disk.files, r.Ok?, used);
      }
    }

    /** Stops and deletes every entry; None is a panic. */
    method DeleteAll() returns (r: Option<Result<(), StoreError>>, ghost keep: seq<bool>)
      requires Valid()
      modifies this, store, store.disk
      ensures Valid() && state == Stopped
      ensures r.None? <==> Dangling(old(store.Model()))
      ensures r.None? ==> store.disk.files == old(store.disk.files)
      ensures r.Some? ==>
                && |keep| == |old(store.entries)| && store.Model() == Store(Retained(old(store.entries), keep), None)
                && Model() == AllDeleted(old(Model())).(store := store.Model(), files := store.disk.files)
                && (r.value.Ok? && true !in keep ==> Model() == AllDeleted(old(Model())))
                && (store.disk.NeverFails() ==> r.value.Ok? && true !in keep)
    {
      var ok := Stop();
      if !ok {
        return None, [];
      }
      var deleted;
      deleted, keep := store.DeleteAllEntries();
      r := Some(deleted);
    }

    /** Writes a container and accounts its bytes to the current entry; false is a panic. */
    method Write(c: MessagesContainer) returns (ok: bool)
      requires Valid() && state.Recording?
      modifies state.qmdlWriter, store`entries, store.disk
      ensures Valid()
      ensures ok ==>
                && CurrentEntry(old(store.Model())).Some?
                && var bytes := Concat(Datas(c.messages));
                   && state.qmdlWriter.totalWritten == old(state.qmdlWriter.totalWritten) + |bytes|
                   && store.Model() == Resized(old(store.Model()), old(store.currentEntry).value,
                                               old(state.qmdlWriter.totalWritten) + |bytes|)
                   && store.disk.files == AfterOps(Appended(old(store.disk.files), state.qmdlWriter.path, bytes),
                                                   WriteManifestOps(store.entries))
      ensures store.disk.NeverFails() && CurrentEntry(old(store.Model())).Some? ==> ok
      ensures old(Safe()) && Agree(old(store.Model()), old(TaskModel())) ==> Safe()
    {
      ghost var before, total := store.Model(), state.qmdlWriter.totalWritten + |Concat(Datas(c.messages))|;
      ghost var safe, files := Safe() && Agree(before, TaskModel()), store.disk.files;
      ghost var path := state.qmdlWriter.path;
      ok := state.qmdlWriter.WriteContainer(c);
      ghost var bytes :|
        store.disk.files == Appended(files, path, bytes) && (ok ==> bytes == Concat(Datas(c.messages)));
      if safe {
        GrowingIsSafe(files, before.entries, used, path, bytes, []);
      }
      if !ok || store.currentEntry.None? || store.currentEntry.value >= |store.entries| {
        return false;
      }
      SameSize(before, store.currentEntry.value, state.qmdlWriter.totalWritten, total);
      var updated := store.UpdateEntryQmdlSize(store.currentEntry.value, state.qmdlWriter.totalWritten);
      if safe {
        ResizingIsSafe(files, before, before.current.value, bytes, total, used, store.disk.files, updated.Ok?);
      }
      ok := updated.Ok?;
    }

    /** Writes a container, accounts its bytes to the current entry, and analyzes it; None is a panic. */
    method Record(c: MessagesContainer) returns (r: Option<EventType>)
      requires Valid() && state.Recording?
      modifies state.qmdlWriter, state.analysisWriter, store`entries, store.disk
      ensures Valid()
      ensures r.Some? ==>
                && CurrentEntry(old(store.Model())).Some?
                && var after := Recorded(machine, old(Model()), old(store.currentEntry).value, c);
                   && store.Model() == after.store && store.disk.files == after.files && TaskModel() == after.task
                   && r.value == MaxOfRows(machine.analyze(old(state.analysisWriter.harness), c).1)
      ensures store.disk.NeverFails() && CurrentEntry(old(store.Model())).Some? ==> r.Some?
      ensures old(Safe()) && Agree(old(store.Model()), old(TaskModel())) ==> Safe()
    {
      var ok := Write(c);
      if !ok {
        return None;
      }
      ghost var files := store.disk.files;
      var analyzed := state.analysisWriter.Analyze(c);
      ghost var rows :| store.disk.files == AppendedRows(files, state.analysisWriter.path, rows);
      if old(Safe()) && Agree(old(store.Model()), old(TaskModel())) {
        GrowingIsSafe(files, store.entries, used, state.analysisWriter.path, [], rows);
      }
      r := if analyzed.Ok? then Some(analyzed.value) else None;
    }

    /** Records and analyzes a container from user space while recording, and warns; skips any other. */
    method ProcessContainer(c: MessagesContainer) returns (ok: bool)
      requires Valid()
      modifies this, store, store.disk, Open()
      ensures Valid() && Open() == old(Open())
      ensures ok ==> Some(Model()) == Processed(machine, old(Model()), c)
      ensures store.disk.NeverFails() && Processed(machine, old(Model()), c).Some? ==> ok
      ensures used == old(used) && (old(Safe()) && Agree(old(store.Model()), old(TaskModel())) ==> Safe())
    {
      if c.dataType != UserSpace || state.Stopped? {
        return true;
      }
      var r := Record(c);
      if r.None? {
        return false;
      }
      if r.value.Rank() > Informational.Rank() {
        notified := notified + [r.value];
      }
      if r.value.Rank() > maxTypeSeen.Rank() {
        maxTypeSeen := r.value;
      }
      ghost var name := state.qmdlWriter.path.name;
      history := history[name := (if name in history then history[name] else []) + [c]];
      ok := true;
    }

    /** What a command leads to: a panic, a failed deletion, or what the specification says. */
    method Handle(command: Command) returns (panicked: bool, failed: bool)
      requires Valid() && Agree(store.Model(), TaskModel()) && NamesUsed(Model()) && Admissible(Model(), command)
      modifies this, store, store.disk, Open()
      ensures !panicked ==>
                && Valid() && (forall o | o in Open() :: o in old(Open()) || fresh(o))
                && Agree(store.Model(), TaskModel()) && NamesUsed(Model())
                && used == (if command.StartRecording? then old(used) + {command.name} else old(used))
                && |store.entries| <= |old(store.entries)| + 1
      ensures !panicked && !failed ==> Some(Model()) == Handled(machine, old(Model()), command)
      ensures store.disk.NeverFails() ==> !panicked && !failed
      ensures old(Safe()) && !command.DeleteAllEntries? ==> Consistent(store.disk.files) && (!panicked ==> Safe())
    {
      panicked, failed := false, false;
      ghost var before := Model();
      AgreePreserved(machine, before, command);
      match command {
        case StartRecording(name) =>
          var ok := Start(name);
          panicked := !ok;
        case StopRecording =>
          var ok := Stop();
          panicked := !ok;
        case DeleteEntry(name) =>
          DeleteKeepsAgree(before, name);
          DeletedUses(before, name);
          var r := Delete(name);
          failed := r.Err? && r != Err(NoSuchEntry);
        case DeleteAllEntries =>
          var r, keep := DeleteAll();
          if r.None? {
            return true, false;
          }
          RetainedDistinct(before.store.entries, keep);
          RetainedUsed(before, keep);
          failed := r.value.Err? || store.entries != [];
        case Container(c) =>
          if c.dataType == UserSpace && before.task.Active? {
            RecordedUses(machine, before, before.store.current.value, c);
          }
          var ok := ProcessContainer(c);
          panicked := !ok;
      }
    }

    /**
     Handles commands in turn until one panics. Unless an I/O operation failed, the outcome is that of
     the specification; even after failed deletions, store and task are in agreement. And whatever
     fails, panic or not, without a command to delete everything the disk stays consistent.
     */
    method RunCommands(commands: seq<Command>) returns (panicked: bool, failed: bool)
      requires Valid() && Agree(store.Model(), TaskModel()) && NamesUsed(Model()) && AdmissibleRun(Model(), commands)
      modifies this, store, store.disk, Open()
      ensures !panicked ==> Valid() && Agree(store.Model(), TaskModel())
      ensures !panicked && !failed ==> Some(Model()) == RunAll(machine, old(Model()), commands)
      ensures store.disk.NeverFails() ==> !panicked && !failed
      ensures old(Safe()) && DeleteAllEntries !in commands ==> Consistent(store.disk.files)
    {
      panicked, failed := false, false;
      for i := 0 to |commands|
        invariant Valid() && forall o | o in Open() :: o in old(Open()) || fresh(o)
        invariant Agree(store.Model(), TaskModel()) && NamesUsed(Model()) && AdmissibleRun(Model(), commands[i..])
        invariant !failed ==> RunAll(machine, Model(), commands[i..]) == RunAll(machine, old(Model()), commands)
        invariant store.disk.NeverFails() ==> !failed
        invariant old(Safe()) && DeleteAllEntries !in commands ==> Safe()
      {
        assert commands[i..][0] == commands[i] && commands[i..][1..] == commands[i + 1..];
        AdmissibleStep(machine, Model(), commands[i..]);
        var lost, failedNow := Handle(commands[i]);
        if lost {
          return true, failed;
        }
        failed := failed || failedNow;
      }
    }
  }
}
