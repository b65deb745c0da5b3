/**
 Whole runs of the recorder, told from the commands alone: which recording is on and what it has been
 given, who is warned and told of finished recordings, which names are listed, and whose files are gone.
 */
module Sessions {
  import opened Wrappers
  import opened Events
  import opened Seqs
  import opened Frames
  import opened Containers
  import opened Harness
  import opened Reports
  import opened Disks
  import opened Store
  import opened Recorder

  // ---- The session ----

  /** No recording is on, or the one of that name, which has been given these containers. */
  datatype Session = Off | On(name: Name, containers: seq<MessagesContainer>)

  function Continued(s: Session, command: Command): Session {
    match command
    case StartRecording(name) => On(name, [])
    case StopRecording => Off
    case DeleteEntry(name) => if s.On? && s.name == name then Off else s
    case DeleteAllEntries => Off
    case Container(c) => if s.On? && c.dataType == UserSpace then On(s.name, s.containers + [c]) else s
  }

  function SessionAfter(s: Session, commands: seq<Command>): Session
    decreases |commands|
  {
    if commands == [] then s else SessionAfter(Continued(s, commands[0]), commands[1..])
  }

  // ---- Warnings ----

  /** The rows of what a command adds to the recording that is on. */
  function NewRows<H>(machine: Machine<H>, s: Session, command: Command): seq<AnalysisRow> {
    if command.Container? && s.On? && command.container.dataType == UserSpace
    then machine.analyze(Live(machine, s.containers).0, command.container).1 else []
  }

  /** Event i of row j has that severity. */
  predicate Says(rows: seq<AnalysisRow>, j: int, i: int, t: EventType) {
    && 0 <= j < |rows| && 0 <= i < |rows[j].events|
    && rows[j].events[i].Some? && rows[j].events[i].value.eventType == t
  }

  ghost predicate Warns(rows: seq<AnalysisRow>) {
    exists j, i, t :: Says(rows, j, i, t) && t != Informational
  }

  /** The highest severity of the rows. */
  ghost predicate IsSeverity(rows: seq<AnalysisRow>, t: EventType) {
    && (exists j, i :: Says(rows, j, i, t))
    && forall j, i, u :: Says(rows, j, i, u) ==> u.Rank() <= t.Rank()
  }

  /** One notice, in order, for every container that warns while a recording is on, and no other notice. */
  ghost predicate NoticesOf<H>(machine: Machine<H>, s: Session, commands: seq<Command>, notices: seq<EventType>)
    decreases |commands|
  {
    if commands == [] then notices == []
    else
      var rows, next := NewRows(machine, s, commands[0]), Continued(s, commands[0]);
      if Warns(rows) then
        notices != [] && IsSeverity(rows, notices[0]) && NoticesOf(machine, next, commands[1..], notices[1..])
      else NoticesOf(machine, next, commands[1..], notices)
  }

  /** The highest of a severity and those of the notices. */
  predicate IsHighest(before: EventType, notices: seq<EventType>, t: EventType) {
    && (t == before || t in notices)
    && before.Rank() <= t.Rank() && forall u | u in notices :: u.Rank() <= t.Rank()
  }

  // ---- Announcements and names ----

  /** A recording is announced as finished when a stop or a deletion finds it on. */
  function Announces(s: Session, command: Command): seq<Name> {
    match command
    case StartRecording(_) => []
    case StopRecording => if s.On? then [s.name] else []
    case DeleteEntry(name) => if s.On? && s.name == name then [name] else []
    case DeleteAllEntries => if s.On? then [s.name] else []
    case Container(_) => []
  }

  function AnnouncedBy(s: Session, commands: seq<Command>): seq<Name>
    decreases |commands|
  {
    if commands == [] then []
    else Announces(s, commands[0]) + AnnouncedBy(Continued(s, commands[0]), commands[1..])
  }

  function NamesOf(entries: Entries): (r: seq<Name>)
    ensures |r| == |entries|
  {
    seq(|entries|, i requires 0 <= i < |entries| => entries[i].name)
  }

  function Except(names: seq<Name>, name: Name): seq<Name> {
    if names == [] then []
    else (if names[0] == name then [] else [names[0]]) + Except(names[1..], name)
  }

  function Renamed(names: seq<Name>, command: Command): seq<Name> {
    match command
    case StartRecording(name) => names + [name]
    case StopRecording => names
    case DeleteEntry(name) => Except(names, name)
    case DeleteAllEntries => []
    case Container(_) => names
  }

  function NamesAfter(names: seq<Name>, commands: seq<Command>): seq<Name>
    decreases |commands|
  {
    if commands == [] then names else NamesAfter(Renamed(names, commands[0]), commands[1..])
  }

  /** A recording that is not listed any more has no file left. */
  ghost predicate NoLeftovers<H>(r: Recorder<H>) {
    forall name | name in r.used && !Listed(r.store.entries, name) :: NoFiles(r.files, name)
  }

  // ---- One command ----

  /** The recorder is in that session. */
  predicate Tracks<H(==)>(machine: Machine<H>, r: Recorder<H>, s: Session) {
    match s
    case Off => r.task.Idle?
    case On(name, cs) =>
      && r.task.Active? && r.task.name == name && r.task.harness == Live(machine, cs).0
      && name in r.history && r.history[name] == cs
  }

  lemma WarnsIffWorst(rows: seq<AnalysisRow>)
    ensures Warns(rows) <==> MaxOfRows(rows) != Informational
    ensures Warns(rows) ==> IsSeverity(rows, MaxOfRows(rows))
  {
    var worst := MaxOfRows(rows);
    MaxOfRowsIsMaximum(rows);
    forall j, i, t | Says(rows, j, i, t)
      ensures t.Rank() <= worst.Rank()
    {
      MaxTypeIsMaximum(rows[j].events);
      assert rows[j] in rows;
    }
    if worst != Informational {
      var j :| 0 <= j < |rows| && rows[j].GetMaxEventType() == worst;
      MaxTypeIsMaximum(rows[j].events);
      var i :| 0 <= i < |rows[j].events| && rows[j].events[i].Some? && rows[j].events[i].value.eventType == worst;
      assert Says(rows, j, i, worst);
    }
  }

  lemma NoRowsWarnNot()
    ensures !Warns([])
  {
  }

  /** What one command does to the warnings and announcements. */
  ghost predicate Tells<H>(machine: Machine<H>, r: Recorder<H>, s: Session, command: Command, z: Recorder<H>) {
    var rows := NewRows(machine, s, command);
    && Tracks(machine, z, Continued(s, command))
    && z.announced == r.announced + Announces(s, command)
    && z.notified == r.notified + (if Warns(rows) then [MaxOfRows(rows)] else [])
    && z.maxTypeSeen == Max(r.maxTypeSeen, if Warns(rows) then MaxOfRows(rows) else Informational)
  }

  lemma ContainerReports<H>(machine: Machine<H>, r: Recorder<H>, s: Session, c: MessagesContainer)
    requires Inv(machine, r) && Tracks(machine, r, s) && Processed(machine, r, c).Some?
    ensures Tells(machine, r, s, Container(c), Processed(machine, r, c).value)
  {
    WarnsIffWorst(NewRows(machine, s, Container(c)));
    assert r.announced + [] == r.announced && r.notified + [] == r.notified;
    if s.On? && c.dataType == UserSpace {
      LiveOneMore(machine, s.containers, c);
    }
  }

  lemma CommandReports<H>(machine: Machine<H>, r: Recorder<H>, s: Session, command: Command)
    requires Inv(machine, r) && Admissible(r, command) && Tracks(machine, r, s)
    ensures Handled(machine, r, command).Some?
    ensures Tells(machine, r, s, command, Handled(machine, r, command).value)
  {
    AgreePreserved(machine, r, command);
    NoRowsWarnNot();
    assert r.announced + [] == r.announced && r.notified + [] == r.notified;
    match command {
      case StartRecording(_) =>
      case StopRecording =>
      case DeleteEntry(_) =>
      case DeleteAllEntries =>
      case Container(c) => ContainerReports(machine, r, s, c);
    }
  }

  // ---- Names ----

  lemma {:induction false} ExceptAppend(a: seq<Name>, b: seq<Name>, name: Name)
    ensures Except(a + b, name) == Except(a, name) + Except(b, name)
  {
    if a == [] {
      assert a + b == b;
    } else {
      TailOfConcat(a, b);
      ExceptAppend(a[1..], b, name);
    }
  }

  lemma {:induction false} ExceptOthers(names: seq<Name>, name: Name)
    requires name !in names
    ensures Except(names, name) == names
  {
    if names == [] {
    } else {
      assert name !in names[1..];
      ExceptOthers(names[1..], name);
      assert [names[0]] + names[1..] == names;
    }
  }

  lemma ExceptMiddle(before: seq<Name>, name: Name, after: seq<Name>)
    requires name !in before && name !in after
    ensures Except(before + ([name] + after), name) == before + after
  {
    ExceptAppend(before, [name] + after, name);
    assert ([name] + after)[1..] == after;
    assert Except([name] + after, name) == [] + Except(after, name) == Except(after, name);
    ExceptOthers(before, name);
    ExceptOthers(after, name);
  }

  /** In a list without duplicates only entry i has its name. */
  lemma ExceptOne(entries: Entries, i: nat)
    requires Distinct(entries) && i < |entries|
    ensures Except(NamesOf(entries), entries[i].name) == NamesOf(Without(entries, i))
  {
    var names, name := NamesOf(entries), entries[i].name;
    var before, after := names[..i], names[i + 1..];
    assert forall j | 0 <= j < |names| && j != i :: names[j] != name;
    ExceptMiddle(before, name, after);
    assert names == before + ([name] + after);
    assert NamesOf(Without(entries, i)) == before + after;
  }

  lemma DeletedNames<H>(r: Recorder<H>, name: Name)
    requires Distinct(r.store.entries)
    ensures NamesOf(EntryDeleted(r, name).store.entries) == Except(NamesOf(r.store.entries), name)
  {
    var entries := r.store.entries;
    PositionFound(entries, name);
    match PositionOf(entries, name) {
      case None =>
        assert name !in NamesOf(entries);
        ExceptOthers(NamesOf(entries), name);
      case Some(i) => ExceptOne(entries, i);
    }
  }

  lemma CommandNames<H>(machine: Machine<H>, r: Recorder<H>, command: Command)
    requires Inv(machine, r) && Handled(machine, r, command).Some?
    ensures NamesOf(Handled(machine, r, command).value.store.entries) == Renamed(NamesOf(r.store.entries), command)
  {
    var entries := r.store.entries;
    match command {
      case StartRecording(name) =>
        assert NamesOf(Opened(r.store, name).entries) == NamesOf(entries) + [name];
      case DeleteEntry(name) => DeletedNames(r, name);
      case Container(c) =>
        assert NamesOf(Handled(machine, r, command).value.store.entries) == NamesOf(entries);
      case _ =>
    }
  }

  // ---- Files ----

  lemma ListedNames(entries: Entries, name: Name)
    ensures Listed(entries, name) <==> name in NamesOf(entries)
  {
    if Listed(entries, name) {
      var i :| 0 <= i < |entries| && entries[i].name == name;
      assert NamesOf(entries)[i] == name;
    }
  }

  /** Where both files are as before, or none is left, nothing is left over. */
  lemma LeftoversFrom<H>(r: Recorder<H>, z: Recorder<H>)
    requires NoLeftovers(r)
    requires forall name | name in z.used && !Listed(z.store.entries, name) ::
               NoFiles(z.files, name) || (name in r.used && !Listed(r.store.entries, name)
                                          && SameFilesOf(r.files, z.files, name))
    ensures NoLeftovers(z)
  {
    forall name | name in z.used && !Listed(z.store.entries, name)
      ensures NoFiles(z.files, name)
    {
      if SameFilesOf(r.files, z.files, name) && name in r.used && !Listed(r.store.entries, name) {
        assert NoFiles(r.files, name);
        assert At(r.files, QmdlFile(name)).None? && At(r.files, AnalysisFile(name)).None?;
      }
    }
  }

  lemma StartLeavesNothing<H>(machine: Machine<H>, r: Recorder<H>, name: Name)
    requires NoLeftovers(r)
    ensures NoLeftovers(Started(machine, r, name))
  {
    var z := Started(machine, r, name);
    AfterNewEntry(r.files, name, z.store.entries);
    assert NamesOf(z.store.entries) == NamesOf(r.store.entries) + [name];
    ListedNames(z.store.entries, name);
    forall other | other in z.used && !Listed(z.store.entries, other)
      ensures other in r.used && !Listed(r.store.entries, other) && SameFilesOf(r.files, z.files, other)
    {
      ListedNames(z.store.entries, other);
      ListedNames(r.store.entries, other);
    }
    LeftoversFrom(r, z);
  }

  lemma DeleteLeavesNothing<H>(r: Recorder<H>, name: Name)
    requires NoLeftovers(r) && Distinct(r.store.entries)
    ensures NoLeftovers(EntryDeleted(r, name))
  {
    var z := EntryDeleted(r, name);
    PositionFound(r.store.entries, name);
    if PositionOf(r.store.entries, name).Some? {
      AfterDeleteEntry(r.files, name, z.store.entries);
      DeletedNames(r, name);
      forall other | other in z.used && !Listed(z.store.entries, other) && other != name
        ensures other in r.used && !Listed(r.store.entries, other) && SameFilesOf(r.files, z.files, other)
      {
        ListedNames(z.store.entries, other);
        ListedNames(r.store.entries, other);
        ExceptKeeps(NamesOf(r.store.entries), name, other);
      }
      LeftoversFrom(r, z);
    }
  }

  lemma {:induction false} ExceptKeeps(names: seq<Name>, name: Name, other: Name)
    requires other != name
    ensures other in names <==> other in Except(names, name)
  {
    if names == [] {
    } else {
      ExceptKeeps(names[1..], name, other);
    }
  }

  lemma DeleteAllLeavesNothing<H>(r: Recorder<H>)
    requires NoLeftovers(r)
    ensures NoLeftovers(AllDeleted(r))
  {
    var z := AllDeleted(r);
    AfterDeleteAll(r.files, r.store.entries);
    forall name | name in z.used
      ensures NoFiles(z.files, name) || (!Listed(r.store.entries, name) && SameFilesOf(r.files, z.files, name))
    {
    }
    LeftoversFrom(r, z);
  }

  lemma ResizedNames(s: Store, i: nat, size: nat)
    requires i < |s.entries|
    ensures forall name :: Listed(Resized(s, i, size).entries, name) <==> Listed(s.entries, name)
  {
    assert NamesOf(Resized(s, i, size).entries) == NamesOf(s.entries);
    forall name
      ensures Listed(Resized(s, i, size).entries, name) <==> Listed(s.entries, name)
    {
      ListedNames(Resized(s, i, size).entries, name);
      ListedNames(s.entries, name);
    }
  }

  /** Only files of a name that is listed have changed. */
  lemma GrowthLeavesNothing<H>(r: Recorder<H>, z: Recorder<H>, grown: Name)
    requires NoLeftovers(r) && z.used == r.used && Listed(r.store.entries, grown)
    requires forall name :: Listed(z.store.entries, name) <==> Listed(r.store.entries, name)
    requires forall name | name != grown :: SameFilesOf(r.files, z.files, name)
    ensures NoLeftovers(z)
  {
    LeftoversFrom(r, z);
  }

  lemma RecordFiles<H>(machine: Machine<H>, r: Recorder<H>, c: MessagesContainer)
    requires Inv(machine, r) && r.task.Active?
    ensures var z := Recorded(machine, r, r.store.current.value, c);
            forall name | name != r.task.name :: SameFilesOf(r.files, z.files, name)
  {
    var last, bytes := |r.store.entries| - 1, Concat(Datas(c.messages));
    SameFiles(machine, r, r.files, last);
    ProcessFiles(r.files, r.task.name, bytes, Resized(r.store, last, r.task.totalWritten + |bytes|).entries,
                 Reported(machine.analyze(r.task.harness, c).1));
  }

  lemma RecordLeavesNothing<H>(machine: Machine<H>, r: Recorder<H>, c: MessagesContainer)
    requires Inv(machine, r) && NoLeftovers(r) && r.task.Active?
    ensures NoLeftovers(Recorded(machine, r, r.store.current.value, c))
  {
    var last, bytes := |r.store.entries| - 1, Concat(Datas(c.messages));
    RecordFiles(machine, r, c);
    ResizedNames(r.store, last, r.task.totalWritten + |bytes|);
    assert r.store.entries[last].name == r.task.name;
    GrowthLeavesNothing(r, Recorded(machine, r, last, c), r.task.name);
  }

  lemma ContainerLeavesNothing<H>(machine: Machine<H>, r: Recorder<H>, c: MessagesContainer)
    requires Inv(machine, r) && NoLeftovers(r) && Processed(machine, r, c).Some?
    ensures NoLeftovers(Processed(machine, r, c).value)
  {
    if c.dataType == UserSpace && r.task.Active? {
      RecordLeavesNothing(machine, r, c);
    }
  }

  lemma CommandLeavesNothing<H>(machine: Machine<H>, r: Recorder<H>, command: Command)
    requires Inv(machine, r) && NoLeftovers(r) && Handled(machine, r, command).Some?
    ensures NoLeftovers(Handled(machine, r, command).value)
  {
    match command {
      case StartRecording(name) => StartLeavesNothing(machine, r, name);
      case StopRecording =>
      case DeleteEntry(name) => DeleteLeavesNothing(r, name);
      case DeleteAllEntries => DeleteAllLeavesNothing(r);
      case Container(c) => ContainerLeavesNothing(machine, r, c);
    }
  }

  // ---- Runs ----

  /** What a run did, read off its commands. */
  ghost predicate RanAs<H>(machine: Machine<H>, r: Recorder<H>, s: Session, commands: seq<Command>, z: Recorder<H>) {
    && Tracks(machine, z, SessionAfter(s, commands))
    && z.announced == r.announced + AnnouncedBy(s, commands)
    && r.notified <= z.notified
    && NoticesOf(machine, s, commands, z.notified[|r.notified|..])
    && IsHighest(r.maxTypeSeen, z.notified[|r.notified|..], z.maxTypeSeen)
    && NamesOf(z.store.entries) == NamesAfter(NamesOf(r.store.entries), commands)
    && NoLeftovers(z)
  }

  lemma FirstNotice<H>(machine: Machine<H>, s: Session, commands: seq<Command>, before: seq<EventType>,
                       between: seq<EventType>, after: seq<EventType>)
    requires commands != [] && between <= after
    requires var rows := NewRows(machine, s, commands[0]);
             between == before + (if Warns(rows) then [MaxOfRows(rows)] else [])
    requires NoticesOf(machine, Continued(s, commands[0]), commands[1..], after[|between|..])
    ensures before <= after && NoticesOf(machine, s, commands, after[|before|..])
  {
    var rows := NewRows(machine, s, commands[0]);
    var later, all := after[|between|..], after[|before|..];
    WarnsIffWorst(rows);
    assert after == between + later;
    if Warns(rows) {
      assert after == before + ([MaxOfRows(rows)] + later);
      assert all == [MaxOfRows(rows)] + later;
      assert all[1..] == later;
    } else {
      assert all == later;
    }
  }

  lemma FirstHighest(before: EventType, notices: seq<EventType>, worst: EventType, later: seq<EventType>, t: EventType)
    requires IsHighest(Max(before, worst), later, t)
    requires notices == [worst] + later || (notices == later && worst == Informational)
    ensures IsHighest(before, notices, t)
  {
  }

  lemma FirstCommand<H>(machine: Machine<H>, r: Recorder<H>, s: Session, commands: seq<Command>, next: Recorder<H>,
                        z: Recorder<H>)
    requires commands != [] && RanAs(machine, next, Continued(s, commands[0]), commands[1..], z)
    requires Tells(machine, r, s, commands[0], next)
    requires NamesOf(next.store.entries) == Renamed(NamesOf(r.store.entries), commands[0])
    ensures RanAs(machine, r, s, commands, z)
  {
    var rows := NewRows(machine, s, commands[0]);
    var later, all := z.notified[|next.notified|..], z.notified[|r.notified|..];
    Associative(r.announced, Announces(s, commands[0]), AnnouncedBy(Continued(s, commands[0]), commands[1..]));
    FirstNotice(machine, s, commands, r.notified, next.notified, z.notified);
    if Warns(rows) {
      assert z.notified == next.notified + later;
      assert all == [MaxOfRows(rows)] + later;
      FirstHighest(r.maxTypeSeen, all, MaxOfRows(rows), later, z.maxTypeSeen);
    } else {
      FirstHighest(r.maxTypeSeen, all, Informational, later, z.maxTypeSeen);
    }
  }

  /**
   Every run, from any reachable state: the recorder ends in the session its commands lead to, has sent
   one notice for every container that warned while a recording was on and no other, has announced every
   recording that a stop or a deletion found on, lists the names started and not deleted, and has no file
   left of any name it once listed and does not list any more.
   */
  lemma {:induction false} RunReports<H>(machine: Machine<H>, r: Recorder<H>, s: Session, commands: seq<Command>)
    requires Inv(machine, r) && AdmissibleRun(r, commands) && Tracks(machine, r, s) && NoLeftovers(r)
    ensures RunAll(machine, r, commands).Some?
    ensures RanAs(machine, r, s, commands, RunAll(machine, r, commands).value)
    decreases |commands|
  {
    if commands == [] {
      assert r.announced + [] == r.announced && r.notified[|r.notified|..] == [];
    } else {
      AdmissibleStep(machine, r, commands);
      InvPreserved(machine, r, commands[0]);
      CommandReports(machine, r, s, commands[0]);
      CommandNames(machine, r, commands[0]);
      CommandLeavesNothing(machine, r, commands[0]);
      var next := Handled(machine, r, commands[0]).value;
      RunReports(machine, next, Continued(s, commands[0]), commands[1..]);
      FirstCommand(machine, r, s, commands, next, RunAll(machine, r, commands).value);
    }
  }

  /** So it is from the start, with whatever recordings the store had. */
  lemma RunFromStart<H>(machine: Machine<H>, entries: Entries, files: Files, commands: seq<Command>)
    requires Distinct(entries) && Consistent(files) && ManifestOf(files) == entries
    requires AdmissibleRun(Begin<H>(entries, files), commands)
    ensures RunAll(machine, Begin<H>(entries, files), commands).Some?
    ensures RanAs(machine, Begin<H>(entries, files), Off, commands,
                  RunAll(machine, Begin<H>(entries, files), commands).value)
  {
    var r := Begin<H>(entries, files);
    assert |entries| <= USIZE_VALUES;
    BeginHasInv(machine, entries, files);
    RunReports(machine, r, Off, commands);
  }

  /** While a recording is on, its files hold the containers it was given and their report, and it is listed last. */
  lemma SessionOnDisk<H>(machine: Machine<H>, r: Recorder<H>, s: Session)
    requires Inv(machine, r) && Tracks(machine, r, s) && s.On?
    ensures var bytes, n := Concat(AllDatas(s.containers)), |r.store.entries|;
            && n > 0 && r.store == Store(r.store.entries, Some(n - 1))
            && r.store.entries[n - 1] == ManifestEntry(s.name, |bytes|)
            && At(r.files, QmdlFile(s.name)) == Some(Recording(bytes))
            && At(r.files, AnalysisFile(s.name)) == Some(Report(Reported(Live(machine, s.containers).1)))
  {
    var last := |r.store.entries| - 1;
    assert Holds(machine, r.files, r.store.entries[last], r.history[s.name]);
  }
}
