/**
 The analysis queue: request handlers queue names and wake the analysis thread over a channel; the
 thread counts the queue, then takes and analyzes that many names. Handlers, the thread, the recorder
 and the shutdown thread share two locks and two channels. A section that holds a lock without waiting
 for anything is one step; where a party waits while it holds a lock, the step is split. Steps of all
 parties interleave freely.
 */
module AnalysisQueue {
  import opened Wrappers
  import opened Seqs
  import opened Disks

  // ---- The shared status ----

  datatype Status = Status(queued: seq<Name>, running: Option<Name>, finished: seq<Name>)

  predicate Waits(s: Status, name: Name) {
    name in s.queued || s.running == Some(name)
  }

  /** Queues the first of the names that is neither queued nor running; the others are not looked at. */
  function QueuedFirst(s: Status, names: seq<Name>): (r: Option<Status>)
    ensures r.Some? ==> r.value.queued != []
  {
    if names == [] then None
    else if Waits(s, names[0]) then QueuedFirst(s, names[1..])
    else Some(s.(queued := s.queued + [names[0]]))
  }

  /** Names before i are queued or running, and name i is neither. Whether it was finished does not matter. */
  predicate IsFirstFree(queued: seq<Name>, running: Option<Name>, names: seq<Name>, i: int) {
    && 0 <= i < |names| && names[i] !in queued && running != Some(names[i])
    && forall j | 0 <= j < i :: names[j] in queued || running == Some(names[j])
  }

  predicate AllTaken(queued: seq<Name>, running: Option<Name>, names: seq<Name>) {
    forall j | 0 <= j < |names| :: names[j] in queued || running == Some(names[j])
  }

  lemma {:induction false} FirstFreeQueued(s: Status, names: seq<Name>, i: nat)
    requires IsFirstFree(s.queued, s.running, names, i)
    ensures QueuedFirst(s, names) == Some(Status(s.queued + [names[i]], s.running, s.finished))
    decreases i
  {
    if i == 0 {
    } else {
      assert names[0] in s.queued || s.running == Some(names[0]);
      assert forall j | 0 <= j < i - 1 :: names[1..][j] == names[j + 1];
      FirstFreeQueued(s, names[1..], i - 1);
    }
  }

  lemma {:induction false} NoneQueued(s: Status, names: seq<Name>)
    requires AllTaken(s.queued, s.running, names)
    ensures QueuedFirst(s, names).None?
  {
    if names == [] {
    } else {
      assert names[0] in s.queued || s.running == Some(names[0]);
      assert forall j | 0 <= j < |names| - 1 :: names[1..][j] == names[j + 1];
      NoneQueued(s, names[1..]);
    }
  }

  lemma FirstFreeOrNone(s: Status, names: seq<Name>) returns (i: nat)
    ensures if i < |names| then IsFirstFree(s.queued, s.running, names, i) else AllTaken(s.queued, s.running, names)
  {
    i := 0;
    while i < |names| && (names[i] in s.queued || s.running == Some(names[i]))
      invariant i <= |names|
      invariant forall j | 0 <= j < i :: names[j] in s.queued || s.running == Some(names[j])
    {
      i := i + 1;
    }
  }

  function Dequeued(s: Status): Status
    requires s.queued != []
  {
    Status(s.queued[1..], Some(s.queued[0]), s.finished)
  }

  function Finished(s: Status): Status
    requires s.running.Some?
  {
    Status(s.queued, None, s.finished + [s.running.value])
  }

  function Marked(s: Status, name: Name): Status {
    s.(finished := s.finished + [name])
  }

  class AnalysisStatus {
    var queued: seq<Name>
    var running: Option<Name>
    var finished: seq<Name>

    ghost function Model(): Status
      reads this
    {
      Status(queued, running, finished)
    }

    constructor (existing: seq<Name>)
      ensures Model() == Status([], None, existing)
    {
      queued, running, finished := [], None, existing;
    }

    /** An empty queue or a running analysis makes this panic. */
    method DequeueToRunning() returns (name: Name)
      requires queued != [] && running.None?
      modifies this
      ensures Model() == Dequeued(old(Model())) && running == Some(name)
    {
      name := queued[0];
      queued := queued[1..];
      running := Some(name);
    }

    method FinishRunningAnalysis()
      requires running.Some?
      modifies this
      ensures Model() == Finished(old(Model()))
    {
      finished := finished + [running.value];
      running := None;
    }

    method MarkFinished(name: Name)
      modifies this`finished
      ensures Model() == Marked(old(Model()), name)
    {
      finished := finished + [name];
    }

    method QueueQmdl(name: Name) returns (added: bool)
      modifies this`queued
      ensures added <==> name !in old(queued) && running != Some(name)
      ensures queued == old(queued) + if added then [name] else []
    {
      if name in queued || running == Some(name) {
        return false;
      }
      queued := queued + [name];
      added := true;
    }

    /** Tries the names in turn until one was queued. */
    method QueueAny(names: seq<Name>) returns (added: bool)
      modifies this`queued
      ensures added <==> QueuedFirst(old(Model()), names).Some?
      ensures Model() == if added then QueuedFirst(old(Model()), names).value else old(Model())
      ensures added ==> exists i :: IsFirstFree(old(queued), running, names, i) && queued == old(queued) + [names[i]]
      ensures !added <==> AllTaken(old(queued), running, names)
    {
      ghost var first := FirstFreeOrNone(Model(), names);
      if first < |names| {
        FirstFreeQueued(Model(), names, first);
      } else {
        NoneQueued(Model(), names);
      }
      for i := 0 to |names|
        invariant Model() == old(Model())
        invariant QueuedFirst(Model(), names) == QueuedFirst(Model(), names[i..])
      {
        added := QueueQmdl(names[i]);
        assert names[i..][1..] == names[i + 1..];
        assert queued + [] == queued;
        if added {
          return;
        }
      }
      added := false;
    }
  }

  // ---- The parties ----

  datatype Message = NewFilesQueued | RecordingFinished(name: Name) | Exit

  const CHANNEL_CAPACITY: nat := 5

  /** Commands to the recorder, as far as they matter here: only some can announce a recording. */
  datatype Control = MayAnnounce | Silent | ExitTask

  const CONTROL_CAPACITY: nat := 1

  /** Where the analysis thread stands; remaining counts the names it still means to take. */
  datatype Thread =
    | Receiving
    | AboutToCount
    | Working(remaining: nat)
    | AboutToOpen(remaining: nat)
    | Analyzing(remaining: nat)
    | AboutToMark(name: Name)
    | Gone

  /** A request handler holds the status lock first alone, then the store lock, for reading, with it. */
  datatype Handler = Idle | HasStatus(names: seq<Name>) | Sending

  /** The recorder holds the store lock while it carries out a command or takes in a container. */
  datatype Task = Listening | WantsStore(mayAnnounce: bool) | Announcing(name: Name) | HoldsStore | TaskGone

  /** The shutdown thread holds the store lock while it tells the others to exit. */
  datatype Shutdown = NotYet | ExitingTask | ExitingThread | Over

  /**
   The logs record what was ever queued, taken and analyzed, and what was announced to the thread and
   marked finished without analysis.
   */
  datatype State = State(
    status: Status, channel: seq<Message>, control: seq<Control>,
    thread: Thread, handler: Handler, task: Task, shutdown: Shutdown,
    everQueued: seq<Name>, everTaken: seq<Name>, everAnalyzed: seq<Name>,
    everAnnounced: seq<Name>, everMarked: seq<Name>)

  datatype Action =
    | Request(names: seq<Name>) | QueueNames | SendNewFiles
    | Command(control: Control) | Container | TakeCommand | TakeStore(announce: Option<Name>) | Announce
    | ReleaseStore | TaskFails
    | Signal | SendExitToTask | SendExitToThread
    | Receive | Count | Dequeue | Open | Finish | EndLoop | Mark

  function Slots(s: State): int {
    CHANNEL_CAPACITY - |s.channel|
  }

  /** A send to a thread that is gone fails at once. */
  predicate CanSend(s: State) {
    Slots(s) > 0 || s.thread.Gone?
  }

  predicate StatusHeld(s: State) {
    !s.handler.Idle?
  }

  predicate TaskWrites(s: State) {
    s.task.Announcing? || s.task.HoldsStore?
  }

  predicate ShutdownWrites(s: State) {
    s.shutdown.ExitingTask? || s.shutdown.ExitingThread?
  }

  /** The store lock is held for writing. */
  predicate StoreWritten(s: State) {
    TaskWrites(s) || ShutdownWrites(s)
  }

  predicate StoreFree(s: State) {
    !StoreWritten(s) && !s.handler.Sending?
  }

  predicate Enabled(s: State, a: Action) {
    match a
    case Request(_) => s.handler.Idle?
    case QueueNames => s.handler.HasStatus? && !StoreWritten(s)
    case SendNewFiles => s.handler.Sending? && CanSend(s)
    case Command(c) => !s.task.TaskGone? && |s.control| < CONTROL_CAPACITY && c != ExitTask
    case Container => s.task.Listening?
    case TakeCommand => s.task.Listening? && s.control != []
    case TakeStore(announce) => s.task.WantsStore? && StoreFree(s) && (announce.Some? ==> s.task.mayAnnounce)
    case Announce => s.task.Announcing? && CanSend(s)
    case ReleaseStore => s.task.HoldsStore?
    case TaskFails => s.task.Listening? || s.task.HoldsStore?
    case Signal => s.shutdown.NotYet? && StoreFree(s)
    case SendExitToTask => s.shutdown.ExitingTask? && (s.task.TaskGone? || |s.control| < CONTROL_CAPACITY)
    case SendExitToThread => s.shutdown.ExitingThread? && CanSend(s)
    case Receive => s.thread.Receiving? && s.channel != []
    case Count => s.thread.AboutToCount? && !StatusHeld(s)
    case Dequeue => s.thread.Working? && s.thread.remaining > 0 && !StatusHeld(s)
    case Open => s.thread.AboutToOpen? && StoreFree(s)
    case Finish => s.thread.Analyzing? && !StatusHeld(s)
    case EndLoop => s.thread == Working(0)
    case Mark => s.thread.AboutToMark? && !StatusHeld(s)
  }

  function Sent(s: State, m: Message): State {
    if s.thread.Gone? then s else s.(channel := s.channel + [m])
  }

  function Received(m: Message): Thread {
    match m
    case NewFilesQueued => AboutToCount
    case RecordingFinished(name) => AboutToMark(name)
    case Exit => Gone
  }

  function Queued(s: State): State
    requires s.handler.HasStatus?
  {
    match QueuedFirst(s.status, s.handler.names)
    case None => s.(handler := Idle)
    case Some(status) =>
      s.(status := status, handler := Sending,
         everQueued := s.everQueued + [status.queued[|status.queued| - 1]])
  }

  /** The state after an enabled action, or None for a panic of the analysis thread. */
  function Next(s: State, a: Action): Option<State>
    requires Enabled(s, a)
  {
    match a
    case Request(names) => Some(s.(handler := HasStatus(names)))
    case QueueNames => Some(Queued(s))
    case SendNewFiles => Some(Sent(s, NewFilesQueued).(handler := Idle))
    case Command(c) => Some(s.(control := s.control + [c]))
    case Container => Some(s.(task := WantsStore(false)))
    case TakeCommand =>
      var c := s.control[0];
      Some(s.(control := s.control[1..], task := if c.ExitTask? then TaskGone else WantsStore(c.MayAnnounce?)))
    case TakeStore(announce) => Some(s.(task := if announce.Some? then Announcing(announce.value) else HoldsStore))
    case Announce =>
      Some(Sent(s, RecordingFinished(s.task.name)).(
             task := HoldsStore, everAnnounced := s.everAnnounced + if s.thread.Gone? then [] else [s.task.name]))
    case ReleaseStore => Some(s.(task := Listening))
    case TaskFails => Some(s.(task := TaskGone))
    case Signal => Some(s.(shutdown := ExitingTask))
    case SendExitToTask =>
      // without a receiver the shutdown thread panics, which releases its lock
      if s.task.TaskGone? then Some(s.(shutdown := Over))
      else Some(s.(control := s.control + [ExitTask], shutdown := ExitingThread))
    case SendExitToThread => Some(Sent(s, Exit).(shutdown := Over))
    case Receive => Some(s.(channel := s.channel[1..], thread := Received(s.channel[0])))
    case Count => Some(s.(thread := Working(|s.status.queued|)))
    case Dequeue =>
      if s.status.queued == [] || s.status.running.Some? then None
      else Some(s.(status := Dequeued(s.status), thread := AboutToOpen(s.thread.remaining - 1),
                   everTaken := s.everTaken + [s.status.queued[0]]))
    case Open => Some(s.(thread := Analyzing(s.thread.remaining)))
    case Finish =>
      if s.status.running.None? then None
      else Some(s.(status := Finished(s.status), thread := Working(s.thread.remaining),
                   everAnalyzed := s.everAnalyzed + [s.status.running.value]))
    case EndLoop => Some(s.(thread := Receiving))
    case Mark =>
      Some(s.(status := Marked(s.status, s.thread.name), thread := Receiving,
              everMarked := s.everMarked + [s.thread.name]))
  }

  function Begin(existing: seq<Name>): State {
    State(Status([], None, existing), [], [], Receiving, Idle, Listening, NotYet, [], [], [], [], [])
  }

  /** Any schedule: actions that are not enabled when their turn comes do not happen. */
  function Run(s: State, schedule: seq<Action>): Option<State> {
    if schedule == [] then Some(s)
    else
      var before :- Run(s, schedule[..|schedule| - 1]);
      var a := schedule[|schedule| - 1];
      if Enabled(before, a) then Next(before, a) else Some(before)
  }

  // ---- Safety ----

  function Remaining(t: Thread): nat {
    if t.Working? || t.AboutToOpen? || t.Analyzing? then t.remaining else 0
  }

  function InProgress(s: State): seq<Name> {
    if s.status.running.Some? then [s.status.running.value] else []
  }

  /** The recordings announced by the messages, in order. */
  function Announced(channel: seq<Message>): seq<Name> {
    if channel == [] then []
    else (if channel[0].RecordingFinished? then [channel[0].name] else []) + Announced(channel[1..])
  }

  function Marking(t: Thread): seq<Name> {
    if t.AboutToMark? then [t.name] else []
  }

  lemma {:induction false} AnnouncedAppend(a: seq<Message>, b: seq<Message>)
    ensures Announced(a + b) == Announced(a) + Announced(b)
  {
    if a == [] {
      assert a + b == b;
    } else {
      TailOfConcat(a, b);
      AnnouncedAppend(a[1..], b);
    }
  }

  lemma AnnouncedOne(m: Message)
    ensures Announced([m]) == if m.RecordingFinished? then [m.name] else []
  {
    assert [m][1..] == [] && Announced([]) == [];
  }

  /** No name is queued twice, or queued while it runs. */
  predicate NoDuplicates(s: Status) {
    && (forall i, j | 0 <= i < j < |s.queued| :: s.queued[i] != s.queued[j])
    && (s.running.Some? ==> s.running.value !in s.queued)
  }

  /** The thread will look at the queue again. */
  predicate WillCount(s: State) {
    NewFilesQueued in s.channel || s.thread.AboutToCount? || s.handler.Sending?
  }

  ghost predicate QueueInv(s: State, existing: seq<Name>) {
    && (s.status.running.Some? <==> s.thread.AboutToOpen? || s.thread.Analyzing?)
    && Remaining(s.thread) <= |s.status.queued|
    && NoDuplicates(s.status)
    && s.everQueued == s.everTaken + s.status.queued
    && s.everTaken == s.everAnalyzed + InProgress(s)
    && multiset(s.status.finished) == multiset(existing) + multiset(s.everAnalyzed) + multiset(s.everMarked)
    && (|s.status.queued| > Remaining(s.thread) ==> WillCount(s) || s.thread.Gone?)
  }

  /** Announced recordings are marked finished in order, and none is lost before the thread is told to exit. */
  predicate AnnounceInv(s: State) {
    if s.thread.Gone? then s.everMarked <= s.everAnnounced
    else s.everAnnounced == s.everMarked + (Marking(s.thread) + Announced(s.channel))
  }

  /** The store lock has one writer or the reading handler, and no channel holds more than it can. */
  predicate LockInv(s: State) {
    && !(TaskWrites(s) && ShutdownWrites(s))
    && (s.handler.Sending? ==> !StoreWritten(s))
    && |s.channel| <= CHANNEL_CAPACITY && |s.control| <= CONTROL_CAPACITY
  }

  ghost predicate Inv(s: State, existing: seq<Name>) {
    QueueInv(s, existing) && AnnounceInv(s) && LockInv(s)
  }

  lemma {:induction false} QueuedFirstAdds(s: Status, names: seq<Name>)
    requires NoDuplicates(s) && QueuedFirst(s, names).Some?
    ensures var after := QueuedFirst(s, names).value;
            && NoDuplicates(after) && after.running == s.running && after.finished == s.finished
            && |after.queued| == |s.queued| + 1 && after.queued == s.queued + [after.queued[|s.queued|]]
            && after.queued[|s.queued|] in names
    decreases |names|
  {
    if Waits(s, names[0]) {
      QueuedFirstAdds(s, names[1..]);
    } else {
      assert names[0] in names;
    }
  }

  lemma QueueSafe(s: State, existing: seq<Name>)
    requires QueueInv(s, existing) && s.handler.HasStatus?
    ensures QueueInv(Queued(s), existing)
  {
    if QueuedFirst(s.status, s.handler.names).Some? {
      QueuedFirstAdds(s.status, s.handler.names);
      var status := QueuedFirst(s.status, s.handler.names).value;
      Associative(s.everTaken, s.status.queued, [status.queued[|s.status.queued|]]);
    }
  }

  /** Every message leads the thread where it should. */
  lemma ReceiveLeads(s: State)
    requires Enabled(s, Receive)
    ensures var t := Next(s, Receive).value;
            match s.channel[0]
            case NewFilesQueued => t.thread == AboutToCount
            case RecordingFinished(name) => t.thread == AboutToMark(name)
            case Exit => t.thread == Gone && forall a | MovesThread(a) :: !Enabled(t, a)
  {
  }

  lemma ReceiveSafe(s: State, existing: seq<Name>)
    requires QueueInv(s, existing) && Enabled(s, Receive)
    ensures QueueInv(Next(s, Receive).value, existing)
  {
    assert s.channel == [s.channel[0]] + s.channel[1..];
  }

  lemma DequeueSafe(s: State, existing: seq<Name>)
    requires QueueInv(s, existing) && Enabled(s, Dequeue)
    ensures Next(s, Dequeue).Some? && QueueInv(Next(s, Dequeue).value, existing)
  {
    var queue := s.status.queued;
    assert queue == [queue[0]] + queue[1..];
    Associative(s.everTaken, [queue[0]], queue[1..]);
    assert s.everTaken == s.everAnalyzed + [] == s.everAnalyzed;
  }

  lemma FinishSafe(s: State, existing: seq<Name>)
    requires QueueInv(s, existing) && Enabled(s, Finish)
    ensures Next(s, Finish).Some? && QueueInv(Next(s, Finish).value, existing)
  {
    var name := s.status.running.value;
    assert s.everAnalyzed + [name] + [] == s.everAnalyzed + [name];
    assert multiset(s.status.finished + [name]) == multiset(s.status.finished) + multiset{name};
    assert multiset(s.everAnalyzed + [name]) == multiset(s.everAnalyzed) + multiset{name};
  }

  lemma MarkSafe(s: State, existing: seq<Name>)
    requires QueueInv(s, existing) && Enabled(s, Mark)
    ensures QueueInv(Next(s, Mark).value, existing)
  {
    var name := s.thread.name;
    assert multiset(s.status.finished + [name]) == multiset(s.status.finished) + multiset{name};
    assert multiset(s.everMarked + [name]) == multiset(s.everMarked) + multiset{name};
  }

  lemma SendKeepsAnnounced(s: State, m: Message)
    ensures Announced(s.channel + [m]) == Announced(s.channel) + (if m.RecordingFinished? then [m.name] else [])
    ensures var before := Marking(s.thread) + Announced(s.channel);
            m.RecordingFinished? ==>
              s.everMarked + (Marking(s.thread) + (Announced(s.channel) + [m.name])) == s.everMarked + before + [m.name]
  {
    AnnouncedAppend(s.channel, [m]);
    AnnouncedOne(m);
  }

  lemma StepSafeForAnnouncements(s: State, a: Action)
    requires AnnounceInv(s) && Enabled(s, a) && Next(s, a).Some?
    ensures AnnounceInv(Next(s, a).value)
  {
    match a {
      case SendNewFiles => SendKeepsAnnounced(s, NewFilesQueued);
      case Announce => SendKeepsAnnounced(s, RecordingFinished(s.task.name));
      case SendExitToThread => SendKeepsAnnounced(s, Exit);
      case Receive =>
        assert s.channel == [s.channel[0]] + s.channel[1..];
        assert Marking(s.thread) + Announced(s.channel) == Announced(s.channel);
      case Mark =>
        Associative(s.everMarked, [s.thread.name], Announced(s.channel));
        assert [] + Announced(s.channel) == Announced(s.channel);
      case _ =>
    }
  }

  lemma StepSafeForLocks(s: State, a: Action)
    requires LockInv(s) && Enabled(s, a) && Next(s, a).Some?
    ensures LockInv(Next(s, a).value)
  {
  }

  lemma StepSafeForQueue(s: State, a: Action, existing: seq<Name>)
    requires QueueInv(s, existing) && Enabled(s, a)
    ensures Next(s, a).Some? && QueueInv(Next(s, a).value, existing)
  {
    match a {
      case QueueNames => QueueSafe(s, existing);
      case Receive => ReceiveSafe(s, existing);
      case Dequeue => DequeueSafe(s, existing);
      case Finish => FinishSafe(s, existing);
      case Mark => MarkSafe(s, existing);
      case _ =>
    }
  }

  /** No action panics, and each keeps the invariant. */
  lemma StepSafe(s: State, a: Action, existing: seq<Name>)
    requires Inv(s, existing) && Enabled(s, a)
    ensures Next(s, a).Some? && Inv(Next(s, a).value, existing)
  {
    StepSafeForQueue(s, a, existing);
    StepSafeForLocks(s, a);
    StepSafeForAnnouncements(s, a);
  }

  /**
   A request for a name that is neither queued nor running queues it and goes on to wake the thread, even
   if the name is finished; of several names the first such is taken; without one nothing happens.
   */
  lemma RequestLeads(s: State, i: nat)
    requires s.handler.HasStatus?
    ensures IsFirstFree(s.status.queued, s.status.running, s.handler.names, i) && Enabled(s, QueueNames) ==>
              var name := s.handler.names[i];
              Next(s, QueueNames) == Some(s.(status := s.status.(queued := s.status.queued + [name]),
                                             handler := Sending, everQueued := s.everQueued + [name]))
    ensures AllTaken(s.status.queued, s.status.running, s.handler.names) && Enabled(s, QueueNames) ==>
              Next(s, QueueNames) == Some(s.(handler := Idle))
  {
    if IsFirstFree(s.status.queued, s.status.running, s.handler.names, i) {
      FirstFreeQueued(s.status, s.handler.names, i);
    }
    if AllTaken(s.status.queued, s.status.running, s.handler.names) {
      NoneQueued(s.status, s.handler.names);
    }
  }

  lemma {:induction false} RunKeepsInv(s: State, schedule: seq<Action>, existing: seq<Name>)
    requires Inv(s, existing)
    ensures Run(s, schedule).Some? && Inv(Run(s, schedule).value, existing)
  {
    if schedule == [] {
    } else {
      var n := |schedule| - 1;
      RunKeepsInv(s, schedule[..n], existing);
      var before := Run(s, schedule[..n]).value;
      if Enabled(before, schedule[n]) {
        StepSafe(before, schedule[n], existing);
      }
    }
  }

  /**
   Safety of every schedule: dequeuing never meets an empty queue or a running analysis, no name waits
   twice, names are taken in the order they were queued, each name taken is analyzed and finished once,
   and whenever more names are queued than the thread means to take, it will count again.
   */
  lemma RunSafe(existing: seq<Name>, schedule: seq<Action>)
    ensures Run(Begin(existing), schedule).Some? && Inv(Run(Begin(existing), schedule).value, existing)
  {
    RunKeepsInv(Begin(existing), schedule, existing);
  }

  // ---- When the analysis thread never moves again ----

  /** Whatever is done from here on, the analysis thread stays where it is. */
  ghost predicate NeverMoves(s: State) {
    forall schedule :: Run(s, schedule).Some? ==> Run(s, schedule).value.thread == s.thread
  }

  /**
   How many slots of the channel the writer of the store lock takes before it lets go of the lock;
   None if it never does, because the shutdown thread waits for a recorder that waits for the lock.
   */
  function WriterNeeds(s: State): Option<nat> {
    if s.task.Announcing? || s.shutdown.ExitingThread? then Some(1)
    else if s.shutdown.ExitingTask? && s.task.WantsStore? then
      if |s.control| < CONTROL_CAPACITY then Some(1) else None
    else Some(0)
  }

  /** There are not as many slots as the writer and the handler after it need. */
  predicate Short(s: State, more: nat) {
    WriterNeeds(s).None? || WriterNeeds(s).value + more > Slots(s)
  }

  /** While the thread stays where it is, the store lock is never free. */
  predicate StoreKept(s: State) {
    (s.handler.Sending? && Slots(s) == 0) || Short(s, 0)
  }

  /** While the thread stays where it is, the status lock is never free. */
  predicate StatusKept(s: State) {
    match s.handler
    case Idle => false
    case HasStatus(names) => Short(s, if QueuedFirst(s.status, names).Some? then 1 else 0)
    case Sending => Slots(s) == 0
  }

  predicate Starved(s: State) {
    match s.thread
    case Receiving => s.channel == [] && StoreKept(s)
    case AboutToOpen(_) => StoreKept(s)
    case Working(remaining) => remaining > 0 && StatusKept(s)
    case Gone => false
    case _ => StatusKept(s)
  }

  predicate MovesThread(a: Action) {
    a.Receive? || a.Count? || a.Dequeue? || a.Open? || a.Finish? || a.EndLoop? || a.Mark?
  }

  lemma StoreStaysKept(s: State, a: Action)
    requires LockInv(s) && !s.thread.Gone? && StoreKept(s) && Enabled(s, a) && !MovesThread(a)
    ensures StoreKept(Next(s, a).value)
    ensures s.channel == [] ==> Next(s, a).value.channel == []
  {
  }

  lemma StatusStaysKept(s: State, a: Action)
    requires LockInv(s) && !s.thread.Gone? && StatusKept(s) && Enabled(s, a) && !MovesThread(a)
    ensures StatusKept(Next(s, a).value)
  {
  }

  lemma StarvedStays(s: State, a: Action)
    requires LockInv(s) && Starved(s) && Enabled(s, a)
    ensures Next(s, a).Some? && Next(s, a).value.thread == s.thread && Starved(Next(s, a).value)
  {
    assert !MovesThread(a);
    if s.thread.Receiving? || s.thread.AboutToOpen? {
      StoreStaysKept(s, a);
    } else {
      StatusStaysKept(s, a);
    }
  }

  lemma {:induction false} StarvedNeverMoves(s: State, schedule: seq<Action>, existing: seq<Name>)
    requires Inv(s, existing) && Starved(s)
    ensures Run(s, schedule).Some? && Run(s, schedule).value.thread == s.thread && Starved(Run(s, schedule).value)
  {
    if schedule == [] {
    } else {
      var n := |schedule| - 1;
      StarvedNeverMoves(s, schedule[..n], existing);
      RunKeepsInv(s, schedule[..n], existing);
      var before := Run(s, schedule[..n]).value;
      if Enabled(before, schedule[n]) {
        StarvedStays(before, schedule[n]);
      }
    }
  }

  // ---- Schedules, one action at a time ----

  /** One more action, enabled where the schedule so far leads. */
  lemma Then(start: State, schedule: seq<Action>, s: State, a: Action) returns (more: seq<Action>, next: State)
    requires Run(start, schedule) == Some(s) && LockInv(s) && Enabled(s, a) && Next(s, a).Some?
    ensures more == schedule + [a] && Run(start, more) == Some(next)
    ensures Next(s, a) == Some(next) && LockInv(next)
  {
    more := schedule + [a];
    WithoutLast(schedule, a);
    StepSafeForLocks(s, a);
    next := Next(s, a).value;
  }

  /** The recorder, having written the store, lets go of it. */
  lemma FreeTask(start: State, schedule: seq<Action>, s: State) returns (more: seq<Action>, t: State)
    requires Run(start, schedule) == Some(s) && LockInv(s) && !s.thread.Gone? && TaskWrites(s) && !Short(s, 0)
    ensures Run(start, more) == Some(t) && LockInv(t) && !StoreWritten(t)
    ensures t.thread == s.thread && t.handler == s.handler && t.status == s.status
    ensures Slots(t) == Slots(s) - WriterNeeds(s).value
  {
    more, t := schedule, s;
    if t.task.Announcing? {
      more, t := Then(start, more, t, Announce);
    }
    more, t := Then(start, more, t, ReleaseStore);
  }

  /** So does the shutdown thread: past the recorder, which listens, is gone or leaves it a slot, to its end. */
  lemma FreeShutdown(start: State, schedule: seq<Action>, s: State) returns (more: seq<Action>, t: State)
    requires Run(start, schedule) == Some(s) && LockInv(s) && !s.thread.Gone? && ShutdownWrites(s) && !Short(s, 0)
    ensures Run(start, more) == Some(t) && LockInv(t) && !StoreWritten(t)
    ensures t.thread == s.thread && t.handler == s.handler && t.status == s.status
    ensures Slots(t) == Slots(s) - WriterNeeds(s).value
  {
    more, t := schedule, s;
    if t.task.Listening? && t.shutdown.ExitingTask? {
      more, t := Then(start, more, t, TaskFails);
    }
    if t.shutdown.ExitingTask? {
      more, t := Then(start, more, t, SendExitToTask);
    }
    if t.shutdown.ExitingThread? {
      more, t := Then(start, more, t, SendExitToThread);
    }
  }

  /** The writer of the store lock, if there is one, lets go of it if it finds the slots it needs. */
  lemma FreeStore(start: State, schedule: seq<Action>, s: State) returns (more: seq<Action>, t: State)
    requires Run(start, schedule) == Some(s) && LockInv(s) && !s.thread.Gone? && !Short(s, 0)
    ensures Run(start, more) == Some(t) && LockInv(t) && !StoreWritten(t)
    ensures t.thread == s.thread && t.handler == s.handler && t.status == s.status
    ensures Slots(t) == Slots(s) - WriterNeeds(s).value
  {
    if TaskWrites(s) {
      more, t := FreeTask(start, schedule, s);
    } else if ShutdownWrites(s) {
      more, t := FreeShutdown(start, schedule, s);
    } else {
      more, t := schedule, s;
    }
  }

  lemma {:induction false} LongerName(names: seq<Name>) returns (longer: Name)
    ensures forall name | name in names :: |name| < |longer|
  {
    if names == [] {
      longer := "a";
    } else {
      var other := LongerName(names[1..]);
      longer := other + names[0] + "a";
    }
  }

  lemma UnusedName(s: Status) returns (name: Name)
    ensures QueuedFirst(s, [name]).Some?
  {
    var names := s.queued + if s.running.Some? then [s.running.value] else [];
    name := LongerName(names);
    assert forall other | other in s.queued :: other in names;
    assert s.running.Some? ==> s.running.value == names[|s.queued|];
    assert !Waits(s, name);
  }

  /** With the store free, a handler gets a name queued and wakes the thread. */
  lemma WakeUp(start: State, schedule: seq<Action>, s: State) returns (more: seq<Action>, t: State)
    requires Run(start, schedule) == Some(s) && LockInv(s) && s.thread.Receiving?
    requires !StoreWritten(s) && !s.handler.Sending? && Slots(s) > 0
    ensures Run(start, more) == Some(t) && LockInv(t) && t.thread == s.thread && t.channel != []
  {
    more, t := schedule, s;
    if t.handler.HasStatus? {
      more, t := Then(start, more, t, QueueNames);
    }
    if t.handler.Idle? {
      var name := UnusedName(t.status);
      more, t := Then(start, more, t, Request([name]));
      more, t := Then(start, more, t, QueueNames);
    }
    more, t := Then(start, more, t, SendNewFiles);
  }

  /** The handler lets go of the status lock if it and the writer before it find the slots they need. */
  lemma FreeStatus(s: State) returns (more: seq<Action>, t: State)
    requires LockInv(s) && !s.thread.Gone? && !StatusKept(s)
    ensures Run(s, more) == Some(t) && LockInv(t) && t.thread == s.thread && t.handler.Idle?
  {
    more, t := [], s;
    if t.handler.HasStatus? {
      more, t := FreeStore(s, more, t);
      more, t := Then(s, more, t, QueueNames);
    }
    if t.handler.Sending? {
      more, t := Then(s, more, t, SendNewFiles);
    }
  }

  /** With the status lock free, a thread that needs it goes on. */
  lemma ThreadGoesOn(s: State, schedule: seq<Action>, t: State, existing: seq<Name>) returns (more: seq<Action>)
    requires Inv(s, existing) && Run(s, schedule) == Some(t) && t.handler.Idle?
    requires t.thread == s.thread && !s.thread.Gone? && !s.thread.Receiving? && !s.thread.AboutToOpen?
    ensures Run(s, more).Some? && Run(s, more).value.thread != s.thread
  {
    RunKeepsInv(s, schedule, existing);
    var a :=
      match s.thread
      case AboutToCount => Count
      case Working(remaining) => if remaining == 0 then EndLoop else Dequeue
      case Analyzing(_) => Finish
      case _ => Mark;
    StepSafe(t, a, existing);
    var next: State;
    more, next := Then(s, schedule, t, a);
  }

  lemma WakesUnlessStarved(s: State) returns (schedule: seq<Action>)
    requires LockInv(s) && s.thread.Receiving? && !Starved(s)
    ensures Run(s, schedule).Some? && Run(s, schedule).value.thread != s.thread
  {
    var t := s;
    schedule := [];
    if t.channel == [] && t.handler.Sending? {
      schedule, t := Then(s, schedule, t, SendNewFiles);
    } else if t.channel == [] {
      schedule, t := FreeStore(s, schedule, t);
      if t.channel == [] {
        schedule, t := WakeUp(s, schedule, t);
      }
    }
    schedule, t := Then(s, schedule, t, Receive);
  }

  lemma OpensUnlessStarved(s: State) returns (schedule: seq<Action>)
    requires LockInv(s) && s.thread.AboutToOpen? && !Starved(s)
    ensures Run(s, schedule).Some? && Run(s, schedule).value.thread != s.thread
  {
    var t := s;
    schedule := [];
    if t.handler.Sending? {
      schedule, t := Then(s, schedule, t, SendNewFiles);
    } else {
      schedule, t := FreeStore(s, schedule, t);
    }
    schedule, t := Then(s, schedule, t, Open);
  }

  lemma MovesUnlessStarved(s: State, existing: seq<Name>) returns (schedule: seq<Action>)
    requires Inv(s, existing) && !s.thread.Gone? && !Starved(s)
    ensures Run(s, schedule).Some? && Run(s, schedule).value.thread != s.thread
  {
    var t := s;
    if s.thread.Receiving? {
      schedule := WakesUnlessStarved(s);
    } else if s.thread.AboutToOpen? {
      schedule := OpensUnlessStarved(s);
    } else if s.thread == Working(0) {
      schedule, t := Then(s, [], s, EndLoop);
    } else {
      schedule, t := FreeStatus(s);
      schedule := ThreadGoesOn(s, schedule, t, existing);
    }
  }

  /**
   The analysis thread never moves again exactly when the lock it needs is kept: by a handler or a
   writer of the store that find too few slots in the channel, by a handler that waits for such a
   writer, or by a shutdown thread and a recorder that wait for each other.
   */
  lemma NeverMovesIff(s: State, existing: seq<Name>)
    requires Inv(s, existing) && !s.thread.Gone?
    ensures NeverMoves(s) <==> Starved(s)
  {
    if Starved(s) {
      forall schedule
        ensures Run(s, schedule).Some? && Run(s, schedule).value.thread == s.thread
      {
        StarvedNeverMoves(s, schedule, existing);
      }
    } else {
      var schedule := MovesUnlessStarved(s, existing);
      assert Run(s, schedule).value.thread != s.thread;
    }
  }

  // ---- And all of these happen ----

  /** The thread has taken the only name queued, everyone else is idle, and the channel is empty. */
  function Opening(): State {
    State(Status([], Some("a"), []), [], [], AboutToOpen(0), Idle, Listening, NotYet, ["a"], ["a"], [], [], [])
  }

  /** On the way there: the name is queued, and the handler is about to wake the thread. */
  lemma AskedReachable() returns (schedule: seq<Action>, s: State)
    ensures Run(Begin([]), schedule) == Some(s) && LockInv(s)
    ensures s == Begin([]).(status := Status(["a"], None, []), handler := Sending, everQueued := ["a"])
  {
    s := Begin([]);
    schedule := [];
    schedule, s := Then(Begin([]), schedule, s, Request(["a"]));
    RequestLeads(s, 0);
    schedule, s := Then(Begin([]), schedule, s, QueueNames);
  }

  lemma WokenReachable() returns (schedule: seq<Action>, s: State)
    ensures Run(Begin([]), schedule) == Some(s) && LockInv(s)
    ensures s == Begin([]).(status := Status(["a"], None, []), channel := [NewFilesQueued], everQueued := ["a"])
  {
    schedule, s := AskedReachable();
    schedule, s := Then(Begin([]), schedule, s, SendNewFiles);
  }

  lemma OpeningReachable() returns (schedule: seq<Action>)
    ensures Run(Begin([]), schedule) == Some(Opening())
  {
    var s: State;
    schedule, s := WokenReachable();
    schedule, s := Then(Begin([]), schedule, s, Receive);
    schedule, s := Then(Begin([]), schedule, s, Count);
    schedule, s := Then(Begin([]), schedule, s, Dequeue);
    assert s.channel == [] && s.status.queued == [] && s.everTaken == ["a"];
  }

  /** A recording is started and stopped; the recorder is about to announce it, with the store lock held. */
  lemma StopRecording(start: State, schedule: seq<Action>, s: State) returns (more: seq<Action>, t: State)
    requires Run(start, schedule) == Some(s) && LockInv(s)
    requires s.task.Listening? && s.control == [] && StoreFree(s)
    ensures Run(start, more) == Some(t) && LockInv(t) && t == s.(task := Announcing("r"))
  {
    more, t := schedule, s;
    more, t := Then(start, more, t, Command(Silent));
    more, t := Then(start, more, t, TakeCommand);
    more, t := Then(start, more, t, TakeStore(None));
    more, t := Then(start, more, t, ReleaseStore);
    more, t := Then(start, more, t, Command(MayAnnounce));
    more, t := Then(start, more, t, TakeCommand);
    more, t := Then(start, more, t, TakeStore(Some("r")));
    assert t.control == [];
  }

  /** Recordings that are started and stopped while the thread is busy fill the channel. */
  lemma {:induction false} FillChannel(start: State, schedule: seq<Action>, s: State)
    returns (more: seq<Action>, full: State)
    requires Run(start, schedule) == Some(s) && LockInv(s) && !s.thread.Gone?
    requires s.task.Listening? && s.control == [] && StoreFree(s)
    ensures Run(start, more) == Some(full) && LockInv(full)
    ensures Slots(full) == 0 && full == s.(channel := full.channel, everAnnounced := full.everAnnounced)
    decreases Slots(s)
  {
    more, full := schedule, s;
    if Slots(s) == 0 {
    } else {
      more, full := StopRecording(start, more, full);
      more, full := Then(start, more, full, Announce);
      more, full := Then(start, more, full, ReleaseStore);
      more, full := FillChannel(start, more, full);
    }
  }

  datatype Reason = HandlerSends | RecorderAnnounces | HandlerWaits | ShutdownSends | ShutdownWaits

  predicate Because(reason: Reason, s: State) {
    match reason
    case HandlerSends => s.handler.Sending? && s.thread.AboutToOpen?
    case RecorderAnnounces => s.task.Announcing? && s.handler.Idle? && s.thread.AboutToOpen?
    case HandlerWaits => s.handler.HasStatus? && s.task.Announcing? && s.thread.Analyzing?
    case ShutdownSends => s.shutdown.ExitingThread? && s.handler.Idle?
    case ShutdownWaits => s.shutdown.ExitingTask? && s.task.WantsStore? && s.channel == []
  }

  /** A schedule to a state in which the thread waits for ever, for that reason. */
  ghost predicate Witnesses(schedule: seq<Action>, reason: Reason) {
    var r := Run(Begin([]), schedule);
    r.Some? && Because(reason, r.value) && NeverMoves(r.value)
  }

  lemma StarvedWitnesses(schedule: seq<Action>, s: State, reason: Reason)
    requires Run(Begin([]), schedule) == Some(s) && Starved(s) && Because(reason, s)
    ensures exists schedule :: Witnesses(schedule, reason)
  {
    RunSafe([], schedule);
    NeverMovesIff(s, []);
    assert Witnesses(schedule, reason);
  }

  /** A handler that queued a name waits for a slot; it holds both locks. */
  lemma HandlerBlocks()
    ensures exists schedule :: Witnesses(schedule, HandlerSends)
  {
    var schedule := OpeningReachable();
    var s := Opening();
    schedule, s := FillChannel(Begin([]), schedule, s);
    schedule, s := Then(Begin([]), schedule, s, Request(["b"]));
    schedule, s := Then(Begin([]), schedule, s, QueueNames);
    StarvedWitnesses(schedule, s, HandlerSends);
  }

  /** The recorder waits for a slot while the thread waits for the store lock; no handler is involved. */
  lemma RecorderBlocks()
    ensures exists schedule :: Witnesses(schedule, RecorderAnnounces)
  {
    var schedule := OpeningReachable();
    var s := Opening();
    schedule, s := FillChannel(Begin([]), schedule, s);
    schedule, s := StopRecording(Begin([]), schedule, s);
    StarvedWitnesses(schedule, s, RecorderAnnounces);
  }

  /** A handler that waits for the recorder's store lock keeps the status lock from a thread that has finished. */
  lemma WaitingHandlerBlocks()
    ensures exists schedule :: Witnesses(schedule, HandlerWaits)
  {
    var schedule := OpeningReachable();
    var s := Opening();
    schedule, s := Then(Begin([]), schedule, s, Open);
    schedule, s := FillChannel(Begin([]), schedule, s);
    schedule, s := StopRecording(Begin([]), schedule, s);
    schedule, s := Then(Begin([]), schedule, s, Request([]));
    StarvedWitnesses(schedule, s, HandlerWaits);
  }

  /** The shutdown thread waits for a slot for its last message. */
  lemma ShutdownBlocks()
    ensures exists schedule :: Witnesses(schedule, ShutdownSends)
  {
    var schedule := OpeningReachable();
    var s := Opening();
    schedule, s := FillChannel(Begin([]), schedule, s);
    schedule, s := Then(Begin([]), schedule, s, Signal);
    schedule, s := Then(Begin([]), schedule, s, SendExitToTask);
    StarvedWitnesses(schedule, s, ShutdownSends);
  }

  /** Shutdown thread and recorder wait for each other, with the channel to the analysis thread empty. */
  lemma ShutdownAndRecorderBlock()
    ensures exists schedule :: Witnesses(schedule, ShutdownWaits)
  {
    var schedule := OpeningReachable();
    var s := Opening();
    schedule, s := Then(Begin([]), schedule, s, Signal);
    schedule, s := Then(Begin([]), schedule, s, Command(Silent));
    schedule, s := Then(Begin([]), schedule, s, TakeCommand);
    schedule, s := Then(Begin([]), schedule, s, Command(Silent));
    StarvedWitnesses(schedule, s, ShutdownWaits);
  }
}
