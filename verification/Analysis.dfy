/** Analyzing recordings again, from their files, and what that has to do with analyzing them live. */
module Analysis {
  import opened Bytes
  import opened Seqs
  import opened Frames
  import opened Containers
  import opened Harness
  import opened Disks
  import opened Recorder
  import opened Reports
  import Qmdl

  /** The harness of a setup: every message result of the container is a packet. */
  function MachineOf<S, E>(setup: Setup<S, E>): Machine<HarnessState<S>>
    requires setup.Valid()
  {
    Machine(setup.Fresh(), (h: HarnessState<S>, c: MessagesContainer) =>
        if |h.states| == |setup.analyzers| then Run(setup.analyzers, h, Inputs(setup.decode, Messages(c))) else (h, []))
  }

  /** How the messages were grouped into containers makes no difference to the rows. */
  lemma {:induction false} LiveIsRun<S, E>(setup: Setup<S, E>, cs: seq<MessagesContainer>)
    requires setup.Valid()
    ensures Live(MachineOf(setup), cs) == Run(setup.analyzers, setup.Fresh(), Inputs(setup.decode, AllMessages(cs)))
    decreases |cs|
  {
    if cs == [] {
    } else {
      var n := |cs| - 1;
      LiveIsRun(setup, cs[..n]);
      OneMoreContainer(setup.analyzers, setup.decode, setup.Fresh(), cs, n);
      WholeSlice(cs);
    }
  }

  /** The rows that a fresh harness gives for a file read up to a size taken before. */
  function RowsOf<S, E>(setup: Setup<S, E>, file: seq<byte>, size: nat): seq<AnalysisRow>
    requires setup.Valid() && size <= |file|
  {
    Run(setup.analyzers, setup.Fresh(), Inputs(setup.decode, Qmdl.MessagesRead(file, size))).1
  }

  /**
   Re-analysis equals live analysis: recorded container by container and then read back frame by frame,
   fresh harnesses give the same rows, with the same packet numbers, exactly when no container data
   that lacks its final flag is followed by more bytes.
   */
  lemma ReanalysisEqualsLiveIff<S, E>(setup: Setup<S, E>, cs: seq<MessagesContainer>)
    requires setup.Valid()
    ensures Live(MachineOf(setup), cs).1 == RowsOf(setup, Concat(AllDatas(cs)), |Concat(AllDatas(cs))|)
       <==> Harmless(AllDatas(cs))
  {
    var file := Concat(AllDatas(cs));
    LiveIsRun(setup, cs);
    Qmdl.ForgettingContainersIff(cs);
    if !Harmless(AllDatas(cs)) {
      Qmdl.ReadEndIsLimit(file, |file|);
      WholeSlice(file);
      AllMessagesDecode(cs);
      SplitCount(AllDatas(cs));
    }
  }

  // ---- Analyzing a recording again ----

  predicate IsRecording(files: Files, name: Name) {
    QmdlFile(name) in files && files[QmdlFile(name)].Recording?
  }

  lemma {:induction false} LivePrefix<H>(m: Machine<H>, cs: seq<MessagesContainer>, i: nat)
    requires i <= |cs|
    ensures Live(m, cs[..i]).1 <= Live(m, cs).1
    decreases |cs| - i
  {
    if i == |cs| {
      WholeSlice(cs);
    } else {
      LivePrefix(m, cs, i + 1);
      PrefixGrows(cs, i);
      LiveOneMore(m, cs[..i], cs[i]);
    }
  }

  /** The rows before container i and the first k of container i are the first of all rows. */
  lemma RowsCutShort<H>(m: Machine<H>, cs: seq<MessagesContainer>, i: nat, k: nat)
    requires i < |cs| && k <= |m.analyze(Live(m, cs[..i]).0, cs[i]).1|
    ensures var before, rows, all := Live(m, cs[..i]).1, m.analyze(Live(m, cs[..i]).0, cs[i]).1, Live(m, cs).1;
            && |before| + k <= |all|
            && Reported(all[..|before| + k]) == Reported(before) + Reported(rows[..k])
  {
    var before, rows := Live(m, cs[..i]).1, m.analyze(Live(m, cs[..i]).0, cs[i]).1;
    PrefixGrows(cs, i);
    LiveOneMore(m, cs[..i], cs[i]);
    LivePrefix(m, cs, i + 1);
    PrefixIntoSecond(before, rows, k);
    assert Live(m, cs).1[..|before| + k] == (before + rows)[..|before| + k];
    ReportedAppend(before, rows[..k]);
  }

  /** The report has gained the first of the rows. */
  ghost predicate CutShort(before: Files, path: Path, rows: seq<AnalysisRow>, after: Files) {
    exists n | 0 <= n <= |rows| :: after == AppendedRows(before, path, Reported(rows[..n]))
  }

  /** Analyzes containers in turn and adds their rows to a report; if a write fails, the first of them. */
  method AnalyzeAll<H>(machine: Machine<H>, disk: Disk, path: Path, cs: seq<MessagesContainer>) returns (ok: bool)
    requires forall c | c in cs :: c.dataType == UserSpace
    modifies disk
    ensures ok ==> disk.files == AppendedRows(old(disk.files), path, Reported(Live(machine, cs).1))
    ensures !ok ==> CutShort(old(disk.files), path, Live(machine, cs).1, disk.files)
    ensures disk.NeverFails() ==> ok
  {
    var writer := new AnalysisWriter(disk, path, machine);
    AppendedNoRows(disk.files, path);
    for i := 0 to |cs|
      invariant writer.harness == Live(machine, cs[..i]).0
      invariant disk.files == AppendedRows(old(disk.files), path, Reported(Live(machine, cs[..i]).1))
    {
      PrefixGrows(cs, i);
      LiveOneMore(machine, cs[..i], cs[i]);
      if cs[i].dataType == UserSpace {
        ghost var before, rows := Live(machine, cs[..i]).1, machine.analyze(writer.harness, cs[i]).1;
        ghost var files := disk.files;
        AppendedRowsTwice(old(disk.files), path, Reported(before), Reported(rows));
        var r := writer.Analyze(cs[i]);
        if r.Err? {
          ghost var k: nat :| k <= |rows| && disk.files == AppendedRows(files, path, Reported(rows[..k]));
          AppendedRowsTwice(old(disk.files), path, Reported(before), Reported(rows[..k]));
          RowsCutShort(machine, cs, i, k);
          return false;
        }
      }
    }
    WholeSlice(cs);
    ok := true;
  }

  lemma RowsOfStream<S, E>(setup: Setup<S, E>, cs: seq<MessagesContainer>, stream: seq<byte>)
    requires setup.Valid() && AllMessages(cs) == Qmdl.MessagesRead(stream, |stream|)
    ensures Live(MachineOf(setup), cs).1 == RowsOf(setup, stream, |stream|)
  {
    LiveIsRun(setup, cs);
  }

  /** Adds the rows of a recording, read frame by frame, to a report; if a write fails, the first of them. */
  method AnalyzeStream<S, E>(setup: Setup<S, E>, disk: Disk, path: Path, stream: seq<byte>) returns (ok: bool)
    requires setup.Valid()
    modifies disk
    ensures ok ==> disk.files == AppendedRows(old(disk.files), path, Reported(RowsOf(setup, stream, |stream|)))
    ensures !ok ==> CutShort(old(disk.files), path, RowsOf(setup, stream, |stream|), disk.files)
    ensures disk.NeverFails() ==> ok
  {
    var cs := Qmdl.ReadAll(stream, |stream|);
    RowsOfStream(setup, cs, stream);
    ok := AnalyzeAll(MachineOf(setup), disk, path, cs);
  }

  /** The report was cleared, and holds the first new rows if there is a recording to analyze. */
  ghost predicate ReportCutShort<S, E>(setup: Setup<S, E>, before: Files, name: Name, after: Files)
    requires setup.Valid()
  {
    var path := AnalysisFile(name);
    var cleared := before[path := Report([])];
    path in before &&
    if IsRecording(before, name) then
      var bytes := before[QmdlFile(name)].bytes;
      CutShort(cleared, path, RowsOf(setup, bytes, |bytes|), after)
    else after == cleared
  }

  /**
   Clears the report of a stored recording and fills it from the recording as it is now. Without the
   entry or its files nothing is analyzed. Whatever fails, at most that report changes, and it then
   holds the first of its new rows.
   */
  method PerformAnalysis<S, E>(setup: Setup<S, E>, disk: Disk, entries: seq<ManifestEntry>, name: Name)
    returns (ok: bool)
    requires setup.Valid()
    modifies disk
    ensures ok ==> IsRecording(old(disk.files), name) && AnalysisFile(name) in old(disk.files)
    ensures ok ==>
              var bytes := old(disk.files)[QmdlFile(name)].bytes;
              disk.files == old(disk.files)[AnalysisFile(name) := Report(Reported(RowsOf(setup, bytes, |bytes|)))]
    ensures !ok ==> disk.files == old(disk.files) || ReportCutShort(setup, old(disk.files), name, disk.files)
    ensures disk.NeverFails() ==>
              (ok <==> (exists e :: e in entries && e.name == name) && AnalysisFile(name) in old(disk.files)
                       && IsRecording(old(disk.files), name))
  {
    if !exists e :: e in entries && e.name == name {
      return false;
    }
    ok := disk.Perform(Truncate(AnalysisFile(name)));
    if !ok || !IsRecording(disk.files, name) {
      return false;
    }
    var stream := disk.files[QmdlFile(name)].bytes;
    ok := AnalyzeStream(setup, disk, AnalysisFile(name), stream);
    var rows := Reported(RowsOf(setup, stream, |stream|));
    assert [] + rows == rows;
  }

  /** Analyzing a recording of this run again rewrites its report as it was: the disk does not change. */
  lemma ReportRebuilt<S, E>(setup: Setup<S, E>, r: Recorder<HarnessState<S>>, i: nat)
    requires setup.Valid() && Inv(MachineOf(setup), r)
    requires i < |r.store.entries| && r.store.entries[i].name in r.history
    requires Harmless(AllDatas(r.history[r.store.entries[i].name]))
    ensures var name := r.store.entries[i].name;
            && IsRecording(r.files, name)
            && var bytes := r.files[QmdlFile(name)].bytes;
               r.files == r.files[AnalysisFile(name) := Report(Reported(RowsOf(setup, bytes, |bytes|)))]
  {
    SameFiles(MachineOf(setup), r, r.files, i);
    ReanalysisEqualsLiveIff(setup, r.history[r.store.entries[i].name]);
  }
}
