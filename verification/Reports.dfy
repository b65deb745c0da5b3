/** Analysis reports: which rows they take, and how severe a container was. */
module Reports {
  import opened Wrappers
  import opened Events
  import opened Seqs
  import opened Containers
  import opened Disks
  import opened Harness

  /** The rows that reach a report: those that are not empty, in order. */
  function Reported(rows: seq<AnalysisRow>): seq<AnalysisRow> {
    if rows == [] then []
    else
      var last := rows[|rows| - 1];
      Reported(rows[..|rows| - 1]) + if last.IsEmpty() then [] else [last]
  }

  function MaxOfRows(rows: seq<AnalysisRow>): EventType {
    if rows == [] then Informational
    else Max(MaxOfRows(rows[..|rows| - 1]), rows[|rows| - 1].GetMaxEventType())
  }

  lemma {:induction false} ReportedAppend(a: seq<AnalysisRow>, b: seq<AnalysisRow>)
    ensures Reported(a + b) == Reported(a) + Reported(b)
    decreases |b|
  {
    if b == [] {
      assert a + b == a;
      assert Reported(a) + [] == Reported(a);
    } else {
      var n := |b| - 1;
      PrefixGrows(b, n);
      WholeSlice(b);
      Associative(a, b[..n], [b[n]]);
      WithoutLast(a + b[..n], b[n]);
      ReportedAppend(a, b[..n]);
      Associative(Reported(a), Reported(b[..n]), if b[n].IsEmpty() then [] else [b[n]]);
    }
  }

  /** The severity returned is reached by an event of some row, or is Informational, and none exceeds it. */
  lemma {:induction false} MaxOfRowsIsMaximum(rows: seq<AnalysisRow>)
    ensures forall i | 0 <= i < |rows| :: rows[i].GetMaxEventType().Rank() <= MaxOfRows(rows).Rank()
    ensures MaxOfRows(rows) == Informational
         || exists i :: 0 <= i < |rows| && rows[i].GetMaxEventType() == MaxOfRows(rows)
  {
    if rows == [] {
    } else {
      var before := rows[..|rows| - 1];
      MaxOfRowsIsMaximum(before);
      forall i | 0 <= i < |rows|
        ensures rows[i].GetMaxEventType().Rank() <= MaxOfRows(rows).Rank()
      {
        assert i < |before| ==> rows[i] == before[i];
      }
      if MaxOfRows(before) != Informational {
        var i :| 0 <= i < |before| && before[i].GetMaxEventType() == MaxOfRows(before);
        assert rows[i] == before[i];
      }
    }
  }

  /** A container raises a notification exactly when it adds a row with a warning to the report. */
  lemma NotifiedIffReported(rows: seq<AnalysisRow>)
    ensures MaxOfRows(rows) != Informational <==> exists row :: row in Reported(rows) && row.ContainsWarnings()
  {
    MaxOfRowsIsMaximum(rows);
    ReportedMembers(rows);
    forall i | 0 <= i < |rows|
      ensures rows[i] in rows
    {
    }
  }

  lemma {:induction false} ReportedMembers(rows: seq<AnalysisRow>)
    ensures forall row :: row in Reported(rows) <==> row in rows && !row.IsEmpty()
  {
    if rows == [] {
    } else {
      var n := |rows| - 1;
      ReportedMembers(rows[..n]);
      PrefixGrows(rows, n);
      WholeSlice(rows);
      assert forall row :: row in rows <==> row in rows[..n] || row == rows[n];
    }
  }

  /** A row is reported if it was skipped or has an event above Informational, and left out otherwise. */
  lemma ReportedOne(row: AnalysisRow)
    ensures Reported([row])
         == if row.skipped.Some? || exists i :: 0 <= i < |row.events| && row.events[i].Some?
                                                && row.events[i].value.eventType != Informational
            then [row] else []
  {
    EmptyRows(row);
    assert [row][..0] == [];
  }

  lemma ReportedNext(rows: seq<AnalysisRow>, i: nat)
    requires i < |rows|
    ensures Reported(rows[..i + 1])
         == if rows[i].IsEmpty() then Reported(rows[..i]) else Reported(rows[..i]) + [rows[i]]
    ensures MaxOfRows(rows[..i + 1]) == Max(MaxOfRows(rows[..i]), rows[i].GetMaxEventType())
  {
    PrefixGrows(rows, i);
    WithoutLast(rows[..i], rows[i]);
  }

  datatype IoError = IoError

  // ---- Harnesses, as far as report writers and recorders see them ----

  /** A first state, and what becomes of the state and which rows come out when a container is analyzed. */
  datatype Machine<!H> = Machine(initial: H, analyze: (H, MessagesContainer) -> (H, seq<AnalysisRow>))

  /** The state and all rows after several containers. */
  function Live<H>(m: Machine<H>, cs: seq<MessagesContainer>): (H, seq<AnalysisRow>) {
    if cs == [] then (m.initial, [])
    else
      var (h, rows) := Live(m, cs[..|cs| - 1]);
      var (next, more) := m.analyze(h, cs[|cs| - 1]);
      (next, rows + more)
  }

  lemma LiveOneMore<H>(m: Machine<H>, cs: seq<MessagesContainer>, c: MessagesContainer)
    ensures var (h, rows) := Live(m, cs);
            var (next, more) := m.analyze(h, c);
            && Live(m, cs + [c]) == (next, rows + more)
            && Reported(rows + more) == Reported(rows) + Reported(more)
  {
    WithoutLast(cs, c);
    var (h, rows) := Live(m, cs);
    ReportedAppend(rows, m.analyze(h, c).1);
  }

  class AnalysisWriter<!H> {
    const disk: Disk
    const path: Path
    const machine: Machine<H>
    var harness: H

    constructor (disk: Disk, path: Path, machine: Machine<H>)
      ensures this.disk == disk && this.path == path && this.machine == machine && harness == machine.initial
    {
      this.disk := disk;
      this.path := path;
      this.machine := machine;
      harness := machine.initial;
    }

    /** Analyzes a container, adds its rows to the report, and returns the highest severity seen. */
    method Analyze(c: MessagesContainer) returns (r: Result<EventType, IoError>)
      modifies this, disk
      ensures var (h, rows) := machine.analyze(old(harness), c);
              && harness == h
              && (r.Ok? ==>
                    && disk.files == AppendedRows(old(disk.files), path, Reported(rows))
                    && r.value == MaxOfRows(rows))
              && (r.Err? ==> exists i | 0 <= i < |rows| ::
                    disk.files == AppendedRows(old(disk.files), path, Reported(rows[..i])))
      ensures disk.NeverFails() ==> r.Ok?
    {
      var maxType := Informational;
      var (next, rows) := machine.analyze(harness, c);
      harness := next;
      AppendedNoRows(disk.files, path);
      for i := 0 to |rows|
        modifies disk
        invariant disk.files == AppendedRows(old(disk.files), path, Reported(rows[..i]))
        invariant maxType == MaxOfRows(rows[..i])
      {
        ReportedNext(rows, i);
        if !rows[i].IsEmpty() {
          AppendedRowsTwice(old(disk.files), path, Reported(rows[..i]), [rows[i]]);
          var ok := disk.Perform(AppendRow(path, rows[i]));
          if !ok {
            return Err(IoError);
          }
        }
        maxType := Max(maxType, rows[i].GetMaxEventType());
      }
      WholeSlice(rows);
      return Ok(maxType);
    }
  }
}
