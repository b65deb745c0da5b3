/** The command-line checker: reports over QMDL files and captures, and the export from one to the other. */
module Check {
  import opened Wrappers
  import opened Bytes
  import opened Events
  import opened Seqs
  import opened Containers
  import opened Frames
  import opened Gsmtap
  import opened Harness
  import opened Pcap
  import Imsi
  import Qmdl

  // ---- Reports ----

  function Warnings(events: seq<Option<Event>>): nat {
    if events == [] then 0
    else
      var last := events[|events| - 1];
      Warnings(events[..|events| - 1])
      + if last.Some? && last.value.eventType != Informational then 1 else 0
  }

  /** A skipped row and a row without a time stamp print no warnings. */
  function RowWarnings(row: AnalysisRow): nat {
    if row.skipped.Some? || row.timestamp.None? then 0 else Warnings(row.events)
  }

  function TotalWarnings(rows: seq<AnalysisRow>): nat {
    if rows == [] then 0 else TotalWarnings(rows[..|rows| - 1]) + RowWarnings(rows[|rows| - 1])
  }

  function Reasons(rows: seq<AnalysisRow>): seq<SkipReason> {
    if rows == [] then []
    else
      var last := rows[|rows| - 1];
      Reasons(rows[..|rows| - 1]) + if last.skipped.Some? then [last.skipped.value] else []
  }

  // ---- What is counted ----

  /** Event i of row j is above Informational, in a row that has a time stamp and was not skipped. */
  predicate IsWarning(rows: seq<AnalysisRow>, j: int, i: int) {
    && 0 <= j < |rows| && 0 <= i < |rows[j].events|
    && rows[j].skipped.None? && rows[j].timestamp.Some?
    && rows[j].events[i].Some? && rows[j].events[i].value.eventType != Informational
  }

  /** The events above Informational among those of row j. */
  function EventsAbove(j: int, events: seq<Option<Event>>): set<(int, int)> {
    set i | 0 <= i < |events| && events[i].Some? && events[i].value.eventType != Informational :: (j, i)
  }

  function WarningPlaces(rows: seq<AnalysisRow>): set<(int, int)> {
    set j, i | 0 <= j < |rows| && 0 <= i < |rows[j].events| && IsWarning(rows, j, i) :: (j, i)
  }

  function SkippedFor(rows: seq<AnalysisRow>, reason: SkipReason): set<int> {
    set j | 0 <= j < |rows| && rows[j].skipped == Some(reason)
  }

  function SkippedRows(rows: seq<AnalysisRow>): set<int> {
    set j | 0 <= j < |rows| && rows[j].skipped.Some?
  }

  lemma {:induction false} EventsCounted(j: int, events: seq<Option<Event>>)
    ensures Warnings(events) == |EventsAbove(j, events)|
    decreases |events|
  {
    if events == [] {
    } else {
      var n := |events| - 1;
      var before := events[..n];
      EventsCounted(j, before);
      assert EventsAbove(j, events)
          == EventsAbove(j, before)
             + if events[n].Some? && events[n].value.eventType != Informational then {(j, n)} else {};
    }
  }

  lemma WarningsOfLast(rows: seq<AnalysisRow>)
    requires rows != []
    ensures var n := |rows| - 1;
            var last := if rows[n].skipped.Some? || rows[n].timestamp.None? then {} else EventsAbove(n, rows[n].events);
            && WarningPlaces(rows) == WarningPlaces(rows[..n]) + last && WarningPlaces(rows[..n]) !! last
            && RowWarnings(rows[n]) == |last|
  {
    var n := |rows| - 1;
    EventsCounted(n, rows[n].events);
    forall j, i
      ensures j < n ==> (IsWarning(rows, j, i) <==> IsWarning(rows[..n], j, i))
    {
    }
  }

  /** The warnings are the events above Informational in rows with a time stamp that were not skipped. */
  lemma {:induction false} WarningsCounted(rows: seq<AnalysisRow>)
    ensures TotalWarnings(rows) == |WarningPlaces(rows)|
    decreases |rows|
  {
    if rows == [] {
    } else {
      var n := |rows| - 1;
      WarningsCounted(rows[..n]);
      WarningsOfLast(rows);
    }
  }

  function Counted(last: Option<SkipReason>): seq<SkipReason> {
    if last.Some? then [last.value] else []
  }

  lemma CountOneMore(reasons: seq<SkipReason>, last: Option<SkipReason>, reason: SkipReason)
    ensures multiset(reasons + Counted(last))[reason]
         == multiset(reasons)[reason] + if last == Some(reason) then 1 else 0
  {
    if last.Some? {
      assert multiset(reasons + [last.value]) == multiset(reasons) + multiset{last.value};
    } else {
      assert reasons + [] == reasons;
    }
  }

  lemma SkippedForOneMore(rows: seq<AnalysisRow>, reason: SkipReason)
    requires rows != []
    ensures var n := |rows| - 1;
            var one := if rows[n].skipped == Some(reason) then 1 else 0;
            |SkippedFor(rows, reason)| == |SkippedFor(rows[..n], reason)| + one
  {
    var n := |rows| - 1;
    var more := if rows[n].skipped == Some(reason) then {n} else {};
    assert SkippedFor(rows, reason) == SkippedFor(rows[..n], reason) + more;
  }

  lemma SkippedRowsOneMore(rows: seq<AnalysisRow>)
    requires rows != []
    ensures var n := |rows| - 1;
            |SkippedRows(rows)| == |SkippedRows(rows[..n])| + if rows[n].skipped.Some? then 1 else 0
  {
    var n := |rows| - 1;
    assert SkippedRows(rows) == SkippedRows(rows[..n]) + if rows[n].skipped.Some? then {n} else {};
  }

  lemma {:induction false} SkippedCounted(rows: seq<AnalysisRow>, reason: SkipReason)
    ensures |Reasons(rows)| == |SkippedRows(rows)|
    ensures multiset(Reasons(rows))[reason] == |SkippedFor(rows, reason)|
    decreases |rows|
  {
    if rows == [] {
    } else {
      var n := |rows| - 1;
      SkippedCounted(rows[..n], reason);
      SkippedRowsOneMore(rows);
      SkippedForOneMore(rows, reason);
      CountOneMore(Reasons(rows[..n]), rows[n].skipped, reason);
      assert Reasons(rows) == Reasons(rows[..n]) + Counted(rows[n].skipped);
    }
  }

  /** The map gives the number of occurrences of every reason. */
  ghost predicate Counts(counts: map<SkipReason, nat>, reasons: seq<SkipReason>) {
    forall r :: multiset(reasons)[r] == CountOf(counts, r)
  }

  function CountOf(counts: map<SkipReason, nat>, reason: SkipReason): nat {
    if reason in counts then counts[reason] else 0
  }

  lemma CountsOneMore(counts: map<SkipReason, nat>, reasons: seq<SkipReason>, reason: SkipReason)
    requires Counts(counts, reasons)
    ensures Counts(counts[reason := CountOf(counts, reason) + 1], reasons + [reason])
  {
    assert multiset(reasons + [reason]) == multiset(reasons) + multiset{reason};
  }

  class Report {
    ghost var rows: seq<AnalysisRow>
    var skippedReasons: map<SkipReason, nat>
    var totalMessages: nat
    var warnings: nat
    var skipped: nat

    /** The counters are those of the rows processed so far, reason by reason. */
    ghost predicate Valid()
      reads this
    {
      && totalMessages == |rows|
      && warnings == TotalWarnings(rows)
      && skipped == |Reasons(rows)|
      && Counts(skippedReasons, Reasons(rows))
    }

    constructor ()
      ensures Valid() && rows == []
    {
      rows := [];
      skippedReasons := map[];
      totalMessages, warnings, skipped := 0, 0, 0;
    }

    /** What the counters count. */
    lemma Totals(reason: SkipReason)
      requires Valid()
      ensures totalMessages == |rows| && warnings == |WarningPlaces(rows)| && skipped == |SkippedRows(rows)|
      ensures CountOf(skippedReasons, reason) == |SkippedFor(rows, reason)|
    {
      WarningsCounted(rows);
      SkippedCounted(rows, reason);
    }

    method ProcessRow(row: AnalysisRow)
      requires Valid()
      modifies this
      ensures Valid() && rows == old(rows) + [row]
    {
      WithoutLast(rows, row);
      ghost var before := rows;
      rows := rows + [row];
      totalMessages := totalMessages + 1;
      if row.skipped.Some? {
        var reason := row.skipped.value;
        CountsOneMore(skippedReasons, Reasons(before), reason);
        skippedReasons := skippedReasons[reason := CountOf(skippedReasons, reason) + 1];
        skipped := skipped + 1;
      } else {
        CountWarnings(row);
      }
      assert Reasons(before) + [] == Reasons(before);
    }

    /** Counts the warnings among the row's events, none of them if it has no time stamp. */
    method CountWarnings(row: AnalysisRow)
      modifies this`warnings
      ensures warnings == old(warnings) + if row.timestamp.Some? then Warnings(row.events) else 0
    {
      for i := 0 to |row.events|
        invariant warnings == old(warnings) + if row.timestamp.Some? then Warnings(row.events[..i]) else 0
      {
        PrefixGrows(row.events, i);
        WithoutLast(row.events[..i], row.events[i]);
        if row.events[i].None? {
          continue;
        }
        if row.timestamp.None? {
          continue;
        }
        match row.events[i].value.eventType {
          case Informational =>
          case _ => warnings := warnings + 1;
        }
      }
      WholeSlice(row.events);
    }

    method ProcessRows(more: seq<AnalysisRow>)
      requires Valid()
      modifies this
      ensures Valid() && rows == old(rows) + more
    {
      for j := 0 to |more|
        invariant Valid() && rows == old(rows) + more[..j]
      {
        PrefixGrows(more, j);
        Associative(old(rows), more[..j], [more[j]]);
        ProcessRow(more[j]);
      }
      WholeSlice(more);
    }
  }

  // ---- Analysis of files and captures ----

  method AnalyzeQmdl<S, E>(setup: Setup<S, E>, stream: seq<byte>)
    returns (report: Report)
    requires setup.Valid()
    ensures fresh(report) && report.Valid()
    ensures report.rows == Run(setup.analyzers, setup.Fresh(),
                               Inputs(setup.decode, Qmdl.MessagesRead(stream, |stream|))).1
  {
    var harness := new Harness(setup.analyzers, setup.decode, setup.initial);
    report := new Report();
    var cs := Qmdl.ReadAll(stream, |stream|);
    ghost var start := setup.Fresh();
    for i := 0 to |cs|
      invariant harness.Valid() && harness.analyzers == setup.analyzers && harness.decode == setup.decode
      invariant report.Valid() && fresh(report) && fresh(harness)
      invariant (harness.Model(), report.rows)
             == Run(setup.analyzers, start, Inputs(setup.decode, AllMessages(cs[..i])))
    {
      OneMoreContainer(setup.analyzers, setup.decode, start, cs, i);
      if cs[i].dataType == UserSpace {
        var rows := harness.AnalyzeQmdlMessages(cs[i]);
        report.ProcessRows(rows);
      }
    }
    WholeSlice(cs);
  }

  predicate AllSliceable(packets: seq<Packet>) {
    forall p | p in packets :: Sliceable(p.data)
  }

  function PcapInputs<E>(decode: Decoder<E>, packets: seq<Packet>): (r: seq<Input<E>>)
    requires AllSliceable(packets)
    ensures |r| == |packets|
  {
    seq(|packets|, i requires 0 <= i < |packets| => PcapInputOf(decode, packets[i]))
  }

  lemma PcapInputsAppend<E>(decode: Decoder<E>, packets: seq<Packet>, packet: Packet)
    requires AllSliceable(packets) && Sliceable(packet.data)
    ensures AllSliceable(packets + [packet])
    ensures PcapInputs(decode, packets + [packet]) == PcapInputs(decode, packets) + [PcapInputOf(decode, packet)]
  {
  }

  function PacketsRun<S, E>(setup: Setup<S, E>, packets: seq<Packet>): (HarnessState<S>, seq<AnalysisRow>)
    requires setup.Valid() && AllSliceable(packets)
  {
    Run(setup.analyzers, setup.Fresh(), PcapInputs(setup.decode, packets))
  }

  lemma PacketsRunOneMore<S, E>(setup: Setup<S, E>, packets: seq<Packet>, packet: Packet)
    requires setup.Valid() && AllSliceable(packets) && Sliceable(packet.data)
    ensures AllSliceable(packets + [packet])
    ensures var (h, rows) := PacketsRun(setup, packets);
            var (next, row) := Step(setup.analyzers, h, PcapInputOf(setup.decode, packet));
            h.packetNum == |packets| && PacketsRun(setup, packets + [packet]) == (next, rows + [row])
  {
    var inputs := PcapInputs(setup.decode, packets);
    PcapInputsAppend(setup.decode, packets, packet);
    RunNumbers(setup.analyzers, setup.Fresh(), inputs);
    RunOneMore(setup.analyzers, setup.Fresh(), inputs, PcapInputOf(setup.decode, packet));
  }

  /** The report on a capture, or None for a panic. */
  method AnalyzePcap<S, E>(setup: Setup<S, E>, packets: seq<Packet>)
    returns (report: Option<Report>)
    requires setup.Valid()
    ensures report.Some? <==> AllSliceable(packets)
    ensures report.Some? ==> fresh(report.value) && report.value.Valid()
    ensures report.Some? ==> report.value.rows == PacketsRun(setup, packets).1
  {
    var harness := new Harness(setup.analyzers, setup.decode, setup.initial);
    var r := new Report();
    for i := 0 to |packets|
      invariant harness.Valid() && harness.analyzers == setup.analyzers && harness.decode == setup.decode
      invariant r.Valid() && fresh(r) && fresh(harness)
      invariant AllSliceable(packets[..i]) && (harness.Model(), r.rows) == PacketsRun(setup, packets[..i])
    {
      PrefixGrows(packets, i);
      var row := harness.AnalyzePcapPacket(packets[i]);
      if row.None? {
        assert packets[i] in packets;
        return None;
      }
      PacketsRunOneMore(setup, packets[..i], packets[i]);
      r.ProcessRow(row.value);
    }
    WholeSlice(packets);
    return Some(r);
  }

  // ---- Export ----

  /** The stamped GSMTAP message a message result yields, if any. */
  function ExportOf(m: Parsed): seq<Stamped> {
    if m.Ok? && Parse(m.value).Ok? && Parse(m.value).value.Some? then [Parse(m.value).value.value] else []
  }

  function Exports(ms: seq<Parsed>): seq<Stamped> {
    if ms == [] then [] else Exports(ms[..|ms| - 1]) + ExportOf(ms[|ms| - 1])
  }

  predicate AllExportable(build: Build, ms: seq<Parsed>) {
    forall g | g in Exports(ms) :: Exportable(build, g.1)
  }

  lemma ExportsOneMore(ms: seq<Parsed>, m: Parsed)
    ensures Exports(ms + [m]) == Exports(ms) + ExportOf(m)
    ensures ExportOf(m) == [] ==> Exports(ms + [m]) == Exports(ms)
  {
    WithoutLast(ms, m);
    assert Exports(ms) + [] == Exports(ms);
  }

  lemma {:induction false} ExportsOfPart(ms: seq<Parsed>, rest: seq<Parsed>)
    ensures forall g | g in Exports(ms) :: g in Exports(ms + rest)
    decreases |rest|
  {
    if rest == [] {
      assert ms + rest == ms;
    } else {
      var n := |rest| - 1;
      ExportsOfPart(ms, rest[..n]);
      assert ms + rest == (ms + rest[..n]) + [rest[n]];
      ExportsOneMore(ms + rest[..n], rest[n]);
    }
  }

  /** Writes the GSMTAP message that a message result yields, if any, or panics. */
  method ExportMessage(writer: GsmtapPcapWriter, m: Parsed) returns (ok: bool)
    requires writer.Valid()
    modifies writer
    ensures writer.Valid()
    ensures ok <==> forall g | g in ExportOf(m) :: Exportable(writer.build, g.1)
    ensures ok ==> writer.written == old(writer.written) + ExportOf(m)
  {
    assert writer.written + [] == writer.written;
    if m.Ok? {
      match Parse(m.value) {
        case Ok(Some((timestamp, g))) =>
          ok := writer.WriteGsmtapMessage(g, timestamp);
          assert (timestamp, g) in ExportOf(m);
          return;
        case _ =>
      }
    }
    return true;
  }

  /** Writes the GSMTAP messages of a container after those written before, or panics. */
  method ExportContainer(writer: GsmtapPcapWriter, c: MessagesContainer, ghost before: seq<Parsed>) returns (ok: bool)
    requires writer.Valid() && writer.written == Exports(before)
    modifies writer
    ensures ok ==> writer.Valid() && writer.written == Exports(before + Messages(c))
    ensures ok ==> AllReadable(writer.build.checksOverflow, SplitEach(Datas(c.messages)))
    ensures !ok ==> !AllReadable(writer.build.checksOverflow, SplitEach(Datas(c.messages)))
                    || !AllExportable(writer.build, before + Messages(c))
  {
    var parsed := IntoMessages(writer.build.checksOverflow, c);
    if parsed.None? {
      return false;
    }
    var messages := parsed.value;
    WholeSlice(messages);
    assert before + [] == before;
    for j := 0 to |messages|
      invariant writer.Valid() && writer.written == Exports(before + messages[..j])
    {
      NextMessage(before, messages, j);
      var ok := ExportMessage(writer, messages[j]);
      if !ok {
        return false;
      }
    }
    return true;
  }

  lemma NextMessage(before: seq<Parsed>, messages: seq<Parsed>, j: nat)
    requires j < |messages|
    ensures Exports(before + messages[..j + 1]) == Exports(before + messages[..j]) + ExportOf(messages[j])
    ensures forall g | g in Exports(before + messages[..j + 1]) :: g in Exports(before + messages)
  {
    PrefixGrows(messages, j);
    Associative(before, messages[..j], [messages[j]]);
    ExportsOneMore(before + messages[..j], messages[j]);
    CutInTwo(messages, j + 1);
    Associative(before, messages[..j + 1], messages[j + 1..]);
    ExportsOfPart(before + messages[..j + 1], messages[j + 1..]);
  }

  /**
   Writes every GSMTAP message of a file to a capture, or panics: at a frame that the build cannot
   read, or at a message that it cannot write.
   */
  method Pcapify(build: Build, stream: seq<byte>) returns (packets: Option<seq<Packet>>)
    ensures var ms := Qmdl.MessagesRead(stream, |stream|);
            packets == if AllReadable(build.checksOverflow, Split(stream)) && AllExportable(build, ms)
                       then Some(Packets(Exports(ms))) else None
  {
    var cs := Qmdl.ReadAll(stream, |stream|);
    Qmdl.FramesOfFile(cs, stream);
    var writer := new GsmtapPcapWriter(build);
    for i := 0 to |cs|
      invariant writer.Valid() && writer.build == build && writer.written == Exports(AllMessages(cs[..i]))
      invariant AllReadable(build.checksOverflow, AllFrames(cs[..i]))
    {
      AllMessagesNext(cs, i);
      AllFramesNext(cs, i);
      ExportsOfPart(AllMessages(cs[..i + 1]), AllMessages(cs[i + 1..]));
      var ok := ExportContainer(writer, cs[i], AllMessages(cs[..i]));
      if !ok {
        return None;
      }
    }
    WholeSlice(cs);
    return Some(writer.packets);
  }

  // ---- The export preserves detection ----

  ghost predicate IgnorePacketNumbers<S(!new), E(!new)>(analyzers: seq<Analyzer<S, E>>) {
    forall i, s, e, n, m | 0 <= i < |analyzers| :: analyzers[i](s, e, n) == analyzers[i](s, e, m)
  }

  /** The identity-request analyzer among others: it uses the packet number in debug logs only. */
  function ImsiAnalyzer(): Analyzer<Imsi.Automaton, Imsi.Element> {
    (a, e, n) => Imsi.Step(a, e)
  }

  lemma ImsiIgnoresPacketNumbers()
    ensures IgnorePacketNumbers([ImsiAnalyzer()])
  {
  }

  /** An event without the packet suffix of packet n. */
  function Unsuffixed(event: Option<Event>, n: nat): Option<Event> {
    if event.None? || |event.value.message| < |PacketSuffix(n)| then event
    else
      var text := event.value.message;
      Some(event.value.(message := text[..|text| - |PacketSuffix(n)|]))
  }

  function Unnumbered(events: seq<Option<Event>>, n: nat): (r: seq<Option<Event>>)
    ensures |r| == |events|
  {
    seq(|events|, i requires 0 <= i < |events| => Unsuffixed(events[i], n))
  }

  lemma UnnumberedNumbered(events: seq<Option<Event>>, n: nat)
    ensures Unnumbered(Numbered(events, n), n) == events
  {
    forall i | 0 <= i < |events| && events[i].Some?
      ensures Unsuffixed(WithSuffix(events[i], n), n) == events[i]
    {
      WithoutSuffix(events[i].value.message, PacketSuffix(n));
    }
  }

  lemma WithoutSuffix(text: string, suffix: string)
    ensures (text + suffix)[..|text + suffix| - |suffix|] == text
  {
  }

  lemma {:induction false} NumberedWarnings(events: seq<Option<Event>>, n: nat)
    ensures Warnings(Numbered(events, n)) == Warnings(events)
    decreases |events|
  {
    if events == [] {
    } else {
      var before := events[..|events| - 1];
      NumberedWarnings(before, n);
      assert Numbered(events, n)[..|events| - 1] == Numbered(before, n);
    }
  }

  /** Row q of packet number m and row p of packet number n report the same. */
  predicate SameFindings(q: AnalysisRow, m: nat, p: AnalysisRow, n: nat) {
    && (q.skipped.Some? <==> p.skipped.Some?)
    && Unnumbered(q.events, m) == Unnumbered(p.events, n)
    && RowWarnings(q) == RowWarnings(p)
  }

  /** Which of the message results are exported. */
  function Sources(ms: seq<Parsed>): (r: seq<nat>)
    ensures |r| == |Exports(ms)| && forall i | 0 <= i < |r| :: r[i] < |ms|
  {
    if ms == [] then []
    else Sources(ms[..|ms| - 1]) + if ExportOf(ms[|ms| - 1]) == [] then [] else [|ms| - 1]
  }

  lemma PacketInput<E>(decode: Decoder<E>, g: Stamped, identification: uint16)
    ensures var p := Packet(g.0.Value(), Datagram(identification, g.1));
            PcapInputOf(decode, p) == Input(Some(g.0.Value()), ContentOf(decode, g.1.header.gsmtapType, g.1.payload))
  {
    DatagramLayout(identification, g.1);
    TypeRoundTrip(g.1.header.gsmtapType, g.1.header.gsmtapType.GetType(), g.1.header.gsmtapType.GetSubtype());
  }

  lemma SameElement<S(!new), E(!new)>(analyzers: seq<Analyzer<S, E>>, states: seq<S>, e: E, m: nat, n: nat)
    requires |states| == |analyzers| && IgnorePacketNumbers(analyzers)
    ensures NextStates(analyzers, states, e, m) == NextStates(analyzers, states, e, n)
    ensures RawEvents(analyzers, states, e, m) == RawEvents(analyzers, states, e, n)
  {
  }

  lemma SameStep<S(!new), E(!new)>(analyzers: seq<Analyzer<S, E>>, states: seq<S>, m: nat, n: nat, input: Input<E>)
    requires |states| == |analyzers| && IgnorePacketNumbers(analyzers)
    requires input.timestamp.Some? && !input.content.Nothing?
    ensures var (hq, q) := Step(analyzers, HarnessState(states, m), input);
            var (hp, p) := Step(analyzers, HarnessState(states, n), input);
            hq.states == hp.states && SameFindings(q, m + 1, p, n + 1)
  {
    if input.content.Element? {
      var e := input.content.element;
      SameElement(analyzers, states, e, m + 1, n + 1);
      var raw := RawEvents(analyzers, states, e, m + 1);
      UnnumberedNumbered(raw, m + 1);
      UnnumberedNumbered(raw, n + 1);
      NumberedWarnings(raw, m + 1);
      NumberedWarnings(raw, n + 1);
    }
  }

  lemma SilentStep<S, E>(analyzers: seq<Analyzer<S, E>>, decode: Decoder<E>, h: HarnessState<S>, m: Parsed)
    requires |h.states| == |analyzers| && ExportOf(m) == []
    ensures var (next, row) := Step(analyzers, h, InputOf(decode, m));
            next.states == h.states && RowWarnings(row) == 0
  {
  }

  function QmdlRun<S, E>(setup: Setup<S, E>, ms: seq<Parsed>):
    (HarnessState<S>, seq<AnalysisRow>)
    requires setup.Valid()
  {
    Run(setup.analyzers, setup.Fresh(), Inputs(setup.decode, ms))
  }

  function PcapRun<S, E>(setup: Setup<S, E>, ms: seq<Parsed>):
    (HarnessState<S>, seq<AnalysisRow>)
    requires setup.Valid()
  {
    PacketsRun(setup, Packets(Exports(ms)))
  }

  /** Rows p of a capture report what the rows of q at the given places report, and as many warnings as all of q. */
  predicate SameReport(q: seq<AnalysisRow>, p: seq<AnalysisRow>, sources: seq<nat>) {
    && |p| == |sources|
    && TotalWarnings(q) == TotalWarnings(p)
    && forall j | 0 <= j < |p| :: sources[j] < |q| && SameFindings(q[sources[j]], sources[j] + 1, p[j], j + 1)
  }

  lemma AddSilentRow(q: seq<AnalysisRow>, p: seq<AnalysisRow>, sources: seq<nat>, row: AnalysisRow)
    requires SameReport(q, p, sources) && RowWarnings(row) == 0
    ensures SameReport(q + [row], p, sources)
  {
    WithoutLast(q, row);
    forall j | 0 <= j < |p|
      ensures sources[j] < |q + [row]| && (q + [row])[sources[j]] == q[sources[j]]
    {
    }
  }

  lemma AddSameRows(q: seq<AnalysisRow>, p: seq<AnalysisRow>, sources: seq<nat>, x: AnalysisRow, y: AnalysisRow)
    requires SameReport(q, p, sources) && SameFindings(x, |q| + 1, y, |p| + 1)
    ensures SameReport(q + [x], p + [y], sources + [|q|])
  {
    WithoutLast(q, x);
    WithoutLast(p, y);
    var more := sources + [|q|];
    forall j | 0 <= j < |p + [y]|
      ensures more[j] < |q + [x]| && SameFindings((q + [x])[more[j]], more[j] + 1, (p + [y])[j], j + 1)
    {
      if j < |p| {
        assert more[j] == sources[j];
      }
    }
  }

  /** The capture leaves the same analyzer states as the file and gives the same report. */
  predicate Preserved<S(==), E>(setup: Setup<S, E>, ms: seq<Parsed>)
    requires setup.Valid()
  {
    var (hq, q) := QmdlRun(setup, ms);
    var (hp, p) := PcapRun(setup, ms);
    hq.states == hp.states && SameReport(q, p, Sources(ms))
  }

  lemma PreservedBySilent<S, E>(setup: Setup<S, E>, ms: seq<Parsed>, m: Parsed)
    requires setup.Valid() && Preserved(setup, ms) && ExportOf(m) == []
    ensures Preserved(setup, ms + [m])
  {
    var (h, q) := QmdlRun(setup, ms);
    QmdlRunOneMore(setup, ms, m);
    PcapRunSame(setup, ms, m);
    SilentStep(setup.analyzers, setup.decode, h, m);
    AddSilentRow(q, PcapRun(setup, ms).1, Sources(ms), Step(setup.analyzers, h, InputOf(setup.decode, m)).1);
    SourcesOneMore(ms, m);
  }

  lemma SameSteps<S(!new), E(!new)>(setup: Setup<S, E>, hq: HarnessState<S>, q: seq<AnalysisRow>,
                                    hp: HarnessState<S>, p: seq<AnalysisRow>, sources: seq<nat>, input: Input<E>)
    requires setup.Valid() && IgnorePacketNumbers(setup.analyzers)
    requires |hq.states| == |setup.analyzers| && hq.states == hp.states && hq.packetNum == |q| && hp.packetNum == |p|
    requires SameReport(q, p, sources) && input.timestamp.Some? && !input.content.Nothing?
    ensures var (nq, x) := Step(setup.analyzers, hq, input);
            var (np, y) := Step(setup.analyzers, hp, input);
            nq.states == np.states && SameReport(q + [x], p + [y], sources + [|q|])
  {
    SameStep(setup.analyzers, hq.states, |q|, |p|, input);
    AddSameRows(q, p, sources, Step(setup.analyzers, hq, input).1, Step(setup.analyzers, hp, input).1);
  }

  lemma PreservedByRuns<S, E>(setup: Setup<S, E>, ms: seq<Parsed>, hq: HarnessState<S>, q: seq<AnalysisRow>,
                              hp: HarnessState<S>, p: seq<AnalysisRow>)
    requires setup.Valid() && QmdlRun(setup, ms) == (hq, q) && PcapRun(setup, ms) == (hp, p)
    requires hq.states == hp.states && SameReport(q, p, Sources(ms))
    ensures Preserved(setup, ms)
  {
  }

  lemma PreservedByExport<S(!new), E(!new)>(setup: Setup<S, E>, ms: seq<Parsed>, m: Parsed)
    requires setup.Valid() && IgnorePacketNumbers(setup.analyzers)
    requires Preserved(setup, ms) && ExportOf(m) != []
    ensures Preserved(setup, ms + [m])
  {
    var (hq, q) := QmdlRun(setup, ms);
    var (hp, p) := PcapRun(setup, ms);
    QmdlRunOneMore(setup, ms, m);
    PcapRunOneMore(setup, ms, m);
    var input := InputOf(setup.decode, m);
    var (nq, x) := Step(setup.analyzers, hq, input);
    var (np, y) := Step(setup.analyzers, hp, input);
    SameSteps(setup, hq, q, hp, p, Sources(ms), input);
    SourcesOneMore(ms, m);
    PreservedByRuns(setup, ms + [m], nq, q + [x], np, p + [y]);
  }

  lemma SourcesOneMore(ms: seq<Parsed>, m: Parsed)
    ensures Sources(ms + [m]) == if ExportOf(m) == [] then Sources(ms) else Sources(ms) + [|ms|]
  {
    WithoutLast(ms, m);
    assert Sources(ms) + [] == Sources(ms);
  }

  /**
   The export preserves detection: row for row of the messages that yield GSMTAP, the capture is
   skipped or gives the same events as the file, up to the packet number they name, and leaves the
   same analyzer states; both print the same number of warnings.
   */
  lemma {:induction false} ExportPreservesDetection<S(!new), E(!new)>(setup: Setup<S, E>, ms: seq<Parsed>)
    requires setup.Valid() && IgnorePacketNumbers(setup.analyzers)
    ensures Preserved(setup, ms)
    decreases |ms|
  {
    if ms == [] {
    } else {
      var k := |ms| - 1;
      ExportPreservesDetection(setup, ms[..k]);
      PrefixGrows(ms, k);
      WholeSlice(ms);
      if ExportOf(ms[k]) == [] {
        PreservedBySilent(setup, ms[..k], ms[k]);
      } else {
        PreservedByExport(setup, ms[..k], ms[k]);
      }
    }
  }

  lemma QmdlRunOneMore<S, E>(setup: Setup<S, E>, ms: seq<Parsed>,
                             m: Parsed)
    requires setup.Valid()
    ensures var (h, rows) := QmdlRun(setup, ms);
            var (next, row) := Step(setup.analyzers, h, InputOf(setup.decode, m));
            h.packetNum == |ms| && QmdlRun(setup, ms + [m]) == (next, rows + [row])
  {
    var inputs, start := Inputs(setup.decode, ms), setup.Fresh();
    RunNumbers(setup.analyzers, start, inputs);
    InputsAppend(setup.decode, ms, [m]);
    assert Inputs(setup.decode, [m]) == [InputOf(setup.decode, m)];
    RunOneMore(setup.analyzers, start, inputs, InputOf(setup.decode, m));
  }

  lemma PcapRunSame<S, E>(setup: Setup<S, E>, ms: seq<Parsed>, m: Parsed)
    requires setup.Valid() && ExportOf(m) == []
    ensures PcapRun(setup, ms + [m]) == PcapRun(setup, ms)
  {
    ExportsOneMore(ms, m);
  }

  /** What is exported for one more message result gives the same input as the message result. */
  lemma OneMorePacket<E>(decode: Decoder<E>, ms: seq<Parsed>, m: Parsed) returns (packet: Packet)
    requires ExportOf(m) != []
    ensures Packets(Exports(ms + [m])) == Packets(Exports(ms)) + [packet] && Sliceable(packet.data)
    ensures PcapInputOf(decode, packet) == InputOf(decode, m)
  {
    var gs, g := Exports(ms), ExportOf(m)[0];
    packet := Packet(g.0.Value(), Datagram(|gs| % 0x1_0000, g.1));
    ExportsOneMore(ms, m);
    assert ExportOf(m) == [g];
    PacketsOneMore(gs, g);
    PacketInput(decode, g, |gs| % 0x1_0000);
  }

  lemma PcapRunOneMore<S, E>(setup: Setup<S, E>, ms: seq<Parsed>, m: Parsed)
    requires setup.Valid() && ExportOf(m) != []
    ensures var (h, rows) := PcapRun(setup, ms);
            var (next, row) := Step(setup.analyzers, h, InputOf(setup.decode, m));
            h.packetNum == |Exports(ms)| && PcapRun(setup, ms + [m]) == (next, rows + [row])
  {
    var packet := OneMorePacket(setup.decode, ms, m);
    PacketsRunOneMore(setup, Packets(Exports(ms)), packet);
  }
}
