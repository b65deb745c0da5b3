/**
 What the harness does for each of its analyzers: every analyzer steps through all decoded elements in
 order, from its own state, as if it were alone, and its events stand in its own column of the rows.
 */
module Analyzers {
  import opened Wrappers
  import opened Events
  import opened Seqs
  import opened Containers
  import opened Gsmtap
  import opened Harness
  import opened Reports
  import Analysis
  import Check
  import Imsi

  // ---- An analyzer alone ----

  /** An element and the number of the packet that it came in. */
  datatype Seen<E> = Seen(element: E, packetNum: nat)

  /** The element that a message result holds, if it parses, yields GSMTAP and decodes. */
  function ElementOf<E>(decode: Decoder<E>, m: Parsed): Option<E> {
    if m.Err? then None
    else
      match Parse(m.value)
      case Ok(Some((_, g))) => decode(g.header.gsmtapType, g.payload)
      case _ => None
  }

  /** Why a message result has no element; a message that is no RRC or NAS log is not marked as skipped. */
  function SkippedFor<E>(decode: Decoder<E>, m: Parsed): Option<SkipReason> {
    match m
    case Err(e) => Some(NotParsed(e))
    case Ok(message) =>
      match Parse(message)
      case Err(e) => Some(NotGsmtap(e))
      case Ok(None) => None
      case Ok(Some((_, g))) =>
        if decode(g.header.gsmtapType, g.payload).None? then Some(NoElement(g.header.gsmtapType)) else None
  }

  /** The raw time stamp of a message that yields GSMTAP. */
  function TimeOf(m: Parsed): Option<nat> {
    if m.Err? then None
    else
      match Parse(m.value)
      case Ok(Some((timestamp, _))) => Some(timestamp.Value())
      case _ => None
  }

  /** The elements of message results that come after n packets. */
  function SeenIn<E>(decode: Decoder<E>, ms: seq<Parsed>, n: nat): seq<Seen<E>> {
    if ms == [] then []
    else
      var e := ElementOf(decode, ms[|ms| - 1]);
      SeenIn(decode, ms[..|ms| - 1], n) + if e.Some? then [Seen(e.value, n + |ms|)] else []
  }

  function StateAlone<S, E>(analyzer: Analyzer<S, E>, s: S, seen: seq<Seen<E>>): S {
    if seen == [] then s
    else
      var last := seen[|seen| - 1];
      analyzer(StateAlone(analyzer, s, seen[..|seen| - 1]), last.element, last.packetNum).0
  }

  /** What the analyzer says of an element that comes after those seen. */
  function EventAlone<S, E>(analyzer: Analyzer<S, E>, s: S, seen: seq<Seen<E>>, next: Seen<E>): Option<Event> {
    analyzer(StateAlone(analyzer, s, seen), next.element, next.packetNum).1
  }

  function Named(event: Option<Event>, n: nat): Option<Event> {
    match event
    case None => None
    case Some(Event(eventType, message)) => Some(Event(eventType, message + " (packet " + Decimal(n) + ")"))
  }

  // ---- The harness and the analyzer alone ----

  /** The row of message result j: time stamp, whether it was skipped, and the event of analyzer i of count. */
  predicate RowTells<S(!new), E(!new)>(row: AnalysisRow, count: nat, i: nat, analyzer: Analyzer<S, E>, s: S,
                                       decode: Decoder<E>, ms: seq<Parsed>, j: nat, n: nat)
    requires i < count && j < |ms|
  {
    var e := ElementOf(decode, ms[j]);
    && row.skipped == SkippedFor(decode, ms[j]) && row.timestamp == TimeOf(ms[j])
    && if e.None? then row.events == []
       else
         && |row.events| == count
         && row.events[i]
            == Named(EventAlone(analyzer, s, SeenIn(decode, ms[..j], n), Seen(e.value, n + j + 1)), n + j + 1)
  }

  ghost predicate RowsTell<S(!new), E(!new)>(rows: seq<AnalysisRow>, count: nat, i: nat, analyzer: Analyzer<S, E>,
                                             s: S, decode: Decoder<E>, ms: seq<Parsed>, n: nat)
    requires i < count && |rows| == |ms|
  {
    forall j | 0 <= j < |ms| :: RowTells(rows[j], count, i, analyzer, s, decode, ms, j, n)
  }

  lemma StepAlone<S(!new), E(!new)>(analyzers: seq<Analyzer<S, E>>, decode: Decoder<E>, h: HarnessState<S>, m: Parsed,
                        i: nat)
    requires |h.states| == |analyzers| && i < |analyzers|
    ensures var (next, row) := Step(analyzers, h, InputOf(decode, m));
            match ElementOf(decode, m)
            case None => next.states[i] == h.states[i] && row.events == []
            case Some(e) =>
              && next.states[i] == analyzers[i](h.states[i], e, h.packetNum + 1).0
              && |row.events| == |analyzers|
              && row.events[i] == Named(analyzers[i](h.states[i], e, h.packetNum + 1).1, h.packetNum + 1)
  {
    var n := h.packetNum + 1;
    if ElementOf(decode, m).Some? {
      var e := ElementOf(decode, m).value;
      var event := analyzers[i](h.states[i], e, n).1;
      if event.Some? {
        assert " (packet " + Decimal(n) + ")" == PacketSuffix(n);
        Associative(event.value.message + " (packet ", Decimal(n), ")");
        Associative(event.value.message, " (packet ", Decimal(n) + ")");
        Associative(event.value.message, " (packet ", Decimal(n));
        Associative(event.value.message, " (packet " + Decimal(n), ")");
      }
    }
  }

  lemma StepMarks<S, E>(analyzers: seq<Analyzer<S, E>>, decode: Decoder<E>, h: HarnessState<S>, m: Parsed)
    requires |h.states| == |analyzers|
    ensures var row := Step(analyzers, h, InputOf(decode, m)).1;
            row.skipped == SkippedFor(decode, m) && row.timestamp == TimeOf(m)
  {
  }

  lemma SeenOneMore<E>(decode: Decoder<E>, ms: seq<Parsed>, m: Parsed, n: nat)
    ensures SeenIn(decode, ms + [m], n)
         == match ElementOf(decode, m)
            case None => SeenIn(decode, ms, n)
            case Some(e) => SeenIn(decode, ms, n) + [Seen(e, n + |ms| + 1)]
  {
    WithoutLast(ms, m);
    assert SeenIn(decode, ms, n) + [] == SeenIn(decode, ms, n);
  }

  lemma StateOneMore<S, E>(analyzer: Analyzer<S, E>, s: S, seen: seq<Seen<E>>, next: Seen<E>)
    ensures StateAlone(analyzer, s, seen + [next])
         == analyzer(StateAlone(analyzer, s, seen), next.element, next.packetNum).0
  {
    WithoutLast(seen, next);
  }

  lemma RowsTellMore<S(!new), E(!new)>(rows: seq<AnalysisRow>, row: AnalysisRow, count: nat, i: nat,
                                       analyzer: Analyzer<S, E>, s: S, decode: Decoder<E>, ms: seq<Parsed>, m: Parsed,
                                       n: nat)
    requires i < count && |rows| == |ms| && RowsTell(rows, count, i, analyzer, s, decode, ms, n)
    requires RowTells(row, count, i, analyzer, s, decode, ms + [m], |ms|, n)
    ensures RowsTell(rows + [row], count, i, analyzer, s, decode, ms + [m], n)
  {
    forall j | 0 <= j < |ms + [m]|
      ensures RowTells((rows + [row])[j], count, i, analyzer, s, decode, ms + [m], j, n)
    {
      if j < |ms| {
        assert (ms + [m])[..j] == ms[..j] && (ms + [m])[j] == ms[j];
        assert RowTells(rows[j], count, i, analyzer, s, decode, ms, j, n);
      }
    }
  }

  /** The state of analyzer i after one more message result. */
  lemma StateNext<S(!new), E(!new)>(analyzers: seq<Analyzer<S, E>>, decode: Decoder<E>, s: S, z: HarnessState<S>,
                                    ms: seq<Parsed>, m: Parsed, i: nat, n: nat)
    requires |z.states| == |analyzers| && i < |analyzers| && z.packetNum == n + |ms|
    requires z.states[i] == StateAlone(analyzers[i], s, SeenIn(decode, ms, n))
    ensures Step(analyzers, z, InputOf(decode, m)).0.states[i]
         == StateAlone(analyzers[i], s, SeenIn(decode, ms + [m], n))
  {
    StepAlone(analyzers, decode, z, m, i);
    SeenOneMore(decode, ms, m, n);
    if ElementOf(decode, m).Some? {
      StateOneMore(analyzers[i], s, SeenIn(decode, ms, n), Seen(ElementOf(decode, m).value, n + |ms| + 1));
    }
  }

  /** The row of one more message result. */
  lemma RowNext<S(!new), E(!new)>(analyzers: seq<Analyzer<S, E>>, decode: Decoder<E>, s: S, z: HarnessState<S>,
                                  ms: seq<Parsed>, m: Parsed, i: nat, n: nat)
    requires |z.states| == |analyzers| && i < |analyzers| && z.packetNum == n + |ms|
    requires z.states[i] == StateAlone(analyzers[i], s, SeenIn(decode, ms, n))
    ensures RowTells(Step(analyzers, z, InputOf(decode, m)).1, |analyzers|, i, analyzers[i], s, decode, ms + [m], |ms|,
                     n)
  {
    StepAlone(analyzers, decode, z, m, i);
    StepMarks(analyzers, decode, z, m);
    WithoutLast(ms, m);
  }

  lemma RunOneMessage<S, E>(analyzers: seq<Analyzer<S, E>>, decode: Decoder<E>, h: HarnessState<S>, ms: seq<Parsed>,
                            m: Parsed)
    requires |h.states| == |analyzers|
    ensures var (z, rows) := Run(analyzers, h, Inputs(decode, ms));
            var (next, row) := Step(analyzers, z, InputOf(decode, m));
            Run(analyzers, h, Inputs(decode, ms + [m])) == (next, rows + [row])
  {
    InputsAppend(decode, ms, [m]);
    assert Inputs(decode, [m]) == [InputOf(decode, m)];
    RunOneMore(analyzers, h, Inputs(decode, ms), InputOf(decode, m));
  }

  /**
   Analyzer i ends in the state it reaches alone on the elements of the message results, and the rows tell
   of it what it says alone.
   */
  ghost predicate RunsAlone<S(!new), E(!new)>(analyzers: seq<Analyzer<S, E>>, decode: Decoder<E>, h: HarnessState<S>,
                                              ms: seq<Parsed>, i: nat, z: HarnessState<S>, rows: seq<AnalysisRow>)
    requires |h.states| == |analyzers| && i < |analyzers|
  {
    && |z.states| == |analyzers| && |rows| == |ms| && z.packetNum == h.packetNum + |ms|
    && z.states[i] == StateAlone(analyzers[i], h.states[i], SeenIn(decode, ms, h.packetNum))
    && RowsTell(rows, |analyzers|, i, analyzers[i], h.states[i], decode, ms, h.packetNum)
  }

  lemma RunsAloneMore<S(!new), E(!new)>(analyzers: seq<Analyzer<S, E>>, decode: Decoder<E>, h: HarnessState<S>,
                                        ms: seq<Parsed>, m: Parsed, i: nat, z: HarnessState<S>, rows: seq<AnalysisRow>)
    requires |h.states| == |analyzers| && i < |analyzers| && RunsAlone(analyzers, decode, h, ms, i, z, rows)
    ensures var (next, row) := Step(analyzers, z, InputOf(decode, m));
            RunsAlone(analyzers, decode, h, ms + [m], i, next, rows + [row])
  {
    StateNext(analyzers, decode, h.states[i], z, ms, m, i, h.packetNum);
    RowNext(analyzers, decode, h.states[i], z, ms, m, i, h.packetNum);
    RowsTellMore(rows, Step(analyzers, z, InputOf(decode, m)).1, |analyzers|, i, analyzers[i], h.states[i], decode, ms,
                 m, h.packetNum);
  }

  /**
   Whatever the other analyzers do and however the messages were batched, analyzer i ends in the state it
   would reach alone on the decoded elements, and its events are those it would raise alone, each naming
   the packet it belongs to.
   */
  lemma {:induction false} EachRunsAlone<S(!new), E(!new)>(analyzers: seq<Analyzer<S, E>>, decode: Decoder<E>,
                                                           h: HarnessState<S>, ms: seq<Parsed>, i: nat)
    requires |h.states| == |analyzers| && i < |analyzers|
    ensures var (z, rows) := Run(analyzers, h, Inputs(decode, ms)); RunsAlone(analyzers, decode, h, ms, i, z, rows)
    decreases |ms|
  {
    if ms == [] {
    } else {
      var before, m := ms[..|ms| - 1], ms[|ms| - 1];
      EachRunsAlone(analyzers, decode, h, before, i);
      var (z, rows) := Run(analyzers, h, Inputs(decode, before));
      RunOneMessage(analyzers, decode, h, before, m);
      RunsAloneMore(analyzers, decode, h, before, m, i, z, rows);
      assert before + [m] == ms;
    }
  }

  /** The same for containers that arrive one after another. */
  lemma LiveRunsAlone<S(!new), E(!new)>(setup: Setup<S, E>, cs: seq<MessagesContainer>, i: nat)
    requires setup.Valid() && i < |setup.analyzers|
    ensures var (z, rows) := Live(Analysis.MachineOf(setup), cs);
            var ms := AllMessages(cs);
            RunsAlone(setup.analyzers, setup.decode, setup.Fresh(), ms, i, z, rows)
  {
    Analysis.LiveIsRun(setup, cs);
    EachRunsAlone(setup.analyzers, setup.decode, setup.Fresh(), AllMessages(cs), i);
  }

  // ---- The identity-request analyzer in the harness ----

  function ElementsIn<E>(decode: Decoder<E>, ms: seq<Parsed>): seq<E> {
    if ms == [] then []
    else
      var e := ElementOf(decode, ms[|ms| - 1]);
      ElementsIn(decode, ms[..|ms| - 1]) + if e.Some? then [e.value] else []
  }

  lemma ElementsOneMore<E>(decode: Decoder<E>, ms: seq<Parsed>, m: Parsed)
    ensures ElementsIn(decode, ms + [m])
         == match ElementOf(decode, m)
            case None => ElementsIn(decode, ms)
            case Some(e) => ElementsIn(decode, ms) + [e]
  {
    WithoutLast(ms, m);
    assert ElementsIn(decode, ms) + [] == ElementsIn(decode, ms);
  }

  lemma AfterOneMore(trace: seq<Imsi.Element>, e: Imsi.Element)
    ensures Imsi.After(trace + [e]) == Imsi.Step(Imsi.After(trace), e).0
  {
    WithoutLast(trace, e);
  }

  lemma {:induction false} ImsiAlone(decode: Decoder<Imsi.Element>, ms: seq<Parsed>, n: nat)
    ensures StateAlone(Check.ImsiAnalyzer(), Imsi.INITIAL, SeenIn(decode, ms, n)) == Imsi.After(ElementsIn(decode, ms))
    decreases |ms|
  {
    if ms == [] {
    } else {
      var before, m := ms[..|ms| - 1], ms[|ms| - 1];
      ImsiAlone(decode, before, n);
      assert before + [m] == ms;
      SeenOneMore(decode, before, m, n);
      ElementsOneMore(decode, before, m);
      if ElementOf(decode, m).Some? {
        var e := ElementOf(decode, m).value;
        StateOneMore(Check.ImsiAnalyzer(), Imsi.INITIAL, SeenIn(decode, before, n), Seen(e, n + |ms|));
        AfterOneMore(ElementsIn(decode, before), e);
      }
    }
  }

  lemma ImsiEvent(decode: Decoder<Imsi.Element>, ms: seq<Parsed>, m: Parsed, n: nat)
    requires ElementOf(decode, m).Some?
    ensures var k, trace := |ElementsIn(decode, ms)|, ElementsIn(decode, ms + [m]);
            && k < |trace|
            && EventAlone(Check.ImsiAnalyzer(), Imsi.INITIAL, SeenIn(decode, ms, n),
                          Seen(ElementOf(decode, m).value, n + |ms| + 1)) == Imsi.EventAt(trace, k)
  {
    WithoutLast(ms, m);
    WithoutLast(ElementsIn(decode, ms), ElementOf(decode, m).value);
    ImsiAlone(decode, ms, n);
  }

  /**
   The identity-request analyzer among others: its state is that of the automaton on the decoded elements,
   and the row of each element carries the event of the automaton for it, with the number of the packet.
   */
  lemma ImsiInHarness(setup: Setup<Imsi.Automaton, Imsi.Element>, cs: seq<MessagesContainer>, i: nat, j: nat)
    requires setup.Valid() && i < |setup.analyzers|
    requires setup.analyzers[i] == Check.ImsiAnalyzer() && setup.initial[i] == Imsi.INITIAL
    requires j < |AllMessages(cs)|
    ensures var (z, rows) := Live(Analysis.MachineOf(setup), cs);
            var ms := AllMessages(cs);
            && |z.states| == |setup.analyzers| && |rows| == |ms|
            && z.states[i] == Imsi.After(ElementsIn(setup.decode, ms))
            && (ElementOf(setup.decode, ms[j]).Some? ==>
                  var k, trace := |ElementsIn(setup.decode, ms[..j])|, ElementsIn(setup.decode, ms[..j + 1]);
                  && k < |trace| && |rows[j].events| == |setup.analyzers|
                  && rows[j].events[i] == Named(Imsi.EventAt(trace, k), j + 1))
  {
    var ms, rows := AllMessages(cs), Live(Analysis.MachineOf(setup), cs).1;
    LiveRunsAlone(setup, cs, i);
    ImsiAlone(setup.decode, ms, 0);
    assert RowTells(rows[j], |setup.analyzers|, i, setup.analyzers[i], setup.initial[i], setup.decode, ms, j, 0);
    if ElementOf(setup.decode, ms[j]).Some? {
      PrefixGrows(ms, j);
      ImsiEvent(setup.decode, ms[..j], ms[j], 0);
    }
  }
}
