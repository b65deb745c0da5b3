/**
 The analysis harness: every message result becomes one row, in which each analyzer may report an
 event. Analyzers are arbitrary deterministic step functions; the RRC and NAS decoders are one
 arbitrary function from GSMTAP type and payload to an optional element.
 */
module Harness {
  import opened Wrappers
  import opened Bytes
  import opened Events
  import opened Seqs
  import opened Containers
  import opened Gsmtap
  import Pcap

  /** An analyzer's reaction to an element in packet number n: its next state and its event. */
  type Analyzer<!S, !E> = (S, E, nat) -> (S, Option<Event>)

  type Decoder<!E> = (GsmtapType, seq<byte>) -> Option<E>

  datatype SkipReason =
    | NotParsed(parsing: DiagParsingError)
    | NotGsmtap(gsmtap: GsmtapParserError)
    | NoHeader(header: GsmtapTypeError)
    | NoElement(gsmtapType: GsmtapType)

  /** The time stamp is the raw diag value in a QMDL row. */
  datatype AnalysisRow = AnalysisRow(timestamp: Option<nat>, skipped: Option<SkipReason>, events: seq<Option<Event>>) {
    function GetMaxEventType(): EventType {
      MaxType(events)
    }

    predicate ContainsWarnings() {
      GetMaxEventType() != Informational
    }

    predicate IsEmpty() {
      skipped.None? && !ContainsWarnings()
    }
  }

  function MaxType(events: seq<Option<Event>>): EventType {
    if events == [] then Informational
    else
      var rest := MaxType(events[..|events| - 1]);
      var last := events[|events| - 1];
      if last.Some? then Max(rest, last.value.eventType) else rest
  }

  /** The maximum is reached by an event, or is Informational, and no event exceeds it. */
  lemma {:induction false} MaxTypeIsMaximum(events: seq<Option<Event>>)
    ensures forall i | 0 <= i < |events| && events[i].Some? ::
              events[i].value.eventType.Rank() <= MaxType(events).Rank()
    ensures MaxType(events) == Informational
         || exists i :: 0 <= i < |events| && events[i].Some? && events[i].value.eventType == MaxType(events)
  {
    if events == [] {
    } else {
      var before := events[..|events| - 1];
      MaxTypeIsMaximum(before);
      if MaxType(before) != Informational {
        var i :| 0 <= i < |before| && before[i].Some? && before[i].value.eventType == MaxType(before);
        assert events[i] == before[i];
      }
    }
  }

  /** A row is left out of the report exactly when it was analyzed and raised nothing above Informational. */
  lemma EmptyRows(row: AnalysisRow)
    ensures row.IsEmpty() <==>
              && row.skipped.None?
              && forall i | 0 <= i < |row.events| && row.events[i].Some? ::
                   row.events[i].value.eventType == Informational
  {
    MaxTypeIsMaximum(row.events);
  }

  // ---- Packet numbers in event messages ----

  function Decimal(n: nat): string {
    if n < 10 then [DIGITS[n]] else Decimal(n / 10) + [DIGITS[n % 10]]
  }

  const DIGITS: string := "0123456789"

  /** The number that a string of digits writes, most significant first. */
  function DigitsValue(digits: string): int {
    if digits == "" then 0
    else 10 * DigitsValue(digits[..|digits| - 1]) + (digits[|digits| - 1] as int - '0' as int)
  }

  lemma DigitReads(digits: string, d: nat)
    requires d < 10
    ensures '0' <= DIGITS[d] <= '9' && (DIGITS[d] == '0' <==> d == 0)
    ensures DigitsValue(digits + [DIGITS[d]]) == 10 * DigitsValue(digits) + d
  {
    WithoutLast(digits, DIGITS[d]);
  }

  /** Packet numbers are written in decimal, without leading zeros. */
  lemma {:induction false} DecimalReads(n: nat)
    ensures var digits := Decimal(n);
            && digits != "" && (forall i | 0 <= i < |digits| :: '0' <= digits[i] <= '9')
            && DigitsValue(digits) == n && (n > 0 ==> digits[0] != '0')
  {
    if n < 10 {
      DigitReads("", n);
      assert "" + [DIGITS[n]] == [DIGITS[n]];
    } else {
      DecimalReads(n / 10);
      DigitReads(Decimal(n / 10), n % 10);
    }
  }

  function PacketSuffix(n: nat): string {
    " (packet " + Decimal(n) + ")"
  }

  function WithSuffix(event: Option<Event>, n: nat): Option<Event> {
    if event.None? then None else Some(event.value.(message := event.value.message + PacketSuffix(n)))
  }

  // ---- Specification: a fold over message results ----

  datatype HarnessState<S> = HarnessState(states: seq<S>, packetNum: nat)

  function NextStates<S, E>(analyzers: seq<Analyzer<S, E>>, states: seq<S>, e: E, n: nat): (r: seq<S>)
    requires |states| == |analyzers|
    ensures |r| == |analyzers|
  {
    seq(|analyzers|, i requires 0 <= i < |analyzers| => analyzers[i](states[i], e, n).0)
  }

  function RawEvents<S, E>(analyzers: seq<Analyzer<S, E>>, states: seq<S>, e: E, n: nat): (r: seq<Option<Event>>)
    requires |states| == |analyzers|
    ensures |r| == |analyzers|
  {
    seq(|analyzers|, i requires 0 <= i < |analyzers| => analyzers[i](states[i], e, n).1)
  }

  function Numbered(events: seq<Option<Event>>, n: nat): (r: seq<Option<Event>>)
    ensures |r| == |events|
  {
    seq(|events|, i requires 0 <= i < |events| => WithSuffix(events[i], n))
  }

  /** The element, if any, that a message result gives the analyzers, or why there is none. */
  datatype Input<E> = Input(timestamp: Option<nat>, content: Content<E>)
  datatype Content<E> = Element(element: E) | Skip(reason: SkipReason) | Nothing

  function InputOf<E>(decode: Decoder<E>, m: Parsed): Input<E> {
    match m
    case Err(e) => Input(None, Skip(NotParsed(e)))
    case Ok(msg) =>
      match Parse(msg)
      case Err(e) => Input(None, Skip(NotGsmtap(e)))
      case Ok(None) => Input(None, Nothing)
      case Ok(Some((timestamp, g))) => Input(Some(timestamp.Value()), ContentOf(decode, g.header.gsmtapType, g.payload))
  }

  function ContentOf<E>(decode: Decoder<E>, t: GsmtapType, payload: seq<byte>): Content<E> {
    match decode(t, payload)
    case Some(e) => Element(e)
    case None => Skip(NoElement(t))
  }

  const GSMTAP_OFFSET: nat := 20 + 8
  const PACKET_OFFSET: nat := GSMTAP_OFFSET + 16

  /** The packet is long enough for what is looked at; otherwise slicing it panics. */
  predicate Sliceable(data: seq<byte>) {
    && GSMTAP_OFFSET + 12 < |data|
    && (NewType(data[GSMTAP_OFFSET + 2], data[GSMTAP_OFFSET + 12]).Ok? ==> PACKET_OFFSET <= |data|)
  }

  /** The same for a captured packet, of which only type, subtype and payload are looked at. */
  function PcapInputOf<E>(decode: Decoder<E>, packet: Pcap.Packet): Input<E>
    requires Sliceable(packet.data)
  {
    var content := match NewType(packet.data[GSMTAP_OFFSET + 2], packet.data[GSMTAP_OFFSET + 12])
      case Err(e) => Skip(NoHeader(e))
      case Ok(t) => ContentOf(decode, t, packet.data[PACKET_OFFSET..]);
    Input(Some(packet.timestamp), content)
  }

  /** Every input counts as a packet; only an element reaches the analyzers. */
  function Step<S, E>(analyzers: seq<Analyzer<S, E>>, h: HarnessState<S>, input: Input<E>):
    (r: (HarnessState<S>, AnalysisRow))
    requires |h.states| == |analyzers|
    ensures |r.0.states| == |analyzers| && r.0.packetNum == h.packetNum + 1
  {
    var n := h.packetNum + 1;
    match input.content
    case Element(e) =>
      (HarnessState(NextStates(analyzers, h.states, e, n), n),
       AnalysisRow(input.timestamp, None, Numbered(RawEvents(analyzers, h.states, e, n), n)))
    case Skip(reason) => (HarnessState(h.states, n), AnalysisRow(input.timestamp, Some(reason), []))
    case Nothing => (HarnessState(h.states, n), AnalysisRow(input.timestamp, None, []))
  }

  function Run<S, E>(analyzers: seq<Analyzer<S, E>>, h: HarnessState<S>, inputs: seq<Input<E>>):
    (r: (HarnessState<S>, seq<AnalysisRow>))
    requires |h.states| == |analyzers|
    ensures |r.0.states| == |analyzers| && |r.1| == |inputs|
    decreases |inputs|
  {
    if inputs == [] then (h, [])
    else
      var (h1, rows) := Run(analyzers, h, inputs[..|inputs| - 1]);
      var (h2, row) := Step(analyzers, h1, inputs[|inputs| - 1]);
      (h2, rows + [row])
  }

  function Inputs<E>(decode: Decoder<E>, ms: seq<Parsed>): (r: seq<Input<E>>)
    ensures |r| == |ms|
  {
    seq(|ms|, i requires 0 <= i < |ms| => InputOf(decode, ms[i]))
  }

  lemma RunOneMore<S, E>(analyzers: seq<Analyzer<S, E>>, h: HarnessState<S>, inputs: seq<Input<E>>, input: Input<E>)
    requires |h.states| == |analyzers|
    ensures var (h1, rows) := Run(analyzers, h, inputs);
            var (h2, row) := Step(analyzers, h1, input);
            Run(analyzers, h, inputs + [input]) == (h2, rows + [row])
  {
    WithoutLast(inputs, input);
  }

  /** Batching does not matter: a run over two batches is a run over their concatenation. */
  lemma {:induction false} RunConcat<S, E>(analyzers: seq<Analyzer<S, E>>, h: HarnessState<S>, a: seq<Input<E>>,
                                           b: seq<Input<E>>)
    requires |h.states| == |analyzers|
    ensures var (h1, rows1) := Run(analyzers, h, a);
            var (h2, rows2) := Run(analyzers, h1, b);
            Run(analyzers, h, a + b) == (h2, rows1 + rows2)
    decreases |b|
  {
    if b == [] {
      assert a + b == a;
      var rows1 := Run(analyzers, h, a).1;
      assert rows1 + [] == rows1;
    } else {
      var n := |b| - 1;
      var before := b[..n];
      RunConcat(analyzers, h, a, before);
      PrefixGrows(b, n);
      WholeSlice(b);
      Associative(a, before, [b[n]]);
      RunOneMore(analyzers, h, a + before, b[n]);
      var (h1, rows1) := Run(analyzers, h, a);
      RunOneMore(analyzers, h1, before, b[n]);
      var (h2, rows2) := Run(analyzers, h1, before);
      Associative(rows1, rows2, [Step(analyzers, h2, b[n]).1]);
    }
  }

  lemma InputsAppend<E>(decode: Decoder<E>, a: seq<Parsed>, b: seq<Parsed>)
    ensures Inputs(decode, a + b) == Inputs(decode, a) + Inputs(decode, b)
  {
  }

  /** The rows of one more container follow those of the containers before it. */
  lemma OneMoreContainer<S, E>(analyzers: seq<Analyzer<S, E>>, decode: Decoder<E>, h: HarnessState<S>,
                               cs: seq<MessagesContainer>, i: nat)
    requires |h.states| == |analyzers| && i < |cs|
    ensures var (h1, rows1) := Run(analyzers, h, Inputs(decode, AllMessages(cs[..i])));
            var (h2, rows2) := Run(analyzers, h1, Inputs(decode, Messages(cs[i])));
            Run(analyzers, h, Inputs(decode, AllMessages(cs[..i + 1]))) == (h2, rows1 + rows2)
  {
    AllMessagesNext(cs, i);
    InputsAppend(decode, AllMessages(cs[..i]), Messages(cs[i]));
    RunConcat(analyzers, h, Inputs(decode, AllMessages(cs[..i])), Inputs(decode, Messages(cs[i])));
  }

  /** Row i carries packet number i + 1 of a fresh harness. */
  lemma {:induction false} RunNumbers<S, E>(analyzers: seq<Analyzer<S, E>>, h: HarnessState<S>, inputs: seq<Input<E>>)
    requires |h.states| == |analyzers|
    ensures Run(analyzers, h, inputs).0.packetNum == h.packetNum + |inputs|
    decreases |inputs|
  {
    if inputs == [] {
    } else {
      RunNumbers(analyzers, h, inputs[..|inputs| - 1]);
    }
  }

  /** The enabled analyzers, their first states, and the decoder. */
  datatype Setup<!S, !E> = Setup(analyzers: seq<Analyzer<S, E>>, initial: seq<S>, decode: Decoder<E>) {
    predicate Valid() {
      |initial| == |analyzers|
    }

    function Fresh(): HarnessState<S> {
      HarnessState(initial, 0)
    }
  }

  // ---- The harness as it runs ----

  class Harness<!S, !E> {
    const analyzers: seq<Analyzer<S, E>>
    const decode: Decoder<E>
    var states: seq<S>
    var packetNum: nat

    ghost predicate Valid()
      reads this
    {
      |states| == |analyzers|
    }

    ghost function Model(): HarnessState<S>
      reads this
    {
      HarnessState(states, packetNum)
    }

    constructor (analyzers: seq<Analyzer<S, E>>, decode: Decoder<E>, initial: seq<S>)
      requires |initial| == |analyzers|
      ensures Valid() && this.analyzers == analyzers && this.decode == decode
      ensures Model() == HarnessState(initial, 0)
    {
      this.analyzers := analyzers;
      this.decode := decode;
      states := initial;
      packetNum := 0;
    }

    method AnalyzeInformationElement(e: E) returns (events: seq<Option<Event>>)
      requires Valid()
      modifies this
      ensures Valid() && packetNum == old(packetNum)
      ensures states == NextStates(analyzers, old(states), e, packetNum)
      ensures events == Numbered(RawEvents(analyzers, old(states), e, packetNum), packetNum)
    {
      events := [];
      for i := 0 to |analyzers|
        invariant |states| == |analyzers| && packetNum == old(packetNum)
        invariant |events| == i
        invariant forall j | 0 <= j < i :: states[j] == analyzers[j](old(states)[j], e, packetNum).0
        invariant forall j | i <= j < |analyzers| :: states[j] == old(states)[j]
        invariant forall j | 0 <= j < i ::
                    events[j] == WithSuffix(analyzers[j](old(states)[j], e, packetNum).1, packetNum)
      {
        var (next, maybeEvent) := analyzers[i](states[i], e, packetNum);
        states := states[i := next];
        if maybeEvent.Some? {
          maybeEvent := Some(maybeEvent.value.(message := maybeEvent.value.message + PacketSuffix(packetNum)));
        }
        events := events + [maybeEvent];
      }
    }

    /** The row of a captured packet, or None for a panic. */
    method AnalyzePcapPacket(packet: Pcap.Packet) returns (row: Option<AnalysisRow>)
      requires Valid()
      modifies this
      ensures Valid()
      ensures row.Some? <==> Sliceable(packet.data)
      ensures row.Some? ==> (Model(), row.value) == Step(analyzers, old(Model()), PcapInputOf(decode, packet))
    {
      packetNum := packetNum + 1;
      if |packet.data| <= GSMTAP_OFFSET + 12 {
        return None;
      }
      var gsmtapData := packet.data[GSMTAP_OFFSET..];
      match NewType(gsmtapData[2], gsmtapData[12]) {
        case Err(e) => return Some(AnalysisRow(Some(packet.timestamp), Some(NoHeader(e)), []));
        case Ok(t) =>
          if |packet.data| < PACKET_OFFSET {
            return None;
          }
          match decode(t, packet.data[PACKET_OFFSET..]) {
            case None => return Some(AnalysisRow(Some(packet.timestamp), Some(NoElement(t)), []));
            case Some(e) =>
              var events := AnalyzeInformationElement(e);
              return Some(AnalysisRow(Some(packet.timestamp), None, events));
          }
      }
    }

    method AnalyzeMessage(m: Parsed) returns (row: AnalysisRow)
      requires Valid()
      modifies this
      ensures Valid()
      ensures (Model(), row) == Step(analyzers, old(Model()), InputOf(decode, m))
    {
      packetNum := packetNum + 1;
      row := AnalysisRow(None, None, []);
      match m {
        case Err(e) => row := row.(skipped := Some(NotParsed(e)));
        case Ok(msg) =>
          match Parse(msg) {
            case Err(e) => row := row.(skipped := Some(NotGsmtap(e)));
            case Ok(None) =>
            case Ok(Some((timestamp, g))) =>
              row := row.(timestamp := Some(timestamp.Value()));
              match decode(g.header.gsmtapType, g.payload) {
                case None => row := row.(skipped := Some(NoElement(g.header.gsmtapType)));
                case Some(e) =>
                  var events := AnalyzeInformationElement(e);
                  row := row.(events := events);
              }
          }
      }
    }

    /** In a release build, in which parsing a container does not panic. */
    method AnalyzeQmdlMessages(c: MessagesContainer) returns (rows: seq<AnalysisRow>)
      requires Valid()
      modifies this
      ensures Valid()
      ensures (Model(), rows) == Run(analyzers, old(Model()), Inputs(decode, Messages(c)))
    {
      rows := [];
      var parsed := IntoMessages(false, c);
      var messages := parsed.value;
      ghost var inputs := Inputs(decode, messages);
      for i := 0 to |messages|
        invariant Valid()
        invariant (Model(), rows) == Run(analyzers, old(Model()), inputs[..i])
      {
        PrefixGrows(inputs, i);
        RunOneMore(analyzers, old(Model()), inputs[..i], inputs[i]);
        var row := AnalyzeMessage(messages[i]);
        rows := rows + [row];
      }
      assert inputs[..|messages|] == inputs;
    }
  }
}
