/** The analyzer that watches for identity requests (IMSI or IMEI) in suspicious places. */
module Imsi {
  import opened Wrappers
  import opened Events
  import opened Seqs

  // ---- Elements, as far as the analyzer tells them apart ----

  datatype Nas =
    | EmmExtServiceRequest | EmmAttachRequest | EmmIdentityRequest | EmmAttachComplete
    | EmmAuthenticationResponse | EmmServiceReject | EmmAttachReject | EmmDetachRequestMO
    | EmmDetachRequestMT | EmmTrackingAreaUpdateReject | OtherNas

  datatype UlCcch = RrcConnectionRequest | RrcConnectionReestablishmentRequest | OtherUlCcch

  datatype DlDcch = RrcConnectionRelease | OtherDlDcch

  datatype Element = Nas(nas: Nas) | UlCcch(ulCcch: UlCcch) | DlDcch(dlDcch: DlDcch) | OtherLte | NotLte

  datatype State = Unattached | AttachRequest | IdentityRequest | AuthAccept | Disconnect

  /** The state an element asks for, if it is one the analyzer knows. */
  function ClassOf(e: Element): Option<State> {
    match e
    case Nas(EmmExtServiceRequest) => Some(AttachRequest)
    case Nas(EmmAttachRequest) => Some(AttachRequest)
    case Nas(EmmIdentityRequest) => Some(IdentityRequest)
    case Nas(EmmAttachComplete) => Some(AuthAccept)
    case Nas(EmmAuthenticationResponse) => Some(AuthAccept)
    case Nas(OtherNas) => None
    case Nas(_) => Some(Disconnect)
    case UlCcch(OtherUlCcch) => None
    case UlCcch(_) => Some(AttachRequest)
    case DlDcch(RrcConnectionRelease) => Some(Disconnect)
    case DlDcch(OtherDlDcch) => None
    case OtherLte => None
    case NotLte => None
  }

  const TIMEOUT_THRESHHOLD: nat := 50

  const AFTER_AUTH := Event(High, "Identity requested after auth request")
  const WITHOUT_ATTACH := Event(High, "Identity requested without Attach Request")
  const WITHOUT_AUTH := Event(High, "Disconnected after Identity Request without Auth Accept")
  const REQUESTED := Event(Informational, "Identity Request happened but its not suspicious yet.")
  const TIMEOUT := Event(Informational, "Identity request happened without auth request followup")

  // ---- Specification ----

  datatype Automaton = Automaton(state: State, timeoutCounter: nat, flag: Option<Event>)

  const INITIAL := Automaton(Unattached, 0, None)

  function Transitioned(a: Automaton, next: State): Automaton {
    var b :=
      if next == AuthAccept then a.(timeoutCounter := 0)
      else if a.state == AuthAccept && next == IdentityRequest then a.(flag := Some(AFTER_AUTH))
      else if a.state == Disconnect && next == IdentityRequest then a.(flag := Some(WITHOUT_ATTACH))
      else if a.state == IdentityRequest && next == Disconnect then a.(flag := Some(WITHOUT_AUTH))
      else if next == IdentityRequest then a.(flag := Some(REQUESTED), timeoutCounter := 0)
      else a;
    b.(state := next)
  }

  function Ticked(a: Automaton): Automaton {
    if a.state != IdentityRequest then a
    else if a.timeoutCounter + 1 >= TIMEOUT_THRESHHOLD then a.(flag := Some(TIMEOUT), timeoutCounter := 0)
    else a.(timeoutCounter := a.timeoutCounter + 1)
  }

  /** One element: the automaton afterwards, and the event returned. */
  function Step(a: Automaton, e: Element): (Automaton, Option<Event>) {
    var b := Ticked(if ClassOf(e).Some? then Transitioned(a, ClassOf(e).value) else a);
    (b.(flag := None), b.flag)
  }

  // ---- The analyzer ----

  class ImsiRequestedAnalyzer {
    var state: State
    var timeoutCounter: nat
    var flag: Option<Event>

    ghost function Model(): Automaton
      reads this
    {
      Automaton(state, timeoutCounter, flag)
    }

    constructor ()
      ensures Model() == INITIAL
    {
      state := Unattached;
      timeoutCounter := 0;
      flag := None;
    }

    method Transition(next: State)
      modifies this
      ensures Model() == Transitioned(old(Model()), next)
    {
      match (state, next) {
        case (_, AuthAccept) => timeoutCounter := 0;
        case (AuthAccept, IdentityRequest) => flag := Some(AFTER_AUTH);
        case (Disconnect, IdentityRequest) => flag := Some(WITHOUT_ATTACH);
        case (IdentityRequest, Disconnect) => flag := Some(WITHOUT_AUTH);
        case (_, IdentityRequest) =>
          flag := Some(REQUESTED);
          timeoutCounter := 0;
        case _ =>
      }
      state := next;
    }

    method AnalyzeInformationElement(e: Element) returns (event: Option<Event>)
      modifies this
      ensures (Model(), event) == Step(old(Model()), e)
    {
      match e {
        case Nas(EmmExtServiceRequest) => Transition(AttachRequest);
        case Nas(EmmAttachRequest) => Transition(AttachRequest);
        case Nas(EmmIdentityRequest) => Transition(IdentityRequest);
        case Nas(EmmAttachComplete) => Transition(AuthAccept);
        case Nas(EmmAuthenticationResponse) => Transition(AuthAccept);
        case Nas(OtherNas) =>
        case Nas(_) => Transition(Disconnect);
        case UlCcch(OtherUlCcch) =>
        case UlCcch(_) => Transition(AttachRequest);
        case DlDcch(RrcConnectionRelease) => Transition(Disconnect);
        case _ =>
      }
      if state == IdentityRequest {
        timeoutCounter := timeoutCounter + 1;
        if timeoutCounter >= TIMEOUT_THRESHHOLD {
          flag := Some(TIMEOUT);
          timeoutCounter := 0;
        }
      }
      event := flag;
      flag := None;
    }
  }

  // ---- Whole traces ----

  function After(trace: seq<Element>): Automaton {
    if trace == [] then INITIAL else Step(After(trace[..|trace| - 1]), trace[|trace| - 1]).0
  }

  /** The event returned for element i of the trace. */
  function EventAt(trace: seq<Element>, i: nat): Option<Event>
    requires i < |trace|
  {
    Step(After(trace[..i]), trace[i]).1
  }

  /** The class of the last classified element, or Unattached before any. */
  function LastClass(trace: seq<Element>): State {
    if trace == [] then Unattached
    else
      var e := trace[|trace| - 1];
      if ClassOf(e).Some? then ClassOf(e).value else LastClass(trace[..|trace| - 1])
  }

  /** Authentication always restarts the count; an identity request does unless it follows auth or disconnect. */
  predicate Restarts(previous: State, e: Element) {
    || ClassOf(e) == Some(AuthAccept)
    || (ClassOf(e) == Some(IdentityRequest) && previous != AuthAccept && previous != Disconnect)
  }

  /** How many elements since the last restart left the trace on an identity request. */
  function Ticks(trace: seq<Element>): nat {
    if trace == [] then 0
    else
      var before, e := trace[..|trace| - 1], trace[|trace| - 1];
      (if Restarts(LastClass(before), e) then 0 else Ticks(before))
      + (if LastClass(trace) == IdentityRequest then 1 else 0)
  }

  lemma {:induction false} AfterAuthNoTicks(trace: seq<Element>)
    requires LastClass(trace) == AuthAccept
    ensures Ticks(trace) == 0
  {
    var before, e := trace[..|trace| - 1], trace[|trace| - 1];
    if ClassOf(e).None? {
      AfterAuthNoTicks(before);
    }
  }

  /** What one element does to the state and the counter, with no event pending before. */
  lemma StepState(a: Automaton, e: Element)
    requires a.flag.None?
    ensures var next := if ClassOf(e).Some? then ClassOf(e).value else a.state;
            var base := if Restarts(a.state, e) then 0 else a.timeoutCounter;
            var ticked := if base + 1 >= TIMEOUT_THRESHHOLD then 0 else base + 1;
            Step(a, e).0 == Automaton(next, if next == IdentityRequest then ticked else base, None)
  {
  }

  lemma NextTick(ticks: nat)
    ensures var base := ticks % TIMEOUT_THRESHHOLD;
            (ticks + 1) % TIMEOUT_THRESHHOLD == if base + 1 >= TIMEOUT_THRESHHOLD then 0 else base + 1
  {
  }

  /**
   At every call boundary: the state is the last class, no event is pending, and the counter is the
   ticks modulo 50.
   */
  lemma {:induction false} StateOfTrace(trace: seq<Element>)
    ensures After(trace) == Automaton(LastClass(trace), Ticks(trace) % TIMEOUT_THRESHHOLD, None)
  {
    if trace == [] {
    } else {
      var before, e := trace[..|trace| - 1], trace[|trace| - 1];
      StateOfTrace(before);
      StepState(After(before), e);
      NextTick(if Restarts(LastClass(before), e) then 0 else Ticks(before));
    }
  }

  lemma EventOfTrace(trace: seq<Element>, i: nat)
    requires i < |trace|
    ensures EventAt(trace, i)
         == Step(Automaton(LastClass(trace[..i]), Ticks(trace[..i]) % TIMEOUT_THRESHHOLD, None), trace[i]).1
  {
    StateOfTrace(trace[..i]);
  }

  predicate IsHigh(trace: seq<Element>, i: nat)
    requires i < |trace|
  {
    EventAt(trace, i).Some? && EventAt(trace, i).value.eventType == High
  }

  /**
   A High event is returned exactly when consecutive classes are auth then identity, identity then
   disconnect, or disconnect then identity, the last only if the carried counter does not stand at 49.
   */
  lemma HighExactly(trace: seq<Element>, i: nat)
    requires i < |trace|
    ensures IsHigh(trace, i)
       <==> match (LastClass(trace[..i]), ClassOf(trace[i]))
            case (AuthAccept, Some(IdentityRequest)) => true
            case (IdentityRequest, Some(Disconnect)) => true
            case (Disconnect, Some(IdentityRequest)) => Ticks(trace[..i]) % TIMEOUT_THRESHHOLD != 49
            case _ => false
  {
    EventOfTrace(trace, i);
    if LastClass(trace[..i]) == AuthAccept {
      AfterAuthNoTicks(trace[..i]);
    }
  }

  lemma SliceStep(trace: seq<Element>, i: nat)
    requires i < |trace|
    ensures trace[..i + 1][..i] == trace[..i] && trace[..i + 1][i] == trace[i]
  {
  }

  predicate IsTimeout(trace: seq<Element>, i: nat)
    requires i < |trace|
  {
    EventAt(trace, i) == Some(TIMEOUT)
  }

  predicate IsFiftiethTick(trace: seq<Element>, i: nat)
    requires i < |trace|
  {
    LastClass(trace[..i + 1]) == IdentityRequest && Ticks(trace[..i + 1]) % TIMEOUT_THRESHHOLD == 0
  }

  /** The timeout notice comes on every fiftieth tick and never otherwise. */
  lemma TimeoutExactly(trace: seq<Element>, i: nat)
    requires i < |trace|
    ensures IsTimeout(trace, i) <==> IsFiftiethTick(trace, i)
  {
    EventOfTrace(trace, i);
    SliceStep(trace, i);
    assert |TIMEOUT.message| != |REQUESTED.message|;
  }

  // ---- Cadence of the timeout ----

  predicate Unclassified(idle: seq<Element>) {
    forall i | 0 <= i < |idle| :: ClassOf(idle[i]).None?
  }

  /** The timeouts among the elements from position start on. */
  function Timeouts(trace: seq<Element>, start: nat): nat
    requires start <= |trace|
    decreases |trace| - start
  {
    if start == |trace| then 0
    else (if IsTimeout(trace, start) then 1 else 0) + Timeouts(trace, start + 1)
  }

  /** While no transition happens after an identity request, every element is one more tick. */
  lemma {:induction false} IdleTicks(trace: seq<Element>, idle: seq<Element>)
    requires LastClass(trace) == IdentityRequest && Unclassified(idle)
    ensures LastClass(trace + idle) == IdentityRequest && Ticks(trace + idle) == Ticks(trace) + |idle|
  {
    if idle == [] {
      assert trace + idle == trace;
    } else {
      var n := |idle| - 1;
      IdleTicks(trace, idle[..n]);
      assert (trace + idle)[..|trace| + n] == trace + idle[..n];
      assert (trace + idle)[|trace| + n] == idle[n];
    }
  }

  function FiftiethTicks(trace: seq<Element>, start: nat): nat
    requires start <= |trace|
    decreases |trace| - start
  {
    if start == |trace| then 0
    else (if IsFiftiethTick(trace, start) then 1 else 0) + FiftiethTicks(trace, start + 1)
  }

  lemma {:induction false} TimeoutsAreFiftiethTicks(trace: seq<Element>, start: nat)
    requires start <= |trace|
    ensures Timeouts(trace, start) == FiftiethTicks(trace, start)
    decreases |trace| - start
  {
    if start == |trace| {
    } else {
      TimeoutExactly(trace, start);
      TimeoutsAreFiftiethTicks(trace, start + 1);
    }
  }

  lemma IdleState(trace: seq<Element>, idle: seq<Element>, k: nat)
    requires LastClass(trace) == IdentityRequest && Unclassified(idle) && k <= |idle|
    ensures LastClass((trace + idle)[..|trace| + k]) == IdentityRequest
    ensures Ticks((trace + idle)[..|trace| + k]) == Ticks(trace) + k
  {
    PrefixIntoSecond(trace, idle, k);
    IdleTicks(trace, idle[..k]);
  }

  lemma {:induction false} IdleFiftiethTicks(trace: seq<Element>, idle: seq<Element>, k: nat)
    requires LastClass(trace) == IdentityRequest && Unclassified(idle) && k <= |idle|
    ensures FiftiethTicks(trace + idle, |trace| + k)
         == (Ticks(trace) + |idle|) / TIMEOUT_THRESHHOLD - (Ticks(trace) + k) / TIMEOUT_THRESHHOLD
    decreases |idle| - k
  {
    if k == |idle| {
    } else {
      IdleState(trace, idle, k + 1);
      IdleFiftiethTicks(trace, idle, k + 1);
    }
  }

  /** An identity request not preceded by a disconnect leaves exactly one tick. */
  lemma FreshRequest(trace: seq<Element>)
    requires trace != [] && ClassOf(trace[|trace| - 1]) == Some(IdentityRequest)
    requires LastClass(trace[..|trace| - 1]) != Disconnect
    ensures LastClass(trace) == IdentityRequest && Ticks(trace) == 1
  {
    if LastClass(trace[..|trace| - 1]) == AuthAccept {
      AfterAuthNoTicks(trace[..|trace| - 1]);
    }
  }

  /**
   After an identity request not preceded by a disconnect, n elements without a transition raise
   exactly (n + 1) / 50 timeout notices.
   */
  lemma {:induction false} TimeoutCadence(trace: seq<Element>, idle: seq<Element>)
    requires trace != [] && ClassOf(trace[|trace| - 1]) == Some(IdentityRequest)
    requires LastClass(trace[..|trace| - 1]) != Disconnect
    requires Unclassified(idle)
    ensures Timeouts(trace + idle, |trace|) == (|idle| + 1) / TIMEOUT_THRESHHOLD
  {
    FreshRequest(trace);
    TimeoutsAreFiftiethTicks(trace + idle, |trace|);
    IdleFiftiethTicks(trace, idle, 0);
  }

  // ---- Every event, told over the elements ----

  predicate AsksIdentity(e: Element) {
    e == Nas(EmmIdentityRequest)
  }

  predicate Authenticates(e: Element) {
    e == Nas(EmmAttachComplete) || e == Nas(EmmAuthenticationResponse)
  }

  predicate Disconnects(e: Element) {
    || e == Nas(EmmServiceReject) || e == Nas(EmmAttachReject) || e == Nas(EmmDetachRequestMO)
    || e == Nas(EmmDetachRequestMT) || e == Nas(EmmTrackingAreaUpdateReject) || e == DlDcch(RrcConnectionRelease)
  }

  predicate Attaches(e: Element) {
    || e == Nas(EmmExtServiceRequest) || e == Nas(EmmAttachRequest)
    || e == UlCcch(RrcConnectionRequest) || e == UlCcch(RrcConnectionReestablishmentRequest)
  }

  predicate Matters(e: Element) {
    AsksIdentity(e) || Authenticates(e) || Disconnects(e) || Attaches(e)
  }

  /** The last element that matters. */
  function Latest(trace: seq<Element>): (r: Option<Element>)
    ensures r.Some? ==> Matters(r.value)
  {
    if trace == [] then None
    else if Matters(trace[|trace| - 1]) then Some(trace[|trace| - 1])
    else Latest(trace[..|trace| - 1])
  }

  /**
   How long an identity request has been waiting for authentication, in elements: the count starts anew
   at authentication, and at an identity request that follows neither authentication nor a disconnect;
   a disconnect or attach suspends it.
   */
  function Waited(trace: seq<Element>): nat {
    if trace == [] then 0
    else
      var before, e := trace[..|trace| - 1], trace[|trace| - 1];
      var p := Latest(before);
      if Authenticates(e) then 0
      else if AsksIdentity(e) then
        if p.Some? && (Authenticates(p.value) || Disconnects(p.value)) then Waited(before) + 1 else 1
      else if !Matters(e) && p.Some? && AsksIdentity(p.value) then Waited(before) + 1
      else Waited(before)
  }

  /** The event for the last element of a trace. */
  function Expected(before: seq<Element>, e: Element): Option<Event> {
    var p := Latest(before);
    var late := Waited(before + [e]) % 50 == 0;
    var followup := Some(Event(Informational, "Identity request happened without auth request followup"));
    if AsksIdentity(e) then
      if p.Some? && Authenticates(p.value) then Some(Event(High, "Identity requested after auth request"))
      else if p.Some? && Disconnects(p.value) then
        if late then followup else Some(Event(High, "Identity requested without Attach Request"))
      else Some(Event(Informational, "Identity Request happened but its not suspicious yet."))
    else if Disconnects(e) && p.Some? && AsksIdentity(p.value) then
      Some(Event(High, "Disconnected after Identity Request without Auth Accept"))
    else if !Matters(e) && p.Some? && AsksIdentity(p.value) && late then followup
    else None
  }

  lemma Classes(e: Element)
    ensures ClassOf(e) == if AsksIdentity(e) then Some(IdentityRequest)
                          else if Authenticates(e) then Some(AuthAccept)
                          else if Disconnects(e) then Some(Disconnect)
                          else if Attaches(e) then Some(AttachRequest)
                          else None
  {
  }

  lemma {:induction false} LatestIsLastClass(trace: seq<Element>)
    ensures LastClass(trace) == if Latest(trace).None? then Unattached else ClassOf(Latest(trace).value).value
    ensures Waited(trace) == Ticks(trace)
  {
    if trace == [] {
    } else {
      var before, e := trace[..|trace| - 1], trace[|trace| - 1];
      LatestIsLastClass(before);
      Classes(e);
      if Latest(before).Some? {
        Classes(Latest(before).value);
      }
      if LastClass(before) == AuthAccept {
        AfterAuthNoTicks(before);
      }
    }
  }

  /** At every position of every trace the analyzer returns that event, with that text, or none. */
  lemma EventsExactly(trace: seq<Element>, i: nat)
    requires i < |trace|
    ensures EventAt(trace, i) == Expected(trace[..i], trace[i])
  {
    var before, e := trace[..i], trace[i];
    EventOfTrace(trace, i);
    Classes(e);
    LatestIsLastClass(before);
    LatestIsLastClass(before + [e]);
    WithoutLast(before, e);
    NextTick(if Restarts(LastClass(before), e) then 0 else Ticks(before));
    if Latest(before).Some? {
      Classes(Latest(before).value);
    }
    if LastClass(before) == AuthAccept {
      AfterAuthNoTicks(before);
    }
  }
}
