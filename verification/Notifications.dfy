/**
 The notification worker: it keeps one status per type, ignores notifications inside their debounce
 period, and retries failed sends after growing waits. Times are readings of one nondecreasing clock,
 in seconds.
 */
module Notifications {
  import opened Wrappers
  import opened Powers
  import opened Seqs

  datatype NotificationType = Warning | LowBattery

  datatype Notification = Notification(notificationType: NotificationType, message: string, debounce: Option<real>)

  datatype NotificationStatus = NotificationStatus(
    message: string, needsSending: bool, lastSent: Option<real>, lastAttempt: Option<real>,
    failedSinceLastSuccess: nat)

  type Statuses = map<NotificationType, NotificationStatus>

  const NEW_STATUS := NotificationStatus("", true, None, None, 0)

  /** The shortest wait after a failure, at most 256 seconds. */
  function MinWait(failures: nat): real {
    Pow2(if failures < 8 then failures else 8) as real
  }

  predicate Debounced(status: NotificationStatus, n: Notification, now: real) {
    n.debounce.Some? && status.lastSent.Some? && now - status.lastSent.value < n.debounce.value
  }

  predicate MaySend(status: NotificationStatus, now: real) {
    status.needsSending
    && (status.lastAttempt.Some? ==> now - status.lastAttempt.value >= MinWait(status.failedSinceLastSuccess))
  }

  // ---- What the worker does, as a trace ----

  /** A notification comes in, or one is sent: the request starts, ends, and succeeds or not. */
  datatype Event =
    | Received(notification: Notification, now: real)
    | Attempted(notificationType: NotificationType, text: string, start: real, end: real, ok: bool)

  function StatusFor(s: Statuses, t: NotificationType): NotificationStatus {
    if t in s then s[t] else NEW_STATUS
  }

  function AfterReceive(enabled: seq<NotificationType>, s: Statuses, n: Notification, now: real): Statuses {
    var t, status := n.notificationType, StatusFor(s, n.notificationType);
    if t !in enabled then s
    else if Debounced(status, n, now) then s[t := status]
    else s[t := status.(message := n.message, needsSending := true)]
  }

  function AfterAttempt(s: Statuses, t: NotificationType, end: real, ok: bool): Statuses
    requires t in s
  {
    s[t := if ok then s[t].(lastSent := Some(end), failedSinceLastSuccess := 0, needsSending := false)
           else s[t].(failedSinceLastSuccess := s[t].failedSinceLastSuccess + 1, lastAttempt := Some(end))]
  }

  /** The clock when the trace ends. */
  function Clock(trace: seq<Event>): real {
    if trace == [] then 0.0
    else
      match trace[|trace| - 1]
      case Received(_, now) => now
      case Attempted(_, _, _, end, _) => end
  }

  function Changed(enabled: seq<NotificationType>, s: Statuses, e: Event): Statuses {
    match e
    case Received(n, now) => AfterReceive(enabled, s, n, now)
    case Attempted(t, _, _, end, ok) => if t in s then AfterAttempt(s, t, end, ok) else s
  }

  function After(enabled: seq<NotificationType>, trace: seq<Event>): Statuses {
    if trace == [] then map[] else Changed(enabled, After(enabled, trace[..|trace| - 1]), trace[|trace| - 1])
  }

  /** The next event is possible: time does not run back, and what is sent is pending, due and the stored text. */
  predicate Possible(enabled: seq<NotificationType>, trace: seq<Event>, e: Event) {
    match e
    case Received(_, now) => Clock(trace) <= now
    case Attempted(t, text, start, end, _) =>
      var s := After(enabled, trace);
      Clock(trace) <= start <= end && t in s && MaySend(s[t], start) && text == s[t].message
  }

  predicate IsTrace(enabled: seq<NotificationType>, trace: seq<Event>) {
    trace == [] ||
    (IsTrace(enabled, trace[..|trace| - 1]) && Possible(enabled, trace[..|trace| - 1], trace[|trace| - 1]))
  }

  // ---- The worker ----

  function Arrivals(inbox: seq<(Notification, real)>): (r: seq<Event>)
    ensures |r| == |inbox|
  {
    seq(|inbox|, i requires 0 <= i < |inbox| => Received(inbox[i].0, inbox[i].1))
  }

  datatype Visit = Visit(notificationType: NotificationType, start: real, end: real, ok: bool)

  /** The trace after the statuses were gone through: each that was pending and due was sent. */
  function AfterVisits(enabled: seq<NotificationType>, trace: seq<Event>, visits: seq<Visit>): seq<Event> {
    if visits == [] then trace
    else
      var before, v := AfterVisits(enabled, trace, visits[..|visits| - 1]), visits[|visits| - 1];
      var status := StatusFor(After(enabled, before), v.notificationType);
      if MaySend(status, v.start) then before + [Attempted(v.notificationType, status.message, v.start, v.end, v.ok)]
      else before
  }

  class NotificationWorker {
    const enabled: seq<NotificationType>
    ghost var trace: seq<Event>
    var statuses: Statuses

    ghost predicate Valid()
      reads this
    {
      IsTrace(enabled, trace) && statuses == After(enabled, trace)
    }

    constructor (enabled: seq<NotificationType>)
      ensures Valid() && this.enabled == enabled && trace == []
    {
      this.enabled := enabled;
      trace := [];
      statuses := map[];
    }

    method Receive(n: Notification, now: real)
      requires Valid() && Clock(trace) <= now
      modifies this
      ensures Valid() && trace == old(trace) + [Received(n, now)]
    {
      OneMore(enabled, trace, Received(n, now));
      trace := trace + [Received(n, now)];
      var t := n.notificationType;
      if t !in enabled {
        return;
      }
      if t !in statuses {
        statuses := statuses[t := NEW_STATUS];
      }
      var status := statuses[t];
      if n.debounce.Some? && status.lastSent.Some? && now - status.lastSent.value < n.debounce.value {
        return;
      }
      statuses := statuses[t := status.(message := n.message, needsSending := true)];
    }

    /** Takes everything that has come in. */
    method ReceiveAll(inbox: seq<(Notification, real)>)
      requires Valid()
      requires inbox != [] ==> Clock(trace) <= inbox[0].1
      requires forall k | 0 < k < |inbox| :: inbox[k - 1].1 <= inbox[k].1
      modifies this
      ensures Valid() && trace == old(trace) + Arrivals(inbox)
    {
      assert Arrivals([]) == [] && old(trace) + [] == old(trace);
      for i := 0 to |inbox|
        invariant Valid() && trace == old(trace) + Arrivals(inbox[..i])
        invariant i < |inbox| ==> Clock(trace) <= inbox[i].1
      {
        ghost var before, e := trace, Received(inbox[i].0, inbox[i].1);
        assert Arrivals(inbox[..i + 1]) == Arrivals(inbox[..i]) + [e];
        Associative(old(trace), Arrivals(inbox[..i]), [e]);
        OneMore(enabled, before, e);
        Receive(inbox[i].0, inbox[i].1);
      }
      WholeSlice(inbox);
    }

    /** Sends one pending notification unless it still has to wait. */
    method TrySend(v: Visit) returns (attempted: bool)
      requires Valid() && v.notificationType in statuses && Clock(trace) <= v.start <= v.end
      modifies this
      ensures Valid()
      ensures attempted <==> MaySend(old(statuses)[v.notificationType], v.start)
      ensures attempted <==> IsDue(enabled, old(trace), v.notificationType, v.start)
      ensures trace == if attempted
                       then old(trace) + [Attempted(v.notificationType, old(statuses)[v.notificationType].message,
                                                    v.start, v.end, v.ok)]
                       else old(trace)
    {
      var t := v.notificationType;
      var status := statuses[t];
      SendsIffDue(enabled, trace, t, v.start);
      if !status.needsSending {
        return false;
      }
      if status.lastAttempt.Some? {
        var minWaitTime := MinWait(status.failedSinceLastSuccess);
        if v.start - status.lastAttempt.value < minWaitTime {
          return false;
        }
      }
      ghost var e := Attempted(t, status.message, v.start, v.end, v.ok);
      OneMore(enabled, trace, e);
      trace := trace + [e];
      if v.ok {
        statuses := statuses[t := status.(lastSent := Some(v.end), failedSinceLastSuccess := 0, needsSending := false)];
      } else {
        statuses := statuses[t := status.(failedSinceLastSuccess := status.failedSinceLastSuccess + 1,
                                          lastAttempt := Some(v.end))];
      }
      attempted := true;
    }

    /** Goes through the statuses, in any order, at the times given. */
    method SendPending(visits: seq<Visit>)
      requires Valid()
      requires forall k | 0 <= k < |visits| :: visits[k].notificationType in statuses
      requires visits != [] ==> Clock(trace) <= visits[0].start
      requires forall k | 0 <= k < |visits| :: visits[k].start <= visits[k].end
      requires forall k | 0 < k < |visits| :: visits[k - 1].end <= visits[k].start
      modifies this
      ensures Valid() && trace == AfterVisits(enabled, old(trace), visits)
    {
      for i := 0 to |visits|
        invariant Valid() && trace == AfterVisits(enabled, old(trace), visits[..i])
        invariant statuses.Keys == old(statuses.Keys)
        invariant i < |visits| ==> Clock(trace) <= visits[i].start
      {
        PrefixGrows(visits, i);
        WithoutLast(visits[..i], visits[i]);
        ghost var before := trace;
        var attempted := TrySend(visits[i]);
        if attempted {
          OneMore(enabled, before, trace[|before|]);
        }
      }
      WholeSlice(visits);
    }
  }

  lemma OneMore(enabled: seq<NotificationType>, trace: seq<Event>, e: Event)
    ensures IsTrace(enabled, trace + [e]) <==> IsTrace(enabled, trace) && Possible(enabled, trace, e)
    ensures After(enabled, trace + [e]) == Changed(enabled, After(enabled, trace), e)
    ensures Clock(trace + [e]) == if e.Received? then e.now else e.end
  {
    WithoutLast(trace, e);
  }

  // ---- What the statuses say about the past ----

  predicate IsAttempt(e: Event, t: NotificationType, ok: bool) {
    e.Attempted? && e.notificationType == t && e.ok == ok
  }

  function LastSuccess(trace: seq<Event>, t: NotificationType): Option<real> {
    if trace == [] then None
    else
      var e := trace[|trace| - 1];
      if IsAttempt(e, t, true) then Some(e.end) else LastSuccess(trace[..|trace| - 1], t)
  }

  function LastFailure(trace: seq<Event>, t: NotificationType): Option<real> {
    if trace == [] then None
    else
      var e := trace[|trace| - 1];
      if IsAttempt(e, t, false) then Some(e.end) else LastFailure(trace[..|trace| - 1], t)
  }

  /** Failed sends since the last success. */
  function Failures(trace: seq<Event>, t: NotificationType): nat {
    if trace == [] then 0
    else
      var e, before := trace[|trace| - 1], Failures(trace[..|trace| - 1], t);
      if IsAttempt(e, t, true) then 0 else if IsAttempt(e, t, false) then before + 1 else before
  }

  /** A notification of an enabled type counts unless the last success is less than its debounce ago. */
  predicate Accepted(enabled: seq<NotificationType>, trace: seq<Event>, e: Event, t: NotificationType) {
    && e.Received? && e.notification.notificationType == t && t in enabled
    && (e.notification.debounce.Some? && LastSuccess(trace, t).Some? ==>
          e.now - LastSuccess(trace, t).value >= e.notification.debounce.value)
  }

  function LatestText(enabled: seq<NotificationType>, trace: seq<Event>, t: NotificationType): Option<string> {
    if trace == [] then None
    else
      var e, before := trace[|trace| - 1], trace[..|trace| - 1];
      if Accepted(enabled, before, e, t) then Some(e.notification.message) else LatestText(enabled, before, t)
  }

  /** One was accepted since the last success. */
  predicate Pending(enabled: seq<NotificationType>, trace: seq<Event>, t: NotificationType) {
    trace != [] &&
    var e, before := trace[|trace| - 1], trace[..|trace| - 1];
    Accepted(enabled, before, e, t) || (!IsAttempt(e, t, true) && Pending(enabled, before, t))
  }

  predicate TellsHistory(enabled: seq<NotificationType>, trace: seq<Event>, t: NotificationType) {
    var s := After(enabled, trace);
    && (t in s <==> LatestText(enabled, trace, t).Some?)
    && (t in s ==>
          s[t] == NotificationStatus(LatestText(enabled, trace, t).value, Pending(enabled, trace, t),
                                     LastSuccess(trace, t), LastFailure(trace, t), Failures(trace, t)))
    && (t !in s ==> LastSuccess(trace, t).None? && LastFailure(trace, t).None? && Failures(trace, t) == 0)
  }

  /**
   After every trace a status holds the text accepted last, whether one was accepted since the last
   success, when the last success and the last failure were, and the failures since.
   */
  lemma {:induction false} StatusIsHistory(enabled: seq<NotificationType>, trace: seq<Event>, t: NotificationType)
    requires IsTrace(enabled, trace)
    ensures TellsHistory(enabled, trace, t)
  {
    if trace == [] {
    } else {
      StatusIsHistory(enabled, trace[..|trace| - 1], t);
    }
  }

  /** What is sent is the text accepted last, and it was still pending. */
  lemma LatestTextIsSent(enabled: seq<NotificationType>, trace: seq<Event>, e: Event)
    requires IsTrace(enabled, trace) && Possible(enabled, trace, e) && e.Attempted?
    ensures LatestText(enabled, trace, e.notificationType) == Some(e.text)
    ensures Pending(enabled, trace, e.notificationType)
  {
    StatusIsHistory(enabled, trace, e.notificationType);
  }

  /** Two to the number of failures, in seconds, but no more than 256. */
  function Wait(failures: nat): nat {
    if Pow2(failures) < 256 then Pow2(failures) else 256
  }

  /** A text is waiting to be sent, and if a send ever failed the last failure is long enough ago. */
  predicate IsDue(enabled: seq<NotificationType>, trace: seq<Event>, t: NotificationType, now: real) {
    && Pending(enabled, trace, t)
    && (LastFailure(trace, t).Some? ==> now >= LastFailure(trace, t).value + Wait(Failures(trace, t)) as real)
  }

  lemma {:induction false} Pow2Grows(n: nat)
    ensures n < 8 ==> Pow2(n) < 256
    ensures n >= 8 ==> Pow2(n) >= 256
  {
    if n == 0 {
    } else {
      Pow2Grows(n - 1);
      if n == 8 {
        assert Pow2(8) == 2 * Pow2(7) == 4 * Pow2(6) == 8 * Pow2(5) == 16 * Pow2(4);
      } else if n < 8 {
        assert Pow2(7) == 2 * Pow2(6) == 4 * Pow2(5) == 8 * Pow2(4) == 16 * Pow2(3) == 32 * Pow2(2);
      }
    }
  }

  /** The worker never gives up, and never sends early: a status is sent exactly when it is due. */
  lemma SendsIffDue(enabled: seq<NotificationType>, trace: seq<Event>, t: NotificationType, now: real)
    requires IsTrace(enabled, trace) && t in After(enabled, trace)
    ensures MaySend(After(enabled, trace)[t], now) <==> IsDue(enabled, trace, t, now)
  {
    StatusIsHistory(enabled, trace, t);
    Pow2Grows(Failures(trace, t));
    assert Pow2(8) == 2 * Pow2(7) == 4 * Pow2(6) == 8 * Pow2(5) == 16 * Pow2(4);
  }

  // ---- Debounce ----

  predicate AllDebounced(trace: seq<Event>, t: NotificationType, d: real) {
    forall k | 0 <= k < |trace| && trace[k].Received? && trace[k].notification.notificationType == t ::
      trace[k].notification.debounce.Some? && trace[k].notification.debounce.value >= d
  }

  lemma {:induction false} PendingIsLate(enabled: seq<NotificationType>, trace: seq<Event>, t: NotificationType,
                                         d: real)
    requires IsTrace(enabled, trace) && AllDebounced(trace, t, d)
    ensures Pending(enabled, trace, t) && LastSuccess(trace, t).Some? ==>
              Clock(trace) >= LastSuccess(trace, t).value + d
  {
    if trace == [] {
    } else {
      var n := |trace| - 1;
      assert forall k | 0 <= k < n :: trace[..n][k] == trace[k];
      PendingIsLate(enabled, trace[..n], t, d);
    }
  }

  lemma {:induction false} SuccessInPast(enabled: seq<NotificationType>, trace: seq<Event>, t: NotificationType, i: nat)
    requires IsTrace(enabled, trace) && i < |trace| && IsAttempt(trace[i], t, true)
    ensures LastSuccess(trace, t).Some? && trace[i].end <= LastSuccess(trace, t).value <= Clock(trace)
  {
    var n := |trace| - 1;
    if i == n {
    } else {
      assert trace[..n][i] == trace[i];
      SuccessInPast(enabled, trace[..n], t, i);
    }
  }

  lemma {:induction false} PrefixIsTrace(enabled: seq<NotificationType>, trace: seq<Event>, k: nat)
    requires IsTrace(enabled, trace) && k < |trace|
    ensures IsTrace(enabled, trace[..k]) && Possible(enabled, trace[..k], trace[k])
  {
    var n := |trace| - 1;
    if k == n {
    } else {
      PrefixIsTrace(enabled, trace[..n], k);
      assert trace[..n][..k] == trace[..k];
    }
  }

  /** When all notifications of a type carry a debounce of at least d, its successful sends are at least d apart. */
  lemma SuccessesApart(enabled: seq<NotificationType>, trace: seq<Event>, t: NotificationType, d: real, i: nat, j: nat)
    requires IsTrace(enabled, trace) && AllDebounced(trace, t, d) && i < j < |trace|
    requires IsAttempt(trace[i], t, true) && IsAttempt(trace[j], t, true)
    ensures trace[j].start >= trace[i].end + d
  {
    PrefixIsTrace(enabled, trace, j);
    assert trace[..j][i] == trace[i];
    SuccessInPast(enabled, trace[..j], t, i);
    LatestTextIsSent(enabled, trace[..j], trace[j]);
    PendingIsLate(enabled, trace[..j], t, d);
  }

  // ---- Backoff ----

  /** When the first send failed of those that failed since the last success: its start. */
  function StreakStart(trace: seq<Event>, t: NotificationType): real {
    if trace == [] then 0.0
    else
      var e, before := trace[|trace| - 1], trace[..|trace| - 1];
      if IsAttempt(e, t, false) && Failures(before, t) == 0 then e.start else StreakStart(before, t)
  }

  /** How long after the first send of a failing streak the n-th one starts at the earliest. */
  function Delay(n: nat): real
    requires n > 0
  {
    if n <= 9 then (Pow2(n) - 2) as real else (510 + 256 * (n - 9)) as real
  }

  lemma DelayGrows(n: nat)
    requires n > 0
    ensures Delay(n + 1) == Delay(n) + MinWait(n)
  {
    assert Pow2(8) == 256 && Pow2(9) == 512;
  }

  lemma {:induction false} StreakLasts(enabled: seq<NotificationType>, trace: seq<Event>, t: NotificationType)
    requires IsTrace(enabled, trace) && Failures(trace, t) > 0
    ensures LastFailure(trace, t).Some?
    ensures LastFailure(trace, t).value >= StreakStart(trace, t) + Delay(Failures(trace, t))
  {
    var before, e := trace[..|trace| - 1], trace[|trace| - 1];
    if IsAttempt(e, t, false) {
      assert Delay(1) == 0.0;
      if Failures(before, t) > 0 {
        StreakLasts(enabled, before, t);
        StatusIsHistory(enabled, before, t);
        DelayGrows(Failures(before, t));
      }
    } else {
      StreakLasts(enabled, before, t);
    }
  }

  /**
   In a streak of failed sends the n-th attempt starts at least 2^n - 2 seconds after the first for n up
   to 9, and 256 seconds later for every further one.
   */
  lemma BackoffBound(enabled: seq<NotificationType>, trace: seq<Event>, e: Event)
    requires IsTrace(enabled, trace) && Possible(enabled, trace, e) && e.Attempted?
    requires Failures(trace, e.notificationType) > 0
    ensures var t := e.notificationType;
            e.start >= StreakStart(trace, t) + Delay(Failures(trace, t) + 1)
  {
    StreakLasts(enabled, trace, e.notificationType);
    StatusIsHistory(enabled, trace, e.notificationType);
    DelayGrows(Failures(trace, e.notificationType));
  }
}
