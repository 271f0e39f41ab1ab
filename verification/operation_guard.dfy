/** The guard around one SFTP request: success, failure, two timers and the transport race to settle it. */
module OperationGuard {
  import opened Wrappers

  datatype TimeoutKind = Idle | Absolute

  datatype Failure =
    | OperationError
    | TimedOut(kind: TimeoutKind, outcomeUnknown: bool)
    | TransportClosed(outcomeUnknown: bool)

  datatype Outcome = Resolved | Rejected(failure: Failure)

  /** A finished configuration check: both limits are positive. */
  datatype Limits = Limits(idle: int, absolute: int, mutation: bool)
  {
    predicate Positive() { idle > 0 && absolute > 0 }
  }

  /** Armed timers hold the time at which they fire. */
  datatype Guard = Guard(
    limits: Limits, startedAt: int, now: int, lastProgress: int,
    idleTimer: Option<int>, absoluteTimer: Option<int>, listening: bool, started: bool,
    outcome: Option<Outcome>, aborted: bool, timeoutCalls: seq<TimeoutKind>)

  datatype Event = Succeed | Fail | Progress | IdleFires | AbsoluteFires | TransportAborts | Tick(now: int)

  /** What settling with an event means; progress and time settle nothing. */
  function Settlement(limits: Limits, event: Event): (outcome: Option<Outcome>) {
    match event
    case Succeed => Some(Resolved)
    case Fail => Some(Rejected(OperationError))
    case IdleFires => Some(Rejected(TimedOut(Idle, limits.mutation)))
    case AbsoluteFires => Some(Rejected(TimedOut(Absolute, limits.mutation)))
    case TransportAborts => Some(Rejected(TransportClosed(limits.mutation)))
    case _ => None
  }

  /**
   * Timers fire on time: the clock does not pass an armed deadline. Results, failures, progress marks and
   * transport aborts may come at any moment, also after the guard has settled.
   */
  predicate Enabled(guard: Guard, event: Event) {
    match event
    case IdleFires => guard.idleTimer == Some(guard.now)
    case AbsoluteFires => guard.absoluteTimer == Some(guard.now)
    case Tick(now) =>
      && guard.now <= now
      && (guard.idleTimer.Some? ==> now <= guard.idleTimer.value)
      && (guard.absoluteTimer.Some? ==> now <= guard.absoluteTimer.value)
    case _ => true
  }

  /** A guard whose transport is already gone fails at once and starts nothing. */
  function Opened(limits: Limits, now: int, transportAborted: bool): (guard: Guard) {
    if transportAborted then
      Guard(limits, now, now, now, None, None, false, false, Some(Rejected(TransportClosed(limits.mutation))), true, [])
    else
      Guard(limits, now, now, now, Some(now + limits.idle), Some(now + limits.absolute), true, true, None, false, [])
  }

  function After(guard: Guard, event: Event): (next: Guard) {
    if event.Tick? then guard.(now := event.now)
    else if guard.outcome.Some? then guard
    else if event.Progress? then
      guard.(lastProgress := guard.now, idleTimer := Some(guard.now + guard.limits.idle))
    else
      var outcome := Settlement(guard.limits, event);
      guard.(outcome := outcome, idleTimer := None, absoluteTimer := None, listening := false,
             aborted := outcome != Some(Resolved),
             timeoutCalls := guard.timeoutCalls + TimeoutsOf(event))
  }

  function TimeoutsOf(event: Event): (calls: seq<TimeoutKind>) {
    match event case IdleFires => [Idle] case AbsoluteFires => [Absolute] case _ => []
  }

  // ---------------------------------------------------------------------------------------------
  // Every run

  /** What holds of a guard at every moment. */
  predicate Sound(guard: Guard) {
    && (guard.outcome.Some? ==>
          guard.idleTimer.None? && guard.absoluteTimer.None? && !guard.listening)
    && (guard.outcome.None? ==>
          && guard.started && guard.listening
          && guard.idleTimer == Some(guard.lastProgress + guard.limits.idle)
          && guard.absoluteTimer == Some(guard.startedAt + guard.limits.absolute)
          && guard.startedAt <= guard.lastProgress <= guard.now
          && guard.now <= guard.startedAt + guard.limits.absolute
          && guard.now <= guard.lastProgress + guard.limits.idle)
    && (guard.aborted <==> guard.outcome.Some? && guard.outcome.value.Rejected?)
    && guard.timeoutCalls == (match guard.outcome
                              case Some(Rejected(TimedOut(kind, _))) => [kind]
                              case _ => [])
  }

  function Replayed(guard: Guard, events: seq<Event>): (last: Guard) {
    if events == [] then guard else After(Replayed(guard, events[..|events| - 1]), events[|events| - 1])
  }

  predicate Possible(guard: Guard, events: seq<Event>) {
    events == []
    || (Possible(guard, events[..|events| - 1])
        && Enabled(Replayed(guard, events[..|events| - 1]), events[|events| - 1]))
  }

  lemma StepStaysSound(guard: Guard, event: Event)
    requires Sound(guard) && Enabled(guard, event) && guard.limits.Positive()
    ensures Sound(After(guard, event)) && After(guard, event).limits == guard.limits
  {
  }

  /**
   * Under every interleaving: while unsettled, neither deadline has been passed; the local signal is
   * aborted exactly on failure; the timeout hook ran exactly when a timer won; a settled guard has no
   * timer armed and no longer listens to the transport.
   */
  lemma {:induction false} EveryRunIsSound(limits: Limits, now: int, transportAborted: bool, events: seq<Event>)
    requires limits.Positive() && Possible(Opened(limits, now, transportAborted), events)
    ensures var guard := Replayed(Opened(limits, now, transportAborted), events);
            Sound(guard) && guard.limits == limits && guard.startedAt == now
  {
    if events != [] {
      var init := events[..|events| - 1];
      EveryRunIsSound(limits, now, transportAborted, init);
      StepStaysSound(Replayed(Opened(limits, now, transportAborted), init), events[|events| - 1]);
    }
  }

  /** The first event that settles anything, if there is one. */
  function FirstSettlement(limits: Limits, events: seq<Event>): (outcome: Option<Outcome>) {
    if events == [] then None
    else if Settlement(limits, events[0]).Some? then Settlement(limits, events[0])
    else FirstSettlement(limits, events[1..])
  }

  lemma {:induction false} FirstOfMore(limits: Limits, events: seq<Event>, event: Event)
    ensures FirstSettlement(limits, events + [event])
            == if FirstSettlement(limits, events).Some? then FirstSettlement(limits, events)
               else Settlement(limits, event)
  {
    if events == [] {
      assert (events + [event])[1..] == [];
    } else {
      assert (events + [event])[1..] == events[1..] + [event];
      FirstOfMore(limits, events[1..], event);
    }
  }

  /** The guard settles once, and the first event that can settle it decides how. */
  lemma {:induction false} FirstSettlementWins(limits: Limits, now: int, events: seq<Event>)
    ensures Replayed(Opened(limits, now, false), events).outcome == FirstSettlement(limits, events)
    ensures Replayed(Opened(limits, now, false), events).limits == limits
  {
    if events != [] {
      var init := events[..|events| - 1];
      FirstSettlementWins(limits, now, init);
      FirstOfMore(limits, init, events[|events| - 1]);
      assert events == init + [events[|events| - 1]];
    }
  }

  // ---------------------------------------------------------------------------------------------
  // The outcome and the deadlines, read off the events

  /** Progress marks and passing time decide nothing. */
  predicate Quiet(event: Event) {
    event.Progress? || event.Tick?
  }

  /** The `k`-th event is the first that decides anything. */
  predicate DecidedAt(events: seq<Event>, k: nat) {
    k < |events| && !Quiet(events[k]) && forall j :: 0 <= j < k ==> Quiet(events[j])
  }

  /** This event is the first that decides anything. */
  ghost predicate DecidesFirst(events: seq<Event>, event: Event) {
    exists k: nat :: DecidedAt(events, k) && events[k] == event
  }

  lemma {:induction false} SettledAt(limits: Limits, events: seq<Event>) returns (k: nat)
    ensures k <= |events| && forall j :: 0 <= j < k ==> Quiet(events[j])
    ensures k == |events| ==> FirstSettlement(limits, events).None?
    ensures k < |events| ==> !Quiet(events[k]) && FirstSettlement(limits, events) == Settlement(limits, events[k])
  {
    if events == [] || !Quiet(events[0]) {
      k := 0;
    } else {
      var rest := SettledAt(limits, events[1..]);
      k := rest + 1;
    }
  }

  lemma DecidedOnce(events: seq<Event>, k: nat)
    requires k <= |events| && (forall j :: 0 <= j < k ==> Quiet(events[j])) && (k < |events| ==> !Quiet(events[k]))
    ensures forall event :: DecidesFirst(events, event) <==> k < |events| && events[k] == event
  {
    assert k < |events| ==> DecidedAt(events, k);
    assert forall i: nat :: DecidedAt(events, i) ==> i == k;
  }

  /**
   * The request resolves exactly when its success is the first deciding event, and rejects with its own
   * error, a timeout or the closed transport exactly when that comes first. Only timeouts and the closed
   * transport leave the outcome of a mutation, and of nothing else, unknown.
   */
  lemma OutcomeIsFirstDecision(limits: Limits, now: int, events: seq<Event>)
    ensures var outcome := Replayed(Opened(limits, now, false), events).outcome;
            && (outcome.None? <==> forall j :: 0 <= j < |events| ==> Quiet(events[j]))
            && (outcome == Some(Resolved) <==> DecidesFirst(events, Succeed))
            && (outcome == Some(Rejected(OperationError)) <==> DecidesFirst(events, Fail))
            && (outcome == Some(Rejected(TimedOut(Idle, limits.mutation))) <==> DecidesFirst(events, IdleFires))
            && (outcome == Some(Rejected(TimedOut(Absolute, limits.mutation))) <==> DecidesFirst(events, AbsoluteFires))
            && (outcome == Some(Rejected(TransportClosed(limits.mutation))) <==> DecidesFirst(events, TransportAborts))
  {
    FirstSettlementWins(limits, now, events);
    var k := SettledAt(limits, events);
    DecidedOnce(events, k);
    hide Replayed, FirstSettlement, DecidesFirst;
  }

  /** The time after the events. */
  function Clock(start: int, events: seq<Event>): (now: int) {
    if events == [] then start
    else match events[|events| - 1] case Tick(now) => now case _ => Clock(start, events[..|events| - 1])
  }

  /** The time of the last progress mark, or of the start when there is none. */
  function LastMark(start: int, events: seq<Event>): (mark: int) {
    if events == [] then start
    else if events[|events| - 1].Progress? then Clock(start, events[..|events| - 1])
    else LastMark(start, events[..|events| - 1])
  }

  /**
   * While nothing has decided, the idle timer is set for its limit after the last progress mark and the
   * absolute timer for its limit after the start; afterwards neither is set.
   */
  lemma {:induction false} TimersFollowProgress(limits: Limits, start: int, events: seq<Event>)
    ensures var guard := Replayed(Opened(limits, start, false), events);
            && guard.now == Clock(start, events) && guard.limits == limits
            && if forall j :: 0 <= j < |events| ==> Quiet(events[j]) then
                 && guard.outcome.None? && guard.listening
                 && guard.idleTimer == Some(LastMark(start, events) + limits.idle)
                 && guard.absoluteTimer == Some(start + limits.absolute)
               else
                 guard.outcome.Some? && guard.idleTimer.None? && guard.absoluteTimer.None? && !guard.listening
  {
    if events != [] {
      var init := events[..|events| - 1];
      TimersFollowProgress(limits, start, init);
      assert forall j :: 0 <= j < |init| ==> init[j] == events[j];
    }
  }

  /** With the transport already aborted nothing is started and nothing that happens later matters. */
  lemma {:induction false} AbortedNeverStarts(limits: Limits, now: int, events: seq<Event>)
    ensures var guard := Replayed(Opened(limits, now, true), events);
            && guard.outcome == Some(Rejected(TransportClosed(limits.mutation)))
            && !guard.started && guard.timeoutCalls == []
  {
    if events != [] {
      AbortedNeverStarts(limits, now, events[..|events| - 1]);
    }
  }

  /** A guard still unsettled at its absolute limit can only be settled: the clock cannot move past it. */
  lemma UnsettledIsBounded(limits: Limits, now: int, events: seq<Event>, later: int)
    requires limits.Positive() && Possible(Opened(limits, now, false), events)
    requires Enabled(Replayed(Opened(limits, now, false), events), Tick(later))
    requires later > now + limits.absolute
    ensures FirstSettlement(limits, events).Some?
  {
    EveryRunIsSound(limits, now, false, events);
    FirstSettlementWins(limits, now, events);
  }

  // ---------------------------------------------------------------------------------------------
  // The closures

  /** Signals, timers and callbacks of one guarded request. */
  class GuardedOperation {
    const limits: Limits
    var settled: bool
    var idleTimer: Option<int>
    var absoluteTimer: Option<int>
    var listening: bool
    var aborted: bool
    var started: bool
    var result: Option<Outcome>
    var timeoutCalls: seq<TimeoutKind>
    var now: int
    ghost var startedAt: int
    ghost var lastProgress: int

    ghost function View(): (guard: Guard)
      reads this
    {
      Guard(limits, startedAt, now, lastProgress, idleTimer, absoluteTimer, listening, started, result, aborted,
            timeoutCalls)
    }

    ghost predicate Valid()
      reads this
    {
      limits.Positive() && Sound(View()) && (settled <==> result.Some?)
    }

    constructor (limits: Limits, now: int, transportAborted: bool)
      requires limits.Positive()
      ensures Valid() && View() == Opened(limits, now, transportAborted)
    {
      this.limits := limits;
      settled, aborted, started, result, timeoutCalls := false, false, false, None, [];
      idleTimer, absoluteTimer, listening := None, None, true;
      this.now, startedAt, lastProgress := now, now, now;
      new;
      if transportAborted {
        var _ := SettleFailure(TransportClosed(limits.mutation));
        return;
      }
      ArmIdleTimer();
      absoluteTimer := Some(now + limits.absolute);
      started := true;
    }

    method Cleanup()
      modifies this`idleTimer, this`absoluteTimer, this`listening
      ensures idleTimer.None? && absoluteTimer.None? && !listening
    {
      if idleTimer.Some? {
        idleTimer := None;
      }
      if absoluteTimer.Some? {
        absoluteTimer := None;
      }
      listening := false;
    }

    method SettleSuccess() returns (won: bool)
      requires Valid()
      modifies this
      ensures Valid() && View() == After(old(View()), Succeed) && won == old(result.None?)
      ensures won ==> result == Some(Resolved) && !aborted && timeoutCalls == []
      ensures !won ==> View() == old(View())
    {
      if settled {
        return false;
      }
      settled := true;
      Cleanup();
      result := Some(Resolved);
      won := true;
    }

    /** Selects a failure as the terminal result and aborts the local signal, unless already settled. */
    method SettleFailure(failure: Failure) returns (won: bool)
      requires settled <==> result.Some?
      modifies this
      ensures won == !old(settled) && settled && result.Some?
      ensures !won ==> View() == old(View())
      ensures won ==>
                View() == old(View()).(outcome := Some(Rejected(failure)), idleTimer := None, absoluteTimer := None,
                                       listening := false, aborted := true)
    {
      if settled {
        return false;
      }
      settled := true;
      Cleanup();
      aborted := true;
      result := Some(Rejected(failure));
      won := true;
    }

    method OperationFails()
      requires Valid()
      modifies this
      ensures Valid() && View() == After(old(View()), Fail)
      ensures old(result.None?) ==> result == Some(Rejected(OperationError)) && aborted && timeoutCalls == []
    {
      var _ := SettleFailure(OperationError);
    }

    method HandleTransportAbort()
      requires Valid()
      modifies this
      ensures Valid() && View() == After(old(View()), TransportAborts)
      ensures old(result.None?) ==>
                result == Some(Rejected(TransportClosed(limits.mutation))) && aborted && timeoutCalls == []
    {
      var _ := SettleFailure(TransportClosed(limits.mutation));
    }

    /** A timer callback: the hook runs only when the timer is the one that settles. */
    method HandleTimeout(kind: TimeoutKind)
      requires Valid()
      modifies this
      ensures Valid() && View() == After(old(View()), if kind.Idle? then IdleFires else AbsoluteFires)
      ensures old(result.None?) ==>
                result == Some(Rejected(TimedOut(kind, limits.mutation))) && aborted && timeoutCalls == [kind]
      ensures old(result.Some?) ==> View() == old(View())
    {
      var won := SettleFailure(TimedOut(kind, limits.mutation));
      if !won {
        return;
      }
      timeoutCalls := timeoutCalls + [kind];
    }

    method ArmIdleTimer()
      modifies this`idleTimer, this`lastProgress
      ensures idleTimer == Some(now + limits.idle) && lastProgress == now
    {
      idleTimer := Some(now + limits.idle);
      lastProgress := now;
    }

    method MarkProgress()
      requires Valid()
      modifies this
      ensures Valid() && View() == After(old(View()), Progress)
      ensures idleTimer == if old(result.None?) then Some(now + limits.idle) else old(idleTimer)
    {
      if settled {
        return;
      }
      ArmIdleTimer();
    }

    /** Time passes up to the next armed deadline. */
    method PassTime(later: int)
      requires Valid() && Enabled(View(), Tick(later))
      modifies this`now
      ensures Valid() && View() == After(old(View()), Tick(later))
    {
      now := later;
    }
  }

  /** A caller's limit: a number of milliseconds, or a value that is no finite number. */
  datatype Milliseconds = Finite(ms: int) | NotFinite
  {
    predicate Positive() {
      Finite? && ms > 0
    }
  }

  /** Limits that are not finite and positive are refused before anything is armed or started. */
  method RunGuarded(idle: Milliseconds, absolute: Milliseconds, mutation: bool, now: int, transportAborted: bool)
    returns (guard: Option<GuardedOperation>)
    ensures guard.Some? <==> idle.Positive() && absolute.Positive()
    ensures guard.Some? ==>
              && fresh(guard.value) && guard.value.Valid()
              && guard.value.View() == Opened(Limits(idle.ms, absolute.ms, mutation), now, transportAborted)
  {
    if !idle.Positive() || !absolute.Positive() {
      return None;
    }
    var operation := new GuardedOperation(Limits(idle.ms, absolute.ms, mutation), now, transportAborted);
    guard := Some(operation);
  }
}
