/** The monitor between callers that wait for the connection and the handler that completes it.

    Every statement that touches shared state is a step of its own; the mutex and the condition
    variable are modelled with their usual meaning, spurious wake-ups and time-outs included. */
module ConnectMonitor {

  datatype ConnectionState = InitialState | Connected | Disconnected

  /** Where a caller is in `wait_conn`. */
  datatype Caller =
    | Outside                 // not in wait_conn
    | Acquiring               // wants the mutex
    | Checking                // holds the mutex, at the loop test
    | CheckingError           // holds the mutex, found the flag unset
    | Blocked                 // waits on the condition variable, mutex released
    | Woken(expired: bool)    // notified, or its time is up; wants the mutex again
    | Returned                // came back normally
    | ThrewSystemError
    | ThrewTimeout

  /** Where the connect handler is. */
  datatype Handler =
    | NotRun
    | Locked(ok: bool)        // holds the mutex, nothing written yet
    | FlagSet                 // success path: is_connected_ written
    | StateSet(ok: bool)      // state_ written
    | ErrorSet                // failure path: connection_ec_ written
    | Notified(ok: bool)      // notify_all done, still holding the mutex
    | Done(ok: bool)          // mutex released

  datatype Owner = Nobody | ByCaller(t: nat) | ByHandler

  datatype State = State(
    isConnected: bool,
    hasError: bool,           // connection_ec_ is set
    state: ConnectionState,
    reading: bool,            // a read is outstanding
    mutex: Owner,
    handler: Handler,
    callers: map<nat, Caller>)

  ghost predicate Init(s: State) {
    && !s.isConnected && !s.hasError && s.state == InitialState && !s.reading
    && s.mutex == Nobody && s.handler == NotRun
    && forall t :: t in s.callers ==> s.callers[t] == Outside
  }

  datatype Step =
    | Enter(t: nat) | Acquire(t: nat) | TestFlag(t: nat) | TestError(t: nat)
    | Spurious(t: nat) | TimeOut(t: nat) | Reacquire(t: nat)
    | HandlerLock(ok: bool) | HandlerFlag | HandlerState | HandlerError | HandlerNotify | HandlerUnlock
    | ReadFails(closed: bool)  // end of file or reset, or some other error

  predicate Enabled(s: State, step: Step) {
    match step
    case Enter(t) => t in s.callers && s.callers[t] == Outside
    case Acquire(t) => t in s.callers && s.callers[t] == Acquiring && s.mutex == Nobody
    case TestFlag(t) => t in s.callers && s.callers[t] == Checking
    case TestError(t) => t in s.callers && s.callers[t] == CheckingError
    case Spurious(t) => t in s.callers && s.callers[t] == Blocked
    case TimeOut(t) => t in s.callers && s.callers[t] == Blocked
    case Reacquire(t) => t in s.callers && s.callers[t].Woken? && s.mutex == Nobody
    case HandlerLock(_) => s.handler == NotRun && s.mutex == Nobody
    case HandlerFlag => s.handler == Locked(true)
    case HandlerState => s.handler == FlagSet || s.handler == Locked(false)
    case HandlerError => s.handler == StateSet(false)
    case HandlerNotify => s.handler == StateSet(true) || s.handler == ErrorSet
    case HandlerUnlock => s.handler.Notified?
    case ReadFails(_) => s.reading
  }

  /** `notify_all`: every blocked caller wakes. */
  function Wake(callers: map<nat, Caller>): map<nat, Caller> {
    map t | t in callers :: if callers[t] == Blocked then Woken(false) else callers[t]
  }

  function Next(s: State, step: Step): State
    requires Enabled(s, step)
  {
    match step
    case Enter(t) => s.(callers := s.callers[t := Acquiring])
    case Acquire(t) => s.(mutex := ByCaller(t), callers := s.callers[t := Checking])
    case TestFlag(t) =>
      if s.isConnected then s.(mutex := Nobody, callers := s.callers[t := Returned])
      else s.(callers := s.callers[t := CheckingError])
    case TestError(t) =>
      if s.hasError then s.(mutex := Nobody, callers := s.callers[t := ThrewSystemError])
      else s.(mutex := Nobody, callers := s.callers[t := Blocked])  // wait releases atomically
    case Spurious(t) => s.(callers := s.callers[t := Woken(false)])
    case TimeOut(t) => s.(callers := s.callers[t := Woken(true)])
    case Reacquire(t) =>
      if s.callers[t].expired then s.(callers := s.callers[t := ThrewTimeout])
      else s.(mutex := ByCaller(t), callers := s.callers[t := Checking])
    case HandlerLock(ok) => s.(mutex := ByHandler, handler := Locked(ok))
    case HandlerFlag => s.(isConnected := true, handler := FlagSet)
    case HandlerState =>
      if s.handler == FlagSet then s.(state := Connected, handler := StateSet(true))
      else s.(state := Disconnected, handler := StateSet(false))
    case HandlerError => s.(hasError := true, handler := ErrorSet)
    case HandlerNotify =>
      var ok := s.handler == StateSet(true);
      s.(callers := Wake(s.callers), handler := Notified(ok))
    case HandlerUnlock =>
      // the success path starts the first read before it lets the mutex go
      s.(mutex := Nobody, handler := Done(s.handler.ok), reading := s.reading || s.handler.ok)
    case ReadFails(closed) => s.(state := if closed then Disconnected else s.state, reading := false)
  }

  ghost predicate Run(steps: seq<Step>, s: State) {
    if |steps| == 0 then Init(s)
    else
      var last := steps[|steps| - 1];
      exists s0 :: Run(steps[..|steps| - 1], s0) && Enabled(s0, last) && Next(s0, last) == s
  }

  // ----- Invariant -----

  /** The handler has passed its notification. */
  predicate AfterNotify(h: Handler) { h.Notified? || h.Done? }

  predicate Holds(c: Caller) { c == Checking || c == CheckingError }

  predicate HandlerHolds(h: Handler) { !h.NotRun? && !h.Done? }

  /** The connection attempt ended with `ok`, and what that has written. */
  predicate Outcome(h: Handler, ok: bool) {
    match h
    case NotRun => false
    case FlagSet => ok
    case ErrorSet => !ok
    case _ => h.ok == ok
  }

  ghost predicate CallerInv(s: State, t: nat)
    requires t in s.callers
  {
    var c := s.callers[t];
    && (Holds(c) <==> s.mutex == ByCaller(t))
    && (c == CheckingError ==> !s.isConnected)
    && (c == Returned ==> s.isConnected && Outcome(s.handler, true))
    && (c == ThrewSystemError ==> s.hasError && Outcome(s.handler, false))
    && (c == Blocked ==> !AfterNotify(s.handler))
  }

  ghost predicate Inv(s: State) {
    && (HandlerHolds(s.handler) <==> s.mutex == ByHandler)
    && (s.mutex.ByCaller? ==> s.mutex.t in s.callers)
    && (s.isConnected <==> Outcome(s.handler, true) && s.handler != Locked(true))
    && (s.hasError <==> Outcome(s.handler, false) && s.handler != Locked(false) && s.handler != StateSet(false))
    && (s.reading ==> s.handler == Done(true))
    && (match s.handler {
          case NotRun => s.state == InitialState
          case Locked(_) => s.state == InitialState
          case FlagSet => s.state == InitialState
          case Done(true) => s.state == Connected || (s.state == Disconnected && !s.reading)
          case _ => s.state == if Outcome(s.handler, true) then Connected else Disconnected
        })
    && forall t :: t in s.callers ==> CallerInv(s, t)
  }

  lemma {:induction false} StepKeepsCaller(s: State, step: Step, t: nat)
    requires Inv(s) && Enabled(s, step) && t in Next(s, step).callers
    ensures CallerInv(Next(s, step), t)
  {
    assert t in s.callers && CallerInv(s, t);
  }

  /** Every step of callers and handler keeps lock ownership, flags, state and waiting set consistent. */
  lemma {:induction false} StepKeepsInv(s: State, step: Step)
    requires Inv(s) && Enabled(s, step)
    ensures Inv(Next(s, step))
  {
    hide Wake;
    var s' := Next(s, step);
    forall t | t in s'.callers ensures CallerInv(s', t) {
      StepKeepsCaller(s, step, t);
    }
  }

  lemma {:induction false} RunInv(steps: seq<Step>, s: State)
    requires Run(steps, s)
    ensures Inv(s)
  {
    if |steps| > 0 {
      var last := steps[|steps| - 1];
      var s0 :| Run(steps[..|steps| - 1], s0) && Enabled(s0, last) && Next(s0, last) == s;
      RunInv(steps[..|steps| - 1], s0);
      StepKeepsInv(s0, last);
    }
  }

  // ----- What the monitor guarantees -----

  /** No lost wake-up: from the notification on, no caller is left blocked. */
  lemma {:induction false} NoLostWakeup(steps: seq<Step>, s: State, t: nat)
    requires Run(steps, s) && AfterNotify(s.handler) && t in s.callers
    ensures s.callers[t] != Blocked
  {
    RunInv(steps, s);
    assert CallerInv(s, t);
  }

  /** A normal return means the connection succeeded; system_error means it failed. */
  lemma {:induction false} ReturnMeansConnected(steps: seq<Step>, s: State, t: nat)
    requires Run(steps, s) && t in s.callers
    ensures s.callers[t] == Returned ==> s.isConnected && !s.hasError && Outcome(s.handler, true)
    ensures s.callers[t] == ThrewSystemError ==> s.hasError && !s.isConnected && Outcome(s.handler, false)
  {
    RunInv(steps, s);
    assert CallerInv(s, t);
  }

  /** Once the handler is done, the next test by any caller decides: it returns or throws. */
  lemma {:induction false} DoneDecides(steps: seq<Step>, s: State, t: nat)
    requires Run(steps, s) && s.handler.Done? && Enabled(s, TestFlag(t))
    ensures var s1 := Next(s, TestFlag(t));
            if s.handler.ok then s1.callers[t] == Returned
            else Enabled(s1, TestError(t)) && Next(s1, TestError(t)).callers[t] == ThrewSystemError
  {
    RunInv(steps, s);
  }

  predicate Precedes(a: ConnectionState, b: ConnectionState) {
    a == b || a == InitialState || b == Disconnected
  }

  /** The connection state only moves initial -> connected -> disconnected, or initial -> disconnected. */
  lemma {:induction false} StateOnlyAdvances(steps: seq<Step>, s: State, step: Step)
    requires Run(steps, s) && Enabled(s, step)
    ensures Precedes(s.state, Next(s, step).state)
    ensures s.state == Disconnected ==> Next(s, step).state == Disconnected
  {
    RunInv(steps, s);
  }

  /** What one step does to the state that reads depend on. */
  lemma {:induction false} ReadStep(s: State, step: Step)
    requires Inv(s) && Enabled(s, step)
    ensures var s' := Next(s, step);
            if s.handler == Done(true) then
              && s'.handler == Done(true) && (step.ReadFails? ==> s.reading && !s'.reading)
              && (!step.ReadFails? ==> s'.state == s.state && s'.reading == s.reading)
              && (step == ReadFails(true) ==> s'.state == Disconnected)
              && (step == ReadFails(false) ==> s'.state == s.state)
            else
              !step.ReadFails? && (s'.handler == Done(true) ==> s'.state == Connected && s'.reading)
  {
  }

  ghost predicate NoReads(steps: seq<Step>) { ReadFails(true) !in steps && ReadFails(false) !in steps }

  /** Nothing is read before the handler has let the mutex go, and nothing after a read has failed. */
  lemma {:induction false} ReadsSoFar(steps: seq<Step>, s: State)
    requires Run(steps, s)
    ensures if s.handler == Done(true) then
              && (s.reading <==> NoReads(steps))
              && s.state == (if ReadFails(true) in steps then Disconnected else Connected)
            else NoReads(steps)
  {
    hide Enabled, Next, Inv;
    if |steps| == 0 {
      assert s.handler == NotRun;
    } else {
      var last, front := steps[|steps| - 1], steps[..|steps| - 1];
      var s0 :| Run(front, s0) && Enabled(s0, last) && Next(s0, last) == s;
      assert steps == front + [last];
      RunInv(front, s0);
      ReadsSoFar(front, s0);
      ReadStep(s0, last);
    }
  }

  /** Once connected, the connection is lost exactly when a read has met the end of the file or a reset;
      any other read error leaves the state as it is. */
  lemma {:induction false} LostOnlyWhenClosed(steps: seq<Step>, s: State)
    requires Run(steps, s) && s.handler == Done(true)
    ensures s.state == (if ReadFails(true) in steps then Disconnected else Connected)
  {
    hide Run;
    ReadsSoFar(steps, s);
  }

  predicate TimedOut(c: Caller) { c == ThrewTimeout || c == Woken(true) }

  lemma {:induction false} TimeoutStep(s: State, step: Step, t: nat)
    requires Enabled(s, step) && t in Next(s, step).callers
    ensures t in s.callers
    ensures TimedOut(Next(s, step).callers[t]) ==> TimedOut(s.callers[t]) || step == TimeOut(t)
  {
  }

  /** A caller gives up only if its own time has run out. */
  lemma {:induction false} TimeoutIsOwn(steps: seq<Step>, s: State, t: nat)
    requires Run(steps, s) && t in s.callers && TimedOut(s.callers[t])
    ensures TimeOut(t) in steps
  {
    hide Enabled, Next;
    if |steps| > 0 {
      var last, front := steps[|steps| - 1], steps[..|steps| - 1];
      var s0 :| Run(front, s0) && Enabled(s0, last) && Next(s0, last) == s;
      assert steps == front + [last];
      TimeoutStep(s0, last, t);
      if TimedOut(s0.callers[t]) {
        TimeoutIsOwn(front, s0, t);
      }
    }
  }

  /** The caller's time has run out, and it has not had the mutex since. */
  predicate Expired(steps: seq<Step>, t: nat) {
    |steps| > 0
    && var last := steps[|steps| - 1];
       last == TimeOut(t) || (last != Reacquire(t) && Expired(steps[..|steps| - 1], t))
  }

  lemma {:induction false} ExpiredStep(s: State, step: Step, t: nat)
    requires Enabled(s, step) && t in Next(s, step).callers
    ensures t in s.callers && (step == TimeOut(t) ==> Next(s, step).callers[t] == Woken(true))
    ensures s.callers[t] == Woken(true) && step != Reacquire(t) ==> Next(s, step).callers[t] == Woken(true)
  {
  }

  /** A caller whose time has run out throws a timeout as soon as it gets the mutex. */
  lemma {:induction false} ExpiredThrows(steps: seq<Step>, s: State, t: nat)
    requires Run(steps, s) && t in s.callers && Expired(steps, t)
    ensures s.callers[t] == Woken(true)
    ensures Enabled(s, Reacquire(t)) <==> s.mutex == Nobody
    ensures Enabled(s, Reacquire(t)) ==> Next(s, Reacquire(t)).callers[t] == ThrewTimeout
  {
    var last, front := steps[|steps| - 1], steps[..|steps| - 1];
    var s0 :| Run(front, s0) && Enabled(s0, last) && Next(s0, last) == s;
    ExpiredStep(s0, last, t);
    if last != TimeOut(t) {
      ExpiredThrows(front, s0, t);
    }
  }

  /** At most one party is inside a critical section. */
  lemma {:induction false} MutualExclusion(steps: seq<Step>, s: State, t: nat, u: nat)
    requires Run(steps, s) && t in s.callers && u in s.callers && Holds(s.callers[t])
    ensures !HandlerHolds(s.handler) && (Holds(s.callers[u]) ==> u == t)
  {
    RunInv(steps, s);
    assert CallerInv(s, t) && CallerInv(s, u);
  }
}
