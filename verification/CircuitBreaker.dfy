/** `AdapterCircuitBreaker` under overlapping calls.

    A call to `execute` starts with `getState` and, unless the breaker is open, starts the
    primary function; that function ends in a later event, by when other calls may have
    started or ended. Times are milliseconds and do not fall back. */
module CircuitBreaker {
  datatype CircuitState = Closed | Open | HalfOpen

  datatype Breaker = Breaker(
    state: CircuitState,
    consecutiveFailures: nat,
    lastOpenedAt: int,
    threshold: int,
    cooldown: int)

  datatype Event =
    | Begin(now: int)       // execute is called
    | Succeed(now: int)     // a primary call resolves, or recordSuccess is called
    | Fail(now: int)        // a primary call rejects, or recordFailure is called
    | Query(now: int)       // getState or isOpen
    | Reset(now: int)

  function Looked(b: Breaker, now: int): Breaker {
    if b.state.Open? && now - b.lastOpenedAt >= b.cooldown then b.(state := HalfOpen) else b
  }

  function Succeeded(b: Breaker): Breaker {
    b.(consecutiveFailures := 0, state := Closed)
  }

  function Failed(b: Breaker, now: int): Breaker {
    var failures := b.consecutiveFailures + 1;
    var b' := b.(consecutiveFailures := failures);
    if failures >= b.threshold || b.state.HalfOpen? then b'.(state := Open, lastOpenedAt := now) else b'
  }

  function Fresh(threshold: int, cooldown: int): Breaker {
    Breaker(Closed, 0, 0, threshold, cooldown)
  }

  class AdapterCircuitBreaker {
    var state: CircuitState
    var consecutiveFailures: nat
    var lastOpenedAt: int
    const failureThreshold: int
    const cooldownMs: int

    ghost function Abstract(): Breaker
      reads this
    {
      Breaker(state, consecutiveFailures, lastOpenedAt, failureThreshold, cooldownMs)
    }

    constructor (threshold: int := 3, cooldown: int := 60000)
      ensures Abstract() == Fresh(threshold, cooldown)
    {
      state, consecutiveFailures, lastOpenedAt := Closed, 0, 0;
      failureThreshold, cooldownMs := threshold, cooldown;
    }

    method GetState(now: int) returns (s: CircuitState)
      modifies this
      ensures Abstract() == Looked(old(Abstract()), now) && s == state
    {
      if state == Open {
        var elapsed := now - lastOpenedAt;
        if elapsed >= cooldownMs {
          state := HalfOpen;
        }
      }
      s := state;
    }

    method RecordSuccess()
      modifies this
      ensures Abstract() == Succeeded(old(Abstract()))
    {
      consecutiveFailures := 0;
      state := Closed;
    }

    method RecordFailure(now: int)
      modifies this
      ensures Abstract() == Failed(old(Abstract()), now)
    {
      consecutiveFailures := consecutiveFailures + 1;
      if consecutiveFailures >= failureThreshold || state == HalfOpen {
        state := Open;
        lastOpenedAt := now;
      }
    }

    /** The synchronous part of `execute`: whether the primary function is started. */
    method Execute(now: int) returns (startsPrimary: bool)
      modifies this
      ensures Abstract() == Looked(old(Abstract()), now)
      ensures startsPrimary <==> Admits(old(Abstract()), now)
    {
      var current := GetState(now);
      startsPrimary := current != Open;
    }

    method ResetBreaker()
      modifies this
      ensures Abstract() == Fresh(failureThreshold, cooldownMs)
    {
      state := Closed;
      consecutiveFailures := 0;
      lastOpenedAt := 0;
    }
  }

  predicate Admits(b: Breaker, now: int) {
    !Looked(b, now).state.Open?
  }

  // ----- Runs -----

  /** The breaker and the time of the last event. */
  datatype Run = Run(breaker: Breaker, clock: int)

  ghost predicate Enabled(r: Run, e: Event) {
    r.clock <= e.now
  }

  ghost function Step(r: Run, e: Event): Run
    requires Enabled(r, e)
  {
    var b := r.breaker;
    match e
    case Begin(now) => Run(Looked(b, now), now)
    case Succeed(now) => Run(Succeeded(b), now)
    case Fail(now) => Run(Failed(b, now), now)
    case Query(now) => Run(Looked(b, now), now)
    case Reset(now) => Run(Fresh(b.threshold, b.cooldown), now)
  }

  ghost predicate ValidRun(r: Run, events: seq<Event>)
    decreases |events|
  {
    events == [] || (Enabled(r, events[0]) && ValidRun(Step(r, events[0]), events[1..]))
  }

  ghost function After(r: Run, events: seq<Event>): Run
    requires ValidRun(r, events)
    decreases |events|
  {
    if events == [] then r else After(Step(r, events[0]), events[1..])
  }

  /** The failed completions since the last success or reset, counted from the end. */
  function TrailingFailures(events: seq<Event>): nat {
    if events == [] then 0
    else
      var n := |events| - 1;
      match events[n]
      case Succeed(_) => 0
      case Reset(_) => 0
      case Fail(_) => TrailingFailures(events[..n]) + 1
      case _ => TrailingFailures(events[..n])
  }

  /** The time of the last failed completion, whatever came after it. */
  function LastFailure(events: seq<Event>): int {
    if events == [] then 0
    else if events[|events| - 1].Fail? then events[|events| - 1].now
    else LastFailure(events[..|events| - 1])
  }

  /** How many completions must fail in a row: a threshold below one asks for one all the same. */
  function Needed(threshold: int): int {
    if threshold < 1 then 1 else threshold
  }

  /** The fields, read off the history alone. */
  ghost predicate Explained(r: Run, events: seq<Event>) {
    var b, failures := r.breaker, TrailingFailures(events);
    && b.consecutiveFailures == failures
    && (b.state.Closed? <==> failures < Needed(b.threshold))
    && (!b.state.Closed? ==> b.lastOpenedAt == LastFailure(events))
    && (b.state.HalfOpen? ==> r.clock - b.lastOpenedAt >= b.cooldown)
  }

  ghost predicate Starts(r: Run) {
    r.breaker == Fresh(r.breaker.threshold, r.breaker.cooldown)
  }

  lemma StepExplained(r: Run, events: seq<Event>, e: Event)
    requires Enabled(r, e) && Explained(r, events)
    ensures Explained(Step(r, e), events + [e])
    ensures Step(r, e).breaker.threshold == r.breaker.threshold && Step(r, e).breaker.cooldown == r.breaker.cooldown
  {
    assert (events + [e])[..|events|] == events;
  }

  /** The meaning of the fields, over every run of overlapping calls: the counter is the
      trailing run of failed completions, and the breaker is closed exactly when that run is
      shorter than the threshold, or than one. (So a half-open breaker is already at the
      threshold, and the half-open test in `recordFailure` decides nothing.) */
  lemma {:induction false} CounterIsTrailingRun(r0: Run, events: seq<Event>)
    requires Starts(r0) && ValidRun(r0, events)
    ensures Explained(After(r0, events), events)
    ensures After(r0, events).breaker.threshold == r0.breaker.threshold
    ensures After(r0, events).breaker.cooldown == r0.breaker.cooldown
    decreases |events|
  {
    if events != [] {
      var n := |events| - 1;
      SplitLast(r0, events);
      CounterIsTrailingRun(r0, events[..n]);
      StepExplained(After(r0, events[..n]), events[..n], events[n]);
      assert events == events[..n] + [events[n]];
    }
  }

  lemma {:induction false} SplitLast(r: Run, events: seq<Event>)
    requires events != [] && ValidRun(r, events)
    ensures var n := |events| - 1;
            && ValidRun(r, events[..n])
            && Enabled(After(r, events[..n]), events[n])
            && After(r, events) == Step(After(r, events[..n]), events[n])
    decreases |events|
  {
    var n := |events| - 1;
    if n > 0 {
      SplitLast(Step(r, events[0]), events[1..]);
      assert events[1..][..n - 1] == events[..n][1..];
      assert events[1..][n - 1] == events[n];
    }
  }

  /** When a primary call starts, said without the breaker's state: after any history of
      overlapping calls, `execute` starts one exactly when fewer completions than needed have
      failed in a row since the last success or reset, or the last failed completion lies at
      least the cooldown back. */
  lemma AdmitsIff(r0: Run, events: seq<Event>, now: int)
    requires Starts(r0) && ValidRun(r0, events)
    requires After(r0, events).clock <= now
    ensures Admits(After(r0, events).breaker, now) <==>
              || TrailingFailures(events) < Needed(r0.breaker.threshold)
              || now - LastFailure(events) >= r0.breaker.cooldown
  {
    CounterIsTrailingRun(r0, events);
  }

  /** The breaker is closed exactly while failures are fewer than the threshold itself, in
      every run, if and only if the threshold is at least one: below that it opens only after
      a failure. */
  lemma ThresholdMatters(threshold: int, cooldown: int)
    ensures (forall events | ValidRun(Run(Fresh(threshold, cooldown), 0), events) ::
               var b := After(Run(Fresh(threshold, cooldown), 0), events).breaker;
               b.state.Closed? <==> b.consecutiveFailures < threshold) <==> threshold >= 1
  {
    var r0 := Run(Fresh(threshold, cooldown), 0);
    if threshold >= 1 {
      forall events | ValidRun(r0, events)
        ensures var b := After(r0, events).breaker; b.state.Closed? <==> b.consecutiveFailures < threshold
      {
        CounterIsTrailingRun(r0, events);
      }
    } else {
      assert ValidRun(r0, []) && After(r0, []) == r0;
    }
  }

  ghost predicate NoRelief(events: seq<Event>) {
    forall i | 0 <= i < |events| :: !events[i].Succeed? && !events[i].Reset?
  }

  lemma {:induction false} FailuresPersist(before: seq<Event>, during: seq<Event>)
    requires NoRelief(during)
    ensures TrailingFailures(before + during) >= TrailingFailures(before)
    decreases |during|
  {
    if during == [] {
      assert before + during == before;
    } else {
      var n := |during| - 1;
      assert before + during == before + during[..n] + [during[n]];
      assert !during[n].Succeed? && !during[n].Reset?;
      Snoc(before + during[..n], during[n]);
      FailuresPersist(before, during[..n]);
    }
  }

  lemma Snoc(events: seq<Event>, e: Event)
    ensures TrailingFailures(events + [e]) ==
              if e.Succeed? || e.Reset? then 0 else TrailingFailures(events) + (if e.Fail? then 1 else 0)
    ensures LastFailure(events + [e]) == if e.Fail? then e.now else LastFailure(events)
  {
    assert (events + [e])[..|events|] == events;
  }

  /** Events after a failure do not move the last failure back before it. */
  lemma {:induction false} LastFailureGrows(r: Run, before: seq<Event>, during: seq<Event>)
    requires before != [] && before[|before| - 1].Fail? && ValidRun(r, before + during)
    ensures LastFailure(before + during) >= before[|before| - 1].now
    ensures After(r, before + during).clock >= before[|before| - 1].now
    decreases |during|
  {
    var all := before + during;
    SplitLast(r, all);
    if during == [] {
      assert all == before;
    } else {
      var n := |during| - 1;
      assert all[..|all| - 1] == before + during[..n];
      assert all == before + during[..n] + [during[n]];
      LastFailureGrows(r, before, during[..n]);
      Snoc(before + during[..n], during[n]);
    }
  }

  /** The cooldown. From a failed completion that makes the run reach the threshold on,
      whatever other calls do, no primary call starts before the cooldown is over unless a
      call succeeds or the breaker is reset first. */
  lemma NoPrimaryDuringCooldown(r0: Run, before: seq<Event>, during: seq<Event>, now: int)
    requires Starts(r0) && ValidRun(r0, before + during)
    requires before != [] && before[|before| - 1].Fail? && TrailingFailures(before) >= r0.breaker.threshold
    requires NoRelief(during) && After(r0, before + during).clock <= now
    requires Admits(After(r0, before + during).breaker, now)
    ensures now - before[|before| - 1].now >= r0.breaker.cooldown
  {
    FailuresPersist(before, during);
    LastFailureGrows(r0, before, during);
    AdmitsIff(r0, before + during, now);
  }
}
