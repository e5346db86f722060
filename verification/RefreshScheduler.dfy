/** `startRefreshScheduler`: one background refresh at a time, driven by a timer that is
    cancelled and set again after every refresh, with backoff after failures. */
module RefreshScheduler {
  const MAX_BACKOFF: real := 60000.0

  /** A call of one of the two callbacks. */
  datatype Call = Degraded(failures: nat) | Recovered

  /** The closure's variables, the host's pending timers with their delays, the refreshes
      called and not yet settled, and the callbacks made so far. */
  datatype State = State(
    stopped: bool,
    running: bool,
    failures: nat,
    timer: nat,
    pending: map<nat, real>,
    nextHandle: nat,
    inFlight: nat,
    calls: seq<Call>)

  datatype Config = Config(interval: real, threshold: real)

  /** `gate` is what `canRefresh` would answer at that moment. */
  datatype Event =
    | Fire(handle: nat, gate: bool)
    | Refresh(gate: bool)
    | Settle(succeeded: bool, recoveredThrows: bool)
    | Stop

  /** `interval * 2 ** n` */
  function Doubled(interval: real, n: nat): real {
    if n == 0 then interval else 2.0 * Doubled(interval, n - 1)
  }

  function Delay(interval: real, failures: nat): real {
    if failures == 0 then interval
    else
      var backoff := Doubled(interval, if failures < 5 then failures else 5);
      if backoff < MAX_BACKOFF then backoff else MAX_BACKOFF
  }

  function Started(c: Config): State {
    State(false, false, 0, 0, map[0 := c.interval], 1, 0, [])
  }

  function Scheduled(c: Config, s: State): State {
    if s.stopped then s
    else s.(timer := s.nextHandle,
            pending := (s.pending - {s.timer})[s.nextHandle := Delay(c.interval, s.failures)],
            nextHandle := s.nextHandle + 1)
  }

  function Asked(s: State, gate: bool): State {
    if s.stopped || s.running || !gate then s else s.(running := true, inFlight := s.inFlight + 1)
  }

  function Failed(c: Config, s: State): State {
    var failures := s.failures + 1;
    s.(failures := failures, calls := s.calls + if failures as real >= c.threshold then [Degraded(failures)] else [])
  }

  function Settled(c: Config, s: State, succeeded: bool, recoveredThrows: bool): State {
    if !succeeded then Failed(c, s)
    else
      var degraded := s.failures as real >= c.threshold;
      var counted := s.(failures := 0, calls := s.calls + if degraded then [Recovered] else []);
      if degraded && recoveredThrows then Failed(c, counted) else counted
  }

  predicate Enabled(s: State, e: Event) {
    match e
    case Fire(handle, _) => handle in s.pending
    case Settle(_, _) => s.inFlight > 0
    case _ => true
  }

  function Step(c: Config, s: State, e: Event): State
    requires Enabled(s, e)
  {
    match e
    case Fire(handle, gate) => Asked(s.(pending := s.pending - {handle}), gate)
    case Refresh(gate) => Asked(s, gate)
    case Settle(succeeded, recoveredThrows) =>
      Scheduled(c, Settled(c, s, succeeded, recoveredThrows).(running := false, inFlight := s.inFlight - 1))
    case Stop => if s.stopped then s else s.(stopped := true, pending := s.pending - {s.timer})
  }

  // ----- The scheduler -----

  class RefreshScheduler {
    const config: Config
    var stopped: bool
    var running: bool
    var consecutiveFailures: nat
    var timer: nat
    var pending: map<nat, real>
    var nextHandle: nat
    var inFlight: nat
    var calls: seq<Call>

    ghost function Now(): State
      reads this
    {
      State(stopped, running, consecutiveFailures, timer, pending, nextHandle, inFlight, calls)
    }

    constructor (config: Config)
      ensures this.config == config && Now() == Started(config)
    {
      this.config := config;
      stopped, running, consecutiveFailures, inFlight, calls := false, false, 0, 0, [];
      pending, timer, nextHandle := map[0 := config.interval], 0, 1;
    }

    method ComputeDelay() returns (delay: real)
      ensures delay == Delay(config.interval, consecutiveFailures)
    {
      if consecutiveFailures == 0 {
        return config.interval;
      }
      var exponent := if consecutiveFailures < 5 then consecutiveFailures else 5;
      delay := Doubled(config.interval, exponent);
      if !(delay < MAX_BACKOFF) {
        delay := MAX_BACKOFF;
      }
    }

    method ScheduleNext()
      modifies this
      ensures Now() == Scheduled(config, old(Now()))
    {
      if stopped {
        return;
      }
      pending := pending - {timer};
      var delay := ComputeDelay();
      timer, nextHandle := nextHandle, nextHandle + 1;
      pending := pending[timer := delay];
    }

    /** `refreshNow` up to the call of `refresh`. */
    method RefreshNow(gate: bool) returns (called: bool)
      modifies this
      ensures Now() == Step(config, old(Now()), Refresh(gate))
      ensures called <==> inFlight > old(inFlight)
    {
      if stopped || running || !gate {
        return false;
      }
      running := true;
      inFlight := inFlight + 1;
      called := true;
    }

    /** The host fires a timer. */
    method Fire(handle: nat, gate: bool)
      requires handle in pending
      modifies this
      ensures Now() == Step(config, old(Now()), Event.Fire(handle, gate))
    {
      pending := pending - {handle};
      var _ := RefreshNow(gate);
    }

    /** The rest of `refreshNow`, once `refresh` has settled. */
    method Settle(succeeded: bool, recoveredThrows: bool)
      requires inFlight > 0
      modifies this
      ensures Now() == Step(config, old(Now()), Event.Settle(succeeded, recoveredThrows))
    {
      inFlight := inFlight - 1;
      var caught := !succeeded;
      if succeeded {
        var wasDegraded := consecutiveFailures as real >= config.threshold;
        consecutiveFailures := 0;
        if wasDegraded {
          calls := calls + [Recovered];
          caught := recoveredThrows;
        }
      }
      if caught {
        consecutiveFailures := consecutiveFailures + 1;
        if consecutiveFailures as real >= config.threshold {
          calls := calls + [Degraded(consecutiveFailures)];
        }
      }
      running := false;
      ScheduleNext();
    }

    method Stop()
      modifies this
      ensures Now() == Step(config, old(Now()), Event.Stop)
    {
      if stopped {
        return;
      }
      stopped := true;
      pending := pending - {timer};
    }
  }

  // ----- Every run -----

  predicate ValidRun(c: Config, events: seq<Event>)
    decreases |events|, 0
  {
    events == [] ||
    var before := events[..|events| - 1];
    ValidRun(c, before) && Enabled(After(c, before), events[|events| - 1])
  }

  function After(c: Config, events: seq<Event>): State
    requires ValidRun(c, events)
    decreases |events|, 1
  {
    if events == [] then Started(c)
    else Step(c, After(c, events[..|events| - 1]), events[|events| - 1])
  }

  /** One refresh in flight at most, one timer at most, none after a stop, and the timer's
      delay is the one for the present number of failures. */
  ghost predicate Inv(c: Config, s: State) {
    && s.inFlight == (if s.running then 1 else 0)
    && s.pending.Keys <= {s.timer}
    && s.timer < s.nextHandle
    && (s.stopped ==> s.pending == map[])
    && forall h | h in s.pending :: s.pending[h] == Delay(c.interval, s.failures)
  }

  lemma StepKeeps(c: Config, s: State, e: Event)
    requires Inv(c, s) && Enabled(s, e)
    ensures Inv(c, Step(c, s, e))
  {
  }

  lemma {:induction false} RunKeeps(c: Config, events: seq<Event>)
    requires ValidRun(c, events)
    ensures Inv(c, After(c, events))
  {
    if events != [] {
      var before := events[..|events| - 1];
      RunKeeps(c, before);
      StepKeeps(c, After(c, before), events[|events| - 1]);
    }
  }

  /** In every reachable state there is at most one refresh in flight and at most one timer,
      no timer after a stop, and no event after a stop calls `refresh` again. */
  lemma {:induction false} OneAtATime(c: Config, events: seq<Event>, e: Event)
    requires ValidRun(c, events) && Enabled(After(c, events), e)
    ensures var s := After(c, events);
            && s.inFlight <= 1 && |s.pending| <= 1
            && (s.stopped ==> s.pending == map[] && Step(c, s, e).stopped && Step(c, s, e).inFlight <= s.inFlight)
  {
    RunKeeps(c, events);
    var s := After(c, events);
    if s.pending != map[] {
      assert s.pending.Keys == {s.timer};
    }
    assert |s.pending| == |s.pending.Keys|;
  }

  // ----- Never idle while the gate is open -----

  predicate Idle(s: State) {
    !s.stopped && !s.running && s.pending == map[]
  }

  /** The timer fired at `i` with nothing in flight and the gate closed, and since then the
      gate was closed at every request. */
  ghost predicate DroppedAt(c: Config, events: seq<Event>, i: nat)
    requires ValidRun(c, events)
  {
    && i < |events| && events[i].Fire? && !events[i].gate
    && ValidRun(c, events[..i]) && !After(c, events[..i]).running
    && forall j | i < j < |events| :: events[j].Refresh? && !events[j].gate
  }

  /** The scheduler has neither a refresh in flight nor a timer exactly when its timer was
      spent on a closed gate and nothing has opened it since; in particular it never goes idle
      while the gate is open. */
  lemma {:induction false} IdleIff(c: Config, events: seq<Event>)
    requires ValidRun(c, events) && forall i | 0 <= i < |events| :: events[i] != Stop
    ensures !After(c, events).stopped
    ensures Idle(After(c, events)) <==> exists i :: DroppedAt(c, events, i)
  {
    if events == [] {
      assert 0 in After(c, events).pending;
    } else {
      var n := |events| - 1;
      var before, last := events[..n], events[n];
      IdleIff(c, before);
      RunKeeps(c, before);
      var s := After(c, before);
      forall i | 0 <= i < n ensures DroppedAt(c, events, i) <==> DroppedAt(c, before, i) && last.Refresh? && !last.gate {
        assert before[..i] == events[..i];
        assert forall j | i < j < n :: before[j] == events[j];
      }
      if last.Refresh? {
        assert !DroppedAt(c, events, n);
        assert Idle(After(c, events)) <==> Idle(s) && !last.gate;
      } else if last.Settle? {
        assert !DroppedAt(c, events, n);
        assert After(c, events).timer in After(c, events).pending;
      } else {
        assert s.pending.Keys == {last.handle};
        assert s.pending - {last.handle} == map[];
        assert events[..n] == before;
        assert DroppedAt(c, events, n) <==> !last.gate && !s.running;
      }
    }
  }

  lemma NeverIdleWhileOpen(c: Config, events: seq<Event>)
    requires ValidRun(c, events) && forall i | 0 <= i < |events| :: events[i] != Stop
    requires forall i | 0 <= i < |events| && events[i].Fire? :: events[i].gate
    ensures !Idle(After(c, events))
  {
    IdleIff(c, events);
  }

  // ----- Backoff -----

  /** The delay stays between the interval and the cap, and never falls as failures grow,
      exactly for intervals within the cap. */
  lemma DelayBoundsIff(interval: real)
    requires interval > 0.0
    ensures (forall f: nat :: interval <= Delay(interval, f) <= MAX_BACKOFF) <==> interval <= MAX_BACKOFF
    ensures (forall f: nat, g: nat | f <= g :: Delay(interval, f) <= Delay(interval, g)) <==> interval <= MAX_BACKOFF
  {
    assert Delay(interval, 0) == interval;
    assert Delay(interval, 1) <= MAX_BACKOFF;
    if interval <= MAX_BACKOFF {
      forall f: nat, g: nat | f <= g ensures Delay(interval, f) <= Delay(interval, g) && interval <= Delay(interval, f) <= MAX_BACKOFF {
        DelayStep(interval, f, g);
      }
    }
  }

  /** The failures in a row, read off the settled refreshes: a success ends them, and one whose
      callback throws after a degradation starts again with one. */
  function Row(threshold: real, events: seq<Event>): nat {
    if events == [] then 0
    else
      var before, last := Row(threshold, events[..|events| - 1]), events[|events| - 1];
      if !last.Settle? then before
      else if !last.succeeded then before + 1
      else if before as real >= threshold && last.recoveredThrows then 1
      else 0
  }

  lemma {:induction false} FailuresAreRow(c: Config, events: seq<Event>)
    requires ValidRun(c, events)
    ensures After(c, events).failures == Row(c.threshold, events)
  {
    if events != [] {
      FailuresAreRow(c, events[..|events| - 1]);
    }
  }

  /** In every run, a pending timer waits the interval while no refresh has failed in a row, and
      otherwise 2, 4, 8, 16 and from then on 32 times as long, but no more than the cap. */
  lemma TimerWaits(c: Config, events: seq<Event>, handle: nat)
    requires ValidRun(c, events) && handle in After(c, events).pending
    ensures var failures, delay := Row(c.threshold, events), After(c, events).pending[handle];
            var factor := if failures == 1 then 2.0 else if failures == 2 then 4.0 else if failures == 3 then 8.0
                          else if failures == 4 then 16.0 else 32.0;
            delay == if failures == 0 then c.interval
                     else if factor * c.interval < 60000.0 then factor * c.interval else 60000.0
  {
    RunKeeps(c, events);
    FailuresAreRow(c, events);
    var i := c.interval;
    assert Doubled(i, 1) == 2.0 * i;
    assert Doubled(i, 2) == 4.0 * i;
    assert Doubled(i, 3) == 8.0 * i;
    assert Doubled(i, 4) == 16.0 * i;
    assert Doubled(i, 5) == 32.0 * i;
  }

  lemma DelayStep(interval: real, f: nat, g: nat)
    requires 0.0 < interval <= MAX_BACKOFF && f <= g
    ensures Delay(interval, f) <= Delay(interval, g) && interval <= Delay(interval, f) <= MAX_BACKOFF
  {
    DoublingGrows(interval, if f < 5 then f else 5, if g < 5 then g else 5);
  }

  lemma {:induction false} DoublingGrows(interval: real, a: nat, b: nat)
    requires interval > 0.0 && a <= b
    ensures interval <= Doubled(interval, a) <= Doubled(interval, b)
    decreases b
  {
    if b > 0 {
      DoublingGrows(interval, if a < b then a else a - 1, b - 1);
    }
  }

  // ----- Degraded and recovered -----

  /** Every recovery directly follows a degradation, and the reports between two recoveries
      count the failures up one by one. */
  predicate Narrates(calls: seq<Call>) {
    forall i | 0 <= i < |calls| :: Follows(calls, i)
  }

  predicate Follows(calls: seq<Call>, i: nat)
    requires i < |calls|
  {
    if calls[i].Recovered? then i > 0 && calls[i - 1].Degraded?
    else i > 0 && calls[i - 1].Degraded? ==> calls[i].failures == calls[i - 1].failures + 1
  }

  predicate EndsDegraded(calls: seq<Call>) {
    calls != [] && calls[|calls| - 1].Degraded?
  }

  /** The last call is a degradation exactly while degraded, and it gave the present count. */
  predicate Told(c: Config, s: State) {
    && Narrates(s.calls)
    && (EndsDegraded(s.calls) <==> s.failures as real >= c.threshold)
    && (EndsDegraded(s.calls) ==> s.calls[|s.calls| - 1].failures == s.failures)
  }

  lemma Appended(calls: seq<Call>, call: Call)
    requires Narrates(calls) && Follows(calls + [call], |calls|)
    ensures Narrates(calls + [call])
  {
    forall i | 0 <= i < |calls| ensures Follows(calls + [call], i) {
      assert Follows(calls, i);
    }
  }

  lemma FailureTold(c: Config, s: State)
    requires Told(c, s)
    ensures Told(c, Failed(c, s))
  {
    if (s.failures + 1) as real >= c.threshold {
      Appended(s.calls, Degraded(s.failures + 1));
    } else {
      assert s.calls + [] == s.calls;
    }
  }

  lemma SuccessTold(c: Config, s: State)
    requires Told(c, s) && c.threshold > 0.0
    ensures Told(c, s.(failures := 0, calls := s.calls + if s.failures as real >= c.threshold then [Recovered] else []))
  {
    if s.failures as real >= c.threshold {
      Appended(s.calls, Recovered);
    } else {
      assert s.calls + [] == s.calls;
    }
  }

  lemma {:induction false} CallsNarrate(c: Config, events: seq<Event>)
    requires ValidRun(c, events) && c.threshold > 0.0
    ensures Told(c, After(c, events))
  {
    if events != [] {
      var before, e := events[..|events| - 1], events[|events| - 1];
      CallsNarrate(c, before);
      var s := After(c, before);
      if e.Settle? {
        SuccessTold(c, s);
        FailureTold(c, s);
        FailureTold(c, s.(failures := 0, calls := s.calls + if s.failures as real >= c.threshold then [Recovered] else []));
      }
    }
  }

  /** Each recovery callback follows a degradation since the last one in every run exactly
      when the threshold is positive. */
  lemma RecoveryFollowsDegradationIff(c: Config)
    ensures (forall events | ValidRun(c, events) :: Narrates(After(c, events).calls)) <==> c.threshold > 0.0
  {
    if c.threshold > 0.0 {
      forall events | ValidRun(c, events) ensures Narrates(After(c, events).calls) {
        CallsNarrate(c, events);
      }
    } else {
      var asked := [Refresh(true)];
      var settled := [Refresh(true), Settle(true, false)];
      assert asked[..0] == [] && settled[..1] == asked;
      assert ValidRun(c, []) && ValidRun(c, asked) && ValidRun(c, settled);
      assert After(c, asked) == Asked(Started(c), true);
      assert !Follows(After(c, settled).calls, 0);
    }
  }
}
