/** `BoomSignalDedupGovernor`: which boom signals are dispatched again, and when.
    Like counts are natural numbers (a missing count is 0); times are milliseconds. */
module DedupGovernor {
  import opened JsText
  import opened Wrappers

  datatype Signal = Signal(workRef: string, sourceUrl: string, grade: string, likes: nat)

  datatype SignalRecord = SignalRecord(
    workRef: string,
    sourceUrl: string,
    grade: string,
    likes: nat,
    missionId: Option<string>,
    firstSeenAt: int,
    lastSeenAt: int,
    version: nat)

  type History = map<string, SignalRecord>

  datatype Action = DispatchNew | DispatchSurge | Suppress

  datatype Decision = Decision(action: Action, record: Option<SignalRecord>)

  function KeyOf(signal: Signal): string {
    Trim(if signal.workRef != "" then signal.workRef else signal.sourceUrl)
  }

  /** The relative growth, measured against at least one like. */
  function Growth(from: nat, to: nat): real {
    (to - from) as real / (if from > 1 then from else 1) as real
  }

  /** The growth from one like count to the other is at least the ratio of the first, where no
      likes count as one. */
  predicate Surges(from: nat, to: nat, ratio: real) {
    (to - from) as real >= ratio * (if from > 1 then from else 1) as real
  }

  lemma SurgesIff(from: nat, to: nat, ratio: real)
    ensures Growth(from, to) >= ratio <==> Surges(from, to, ratio)
  {
    var base := (if from > 1 then from else 1) as real;
    assert Growth(from, to) * base == (to - from) as real;
    if Growth(from, to) >= ratio {
      Scale(ratio, Growth(from, to), base);
    } else {
      StrictScale(Growth(from, to), ratio, base);
    }
  }

  lemma Scale(a: real, b: real, c: real)
    requires a <= b && c >= 0.0
    ensures a * c <= b * c
  {
  }

  lemma StrictScale(a: real, b: real, c: real)
    requires a < b && c > 0.0
    ensures a * c < b * c
  {
  }

  function Pruned(h: History, now: int, window: int): History {
    map key | key in h && now - h[key].lastSeenAt <= window :: h[key]
  }

  function Decide(h: History, signal: Signal, ratio: real): Decision {
    var key := KeyOf(signal);
    if key !in h then Decision(DispatchNew, None)
    else if Growth(h[key].likes, signal.likes) >= ratio then Decision(DispatchSurge, Some(h[key]))
    else Decision(Suppress, Some(h[key]))
  }

  function Recorded(h: History, signal: Signal, missionId: Option<string>, now: int): History {
    var key := KeyOf(signal);
    if key == "" then h
    else if key in h then
      var r := h[key];
      h[key := r.(likes := if signal.likes > r.likes then signal.likes else r.likes,
                  lastSeenAt := now,
                  version := r.version + 1,
                  missionId := if missionId.Some? && missionId.value != "" then missionId else r.missionId)]
    else
      h[key := SignalRecord(key, signal.sourceUrl, signal.grade, signal.likes, missionId, now, now, 1)]
  }

  class BoomSignalDedupGovernor {
    var history: History
    const retentionWindowMs: int
    const surgeThresholdRatio: real

    constructor (window: int := 86400000, ratio: real := 0.3)
      ensures history == map[] && retentionWindowMs == window && surgeThresholdRatio == ratio
    {
      history, retentionWindowMs, surgeThresholdRatio := map[], window, ratio;
    }

    method Evaluate(signal: Signal, now: int) returns (d: Decision)
      modifies this
      ensures KeyOf(signal) == "" ==> d == Decision(Suppress, None) && history == old(history)
      ensures KeyOf(signal) != "" ==>
                && history == Pruned(old(history), now, retentionWindowMs)
                && d == Decide(history, signal, surgeThresholdRatio)
      ensures var key := KeyOf(signal);
              key != "" ==>
                if key in old(history) && now - old(history)[key].lastSeenAt <= retentionWindowMs then
                  && d.record == Some(old(history)[key])
                  && d.action == if Surges(old(history)[key].likes, signal.likes, surgeThresholdRatio) then DispatchSurge else Suppress
                else d == Decision(DispatchNew, None)
    {
      var key := KeyOf(signal);
      if key == "" {
        return Decision(Suppress, None);
      }
      PruneExpired(now);
      if key in history {
        SurgesIff(history[key].likes, signal.likes, surgeThresholdRatio);
      }
      if key !in history {
        return Decision(DispatchNew, None);
      }
      var existing := history[key];
      var base := if existing.likes > 1 then existing.likes else 1;
      var likesGrowth := (signal.likes - existing.likes) as real / base as real;
      if likesGrowth >= surgeThresholdRatio {
        return Decision(DispatchSurge, Some(existing));
      }
      d := Decision(Suppress, Some(existing));
    }

    method Record(signal: Signal, missionId: Option<string>, now: int)
      modifies this
      ensures history == Recorded(old(history), signal, missionId, now)
    {
      var key := KeyOf(signal);
      if key == "" {
        return;
      }
      if key in history {
        var existing := history[key];
        existing := existing.(likes := if existing.likes >= signal.likes then existing.likes else signal.likes);
        existing := existing.(lastSeenAt := now);
        existing := existing.(version := existing.version + 1);
        if missionId.Some? && missionId.value != "" {
          existing := existing.(missionId := missionId);
        }
        history := history[key := existing];
      } else {
        history := history[key := SignalRecord(key, signal.sourceUrl, signal.grade, signal.likes, missionId, now, now, 1)];
      }
    }

    method PruneExpired(now: int)
      modifies this
      ensures history == Pruned(old(history), now, retentionWindowMs)
    {
      ghost var before := history;
      var keys := history.Keys;
      while keys != {}
        invariant keys <= before.Keys
        invariant history == map key | key in before && (key in keys || now - before[key].lastSeenAt <= retentionWindowMs) :: before[key]
      {
        var key :| key in keys;
        if now - history[key].lastSeenAt > retentionWindowMs {
          history := history - {key};
        }
        keys := keys - {key};
      }
    }

    method Clear()
      modifies this
      ensures history == map[]
    {
      history := map[];
    }
  }

  // ----- Runs -----

  datatype Event =
    | Evaluate(signal: Signal, now: int)
    | Record(signal: Signal, missionId: Option<string>, now: int)
    | Prune(now: int)
    | Clear

  /** The governor's parameters and state; the dispatches decided but not yet recorded, as a key
      with the likes it was dispatched for; and for each key the recordings of its present
      record that followed such a dispatch. */
  datatype State = State(history: History, approved: set<(string, nat)>, dispatches: map<string, nat>, window: int, ratio: real)

  function Initial(window: int, ratio: real): State {
    State(map[], {}, map[], window, ratio)
  }

  /** What the class does to the history. */
  function HistoryAfter(s: State, e: Event): History {
    match e
    case Evaluate(signal, now) => if KeyOf(signal) == "" then s.history else Pruned(s.history, now, s.window)
    case Record(signal, missionId, now) => Recorded(s.history, signal, missionId, now)
    case Prune(now) => Pruned(s.history, now, s.window)
    case Clear => map[]
  }

  ghost function ApprovedAfter(s: State, e: Event): set<(string, nat)> {
    match e
    case Evaluate(signal, _) =>
      if KeyOf(signal) != "" && Decide(HistoryAfter(s, e), signal, s.ratio).action != Suppress
      then s.approved + {(KeyOf(signal), signal.likes)} else s.approved
    case Record(signal, _, _) => set p | p in s.approved && p.0 != KeyOf(signal)
    case _ => s.approved
  }

  /** The recordings of a key's present record that were of a fresh dispatch. */
  function Dispatches(s: State, key: string): nat {
    if key in s.history && key in s.dispatches then s.dispatches[key] else 0
  }

  /** The signal was dispatched, and no signal of its key has been recorded since. */
  predicate IsFresh(s: State, signal: Signal) {
    (KeyOf(signal), signal.likes) in s.approved
  }

  function DispatchesAfter(s: State, e: Event): map<string, nat> {
    if e.Record? && KeyOf(e.signal) != ""
    then s.dispatches[KeyOf(e.signal) := Dispatches(s, KeyOf(e.signal)) + if IsFresh(s, e.signal) then 1 else 0]
    else s.dispatches
  }

  ghost function Step(s: State, e: Event): State {
    s.(history := HistoryAfter(s, e), approved := ApprovedAfter(s, e), dispatches := DispatchesAfter(s, e))
  }

  /** A signal is recorded only after an evaluation dispatched it, and no other signal of its
      key has been recorded since. */
  ghost predicate Disciplined(s: State, events: seq<Event>)
    decreases |events|
  {
    events == [] ||
    (var e := events[0];
     && (e.Record? && KeyOf(e.signal) != "" ==> IsFresh(s, e.signal))
     && Disciplined(Step(s, e), events[1..]))
  }

  ghost function After(s: State, events: seq<Event>): State
    decreases |events|
  {
    if events == [] then s else After(Step(s, events[0]), events[1..])
  }

  function Power(base: real, n: nat): real {
    if n == 0 then 1.0 else base * Power(base, n - 1)
  }

  /** The likes are at least (1+r) to the power of the dispatches after the second. */
  ghost predicate Exponential(likes: nat, dispatches: nat, ratio: real) {
    dispatches >= 2 ==> likes as real >= Power(1.0 + ratio, dispatches - 2)
  }

  ghost predicate Inv(s: State) {
    && (forall key | key in s.history :: Exponential(s.history[key].likes, Dispatches(s, key), s.ratio))
    && (forall p | p in s.approved && p.0 in s.history :: Growth(s.history[p.0].likes, p.1) >= s.ratio)
  }

  lemma GrowthMultiplies(from: nat, to: nat, ratio: real)
    requires ratio > 0.0 && Growth(from, to) >= ratio
    ensures to > from
    ensures from >= 1 ==> to as real >= (1.0 + ratio) * from as real
  {
    var base := (if from > 1 then from else 1) as real;
    var g := Growth(from, to);
    assert g * base == (to - from) as real;
    assert g * base >= ratio * base by {
      Scale(ratio, g, base);
    }
    assert ratio * base > 0.0;
  }

  lemma DispatchKeeps(from: nat, to: nat, dispatches: nat, ratio: real)
    requires ratio > 0.0 && Exponential(from, dispatches, ratio) && Growth(from, to) >= ratio
    ensures Exponential(to, dispatches + 1, ratio)
  {
    GrowthMultiplies(from, to, ratio);
    assert Power(1.0 + ratio, 0) == 1.0;
    if dispatches >= 2 {
      PowerAtLeastOne(1.0 + ratio, dispatches - 2);
      Scale(Power(1.0 + ratio, dispatches - 2), from as real, 1.0 + ratio);
      assert from >= 1;
    }
  }

  lemma {:induction false} PowerAtLeastOne(base: real, n: nat)
    requires base >= 1.0
    ensures Power(base, n) >= 1.0
  {
    if n > 0 {
      PowerAtLeastOne(base, n - 1);
      Scale(1.0, base, Power(base, n - 1));
    }
  }

  lemma RecordKeeps(s: State, e: Event)
    requires s.ratio > 0.0 && Inv(s) && e.Record? && KeyOf(e.signal) != ""
    ensures Inv(Step(s, e))
    ensures KeyOf(e.signal) in s.history ==> s.history[KeyOf(e.signal)].likes <= Step(s, e).history[KeyOf(e.signal)].likes
  {
    var key, t := KeyOf(e.signal), Step(s, e);
    if key in s.history && IsFresh(s, e.signal) {
      assert (key, e.signal.likes).0 in s.history;
      DispatchKeeps(s.history[key].likes, e.signal.likes, Dispatches(s, key), s.ratio);
      GrowthMultiplies(s.history[key].likes, e.signal.likes, s.ratio);
    }
    assert Exponential(t.history[key].likes, Dispatches(t, key), s.ratio);
    forall k | k in t.history && k != key ensures Exponential(t.history[k].likes, Dispatches(t, k), s.ratio) {
      assert Dispatches(t, k) == Dispatches(s, k);
    }
  }

  lemma StepKeeps(s: State, e: Event)
    requires s.ratio > 0.0 && Inv(s)
    ensures Inv(Step(s, e))
    ensures forall key | key in s.history && key in Step(s, e).history :: s.history[key].likes <= Step(s, e).history[key].likes
  {
    if e.Record? && KeyOf(e.signal) != "" {
      RecordKeeps(s, e);
    } else {
      var t := Step(s, e);
      forall k | k in t.history ensures Exponential(t.history[k].likes, Dispatches(t, k), s.ratio) {
        assert k in s.history && t.history[k] == s.history[k] && Dispatches(t, k) == Dispatches(s, k);
      }
    }
  }

  /** Surge dispatches are logarithmic in the likes. In every run, a live record that was
      recorded f >= 2 times on a fresh dispatch has at least (1+r)^(f-2) likes; other
      recordings only raise likes and version. */
  lemma {:induction false} SurgesAreLogarithmic(s: State, events: seq<Event>)
    requires s.ratio > 0.0 && Inv(s)
    ensures Inv(After(s, events))
    decreases |events|
  {
    if events != [] {
      StepKeeps(s, events[0]);
      SurgesAreLogarithmic(Step(s, events[0]), events[1..]);
    }
  }

  /** Every recording was of a fresh dispatch. */
  ghost predicate AllFresh(s: State) {
    forall key | key in s.history :: s.history[key].version == Dispatches(s, key)
  }

  lemma {:induction false} DisciplineKeepsFresh(s: State, events: seq<Event>)
    requires AllFresh(s) && Disciplined(s, events)
    ensures AllFresh(After(s, events))
    decreases |events|
  {
    if events != [] {
      var t := Step(s, events[0]);
      forall key | key in t.history ensures t.history[key].version == Dispatches(t, key) {
        assert key in s.history ==> s.history[key].version == Dispatches(s, key);
      }
      DisciplineKeepsFresh(t, events[1..]);
    }
  }

  /** When signals are recorded only after being dispatched, that count is the version. */
  lemma VersionsAreLogarithmic(window: int, ratio: real, events: seq<Event>, key: string)
    requires ratio > 0.0 && Disciplined(Initial(window, ratio), events)
    requires key in After(Initial(window, ratio), events).history
    ensures var r := After(Initial(window, ratio), events).history[key];
            Exponential(r.likes, r.version, ratio)
  {
    SurgesAreLogarithmic(Initial(window, ratio), events);
    DisciplineKeepsFresh(Initial(window, ratio), events);
    ParametersFixed(Initial(window, ratio), events);
  }

  /** Two overlapping dispatches of one signal, both evaluated before either is recorded,
      leave a record of version 2 without a like: of versions, the bound needs the discipline. */
  lemma OverlapBreaksBound(signal: Signal, ratio: real, now: int)
    requires KeyOf(signal) != "" && signal.likes == 0
    ensures var s := After(Initial(86400000, ratio),
                           [Evaluate(signal, now), Evaluate(signal, now), Record(signal, None, now), Record(signal, None, now)]);
            var key := KeyOf(signal);
            key in s.history && !Exponential(s.history[key].likes, s.history[key].version, ratio)
  {
    var s0 := Initial(86400000, ratio);
    var evaluate, record := Evaluate(signal, now), Event.Record(signal, None, now);
    var events := [evaluate, evaluate, record, record];
    assert events[1..] == [evaluate, record, record] && events[1..][1..] == [record, record];
    assert [record, record][1..] == [record] && [record][1..] == [];
    var s2 := Step(Step(s0, evaluate), evaluate);
    assert s2.history == map[];
    var s4 := Step(Step(s2, record), record);
    assert After(s4, []) == s4;
    assert After(Step(s2, record), [record]) == s4;
    assert After(s2, [record, record]) == s4;
    assert Power(1.0 + ratio, 0) == 1.0;
  }

  // ----- The retention window -----

  /** The time of the last event that has one. */
  function Clock(clock: int, events: seq<Event>): int {
    if events == [] then clock
    else if events[|events| - 1].Clear? then Clock(clock, events[..|events| - 1])
    else events[|events| - 1].now
  }

  /** Times never fall back. */
  ghost predicate NeverBack(clock: int, events: seq<Event>) {
    events == [] ||
    (var before, last := events[..|events| - 1], events[|events| - 1];
     NeverBack(clock, before) && (last.Clear? || Clock(clock, before) <= last.now))
  }

  /** When a signal of the key was last recorded since the last clear, read off the history
      before the run and the run alone. */
  function LastSeen(h: History, events: seq<Event>, key: string): Option<int> {
    if events == [] then if key in h then Some(h[key].lastSeenAt) else None
    else
      var last := events[|events| - 1];
      if last.Clear? then None
      else if last.Record? && KeyOf(last.signal) == key then Some(last.now)
      else LastSeen(h, events[..|events| - 1], key)
  }

  /** The history holds the key with that time, unless the time is out of the window. */
  ghost predicate Remembers(h: History, seen: Option<int>, key: string, clock: int, window: int) {
    if key in h then seen == Some(h[key].lastSeenAt)
    else seen.Some? ==> clock - seen.value > window
  }

  lemma {:induction false} AfterLast(s: State, events: seq<Event>)
    requires events != []
    ensures After(s, events) == Step(After(s, events[..|events| - 1]), events[|events| - 1])
    decreases |events|
  {
    var n := |events| - 1;
    if n > 0 {
      AfterLast(Step(s, events[0]), events[1..]);
      assert events[1..][..n - 1] == events[..n][1..] && events[1..][n - 1] == events[n];
    }
  }

  lemma {:induction false} RunRemembers(s: State, clock: int, events: seq<Event>, key: string)
    requires key != "" && NeverBack(clock, events)
    ensures Remembers(After(s, events).history, LastSeen(s.history, events, key), key, Clock(clock, events), s.window)
    ensures After(s, events).window == s.window && After(s, events).ratio == s.ratio
  {
    if events != [] {
      AfterLast(s, events);
      RunRemembers(s, clock, events[..|events| - 1], key);
    }
  }

  /** When an evaluation says "new", said without the history the run has built: over every run
      with a clock that does not fall back, disciplined or not and with clears, exactly when no
      signal of the key has been recorded since the last clear, or the last one lies more than
      the retention window back. */
  lemma {:induction false} NewIff(s: State, clock: int, events: seq<Event>, signal: Signal, now: int)
    requires KeyOf(signal) != "" && NeverBack(clock, events) && Clock(clock, events) <= now
    ensures var seen := LastSeen(s.history, events, KeyOf(signal));
            Decide(HistoryAfter(After(s, events), Evaluate(signal, now)), signal, s.ratio).action == DispatchNew <==>
              seen.None? || now - seen.value > s.window
  {
    RunRemembers(s, clock, events, KeyOf(signal));
  }

  // ----- The record and the decision, read off the run -----

  ghost predicate AllRecordings(rs: seq<Event>) {
    forall i | 0 <= i < |rs| :: rs[i].Record?
  }

  /** The recordings that make up the key's present record: those since the last clear and since
      the last evaluation or pruning that found the record out of the window. */
  function Recordings(events: seq<Event>, key: string, window: int): (rs: seq<Event>)
    ensures AllRecordings(rs)
  {
    if events == [] then []
    else Counting(Recordings(events[..|events| - 1], key, window), events[|events| - 1], key, window)
  }

  function Counting(rs: seq<Event>, e: Event, key: string, window: int): (r: seq<Event>)
    requires AllRecordings(rs)
    ensures AllRecordings(r)
  {
    match e
    case Clear => []
    case Record(signal, _, _) => if KeyOf(signal) == key then rs + [e] else rs
    case Evaluate(signal, now) => if KeyOf(signal) != "" && rs != [] && now - rs[|rs| - 1].now > window then [] else rs
    case Prune(now) => if rs != [] && now - rs[|rs| - 1].now > window then [] else rs
  }

  /** The greatest like count recorded. */
  function MostLikes(rs: seq<Event>): (most: nat)
    requires rs != [] && AllRecordings(rs)
    ensures exists i | 0 <= i < |rs| :: rs[i].signal.likes == most
    ensures forall i | 0 <= i < |rs| :: rs[i].signal.likes <= most
  {
    var n := |rs| - 1;
    if n == 0 then rs[0].signal.likes
    else
      var before := MostLikes(rs[..n]);
      assert exists i | 0 <= i < n :: rs[i].signal.likes == before by {
        var i :| 0 <= i < n && rs[..n][i].signal.likes == before;
        assert rs[i].signal.likes == before;
      }
      assert forall i | 0 <= i < n :: rs[i].signal.likes <= before by {
        assert forall i | 0 <= i < n :: rs[i] == rs[..n][i];
      }
      if rs[n].signal.likes > before then rs[n].signal.likes else before
  }

  /** The mission named last, the first recording's naming counting whatever it is. */
  function LastMission(rs: seq<Event>): Option<string>
    requires rs != [] && AllRecordings(rs)
  {
    var n := |rs| - 1;
    if n == 0 || (rs[n].missionId.Some? && rs[n].missionId.value != "") then rs[n].missionId else LastMission(rs[..n])
  }

  /** The record is the summary of its recordings. */
  ghost predicate Summarises(key: string, r: SignalRecord, rs: seq<Event>)
    requires rs != [] && AllRecordings(rs)
  {
    && r.likes == MostLikes(rs)
    && r.version == |rs|
    && r.firstSeenAt == rs[0].now && r.lastSeenAt == rs[|rs| - 1].now
    && r.missionId == LastMission(rs)
    && r.workRef == key && r.sourceUrl == rs[0].signal.sourceUrl && r.grade == rs[0].signal.grade
  }

  lemma SummaryGrows(key: string, r: SignalRecord, rs: seq<Event>, e: Event)
    requires rs != [] && AllRecordings(rs) && Summarises(key, r, rs)
    requires e.Record? && KeyOf(e.signal) == key && key != ""
    ensures Summarises(key, Recorded(map[key := r], e.signal, e.missionId, e.now)[key], rs + [e])
  {
    assert (rs + [e])[..|rs|] == rs;
  }

  ghost predicate Tells(h: History, key: string, rs: seq<Event>)
    requires AllRecordings(rs)
  {
    (key in h <==> rs != []) && (rs != [] ==> Summarises(key, h[key], rs))
  }

  lemma StepTells(s: State, e: Event, key: string, rs: seq<Event>)
    requires key != "" && AllRecordings(rs) && Tells(s.history, key, rs)
    ensures Tells(HistoryAfter(s, e), key, Counting(rs, e, key, s.window))
  {
    if e.Record? && KeyOf(e.signal) == key {
      if rs == [] {
        assert [e][0] == e;
      } else {
        SummaryGrows(key, s.history[key], rs, e);
      }
    }
  }

  /** In every run of a governor, it holds a key exactly when the key has recordings that count,
      and the record is their summary. */
  lemma {:induction false} RecordTells(window: int, ratio: real, events: seq<Event>, key: string)
    requires key != ""
    ensures Tells(After(Initial(window, ratio), events).history, key, Recordings(events, key, window))
  {
    if events != [] {
      var n := |events| - 1;
      AfterLast(Initial(window, ratio), events);
      ParametersFixed(Initial(window, ratio), events[..n]);
      RecordTells(window, ratio, events[..n], key);
      StepTells(After(Initial(window, ratio), events[..n]), events[n], key, Recordings(events[..n], key, window));
    }
  }

  /** What an evaluation decides, over every run of a governor and without its history: "new"
      exactly when no recording of the key counts any more, the evaluation's own pruning
      included; else "surge" exactly when the likes have grown by the ratio over the most that
      those recordings had; else "suppress". */
  lemma SurgeIff(window: int, ratio: real, events: seq<Event>, signal: Signal, now: int)
    requires KeyOf(signal) != ""
    ensures var action := Decide(HistoryAfter(After(Initial(window, ratio), events), Evaluate(signal, now)), signal, ratio).action;
            var rs := Recordings(events + [Evaluate(signal, now)], KeyOf(signal), window);
            && (action == DispatchNew <==> rs == [])
            && (action == DispatchSurge <==> rs != [] && Surges(MostLikes(rs), signal.likes, ratio))
  {
    var all := events + [Evaluate(signal, now)];
    assert all[..|events|] == events;
    AfterLast(Initial(window, ratio), all);
    RecordTells(window, ratio, all, KeyOf(signal));
    DecideIff(After(Initial(window, ratio), all).history, signal, ratio);
  }

  lemma DecideIff(h: History, signal: Signal, ratio: real)
    ensures var action := Decide(h, signal, ratio).action;
            && (action == DispatchNew <==> KeyOf(signal) !in h)
            && (action == DispatchSurge <==> KeyOf(signal) in h && Surges(h[KeyOf(signal)].likes, signal.likes, ratio))
  {
    if KeyOf(signal) in h {
      SurgesIff(h[KeyOf(signal)].likes, signal.likes, ratio);
    }
  }

  lemma {:induction false} SeenSince(h: History, since: int, events: seq<Event>, key: string)
    requires NeverBack(since, events) && key in h && h[key].lastSeenAt == since
    requires forall i | 0 <= i < |events| :: !events[i].Clear?
    ensures LastSeen(h, events, key).Some? && since <= LastSeen(h, events, key).value <= Clock(since, events)
  {
    if events != [] {
      SeenSince(h, since, events[..|events| - 1], key);
    }
  }

  /** Two "new" dispatches of one key: an evaluation that says "new" after a signal of the key
      was recorded comes more than the retention window later, or after a clear. */
  lemma NewOnlyAfterWindow(s: State, first: Signal, missionId: Option<string>, since: int, events: seq<Event>, again: Signal, now: int)
    requires KeyOf(first) != "" && KeyOf(again) == KeyOf(first)
    requires NeverBack(since, events) && Clock(since, events) <= now
    requires var recorded := Step(s, Event.Record(first, missionId, since));
             Decide(HistoryAfter(After(recorded, events), Evaluate(again, now)), again, s.ratio).action == DispatchNew
    ensures now - since > s.window || exists i | 0 <= i < |events| :: events[i].Clear?
  {
    var recorded := Step(s, Event.Record(first, missionId, since));
    NewIff(recorded, since, events, again, now);
    if forall i | 0 <= i < |events| :: !events[i].Clear? {
      SeenSince(recorded.history, since, events, KeyOf(first));
    }
  }

  /** Clearing forgets the window: a key recorded a moment ago is new again. */
  lemma ClearForgets(s: State, signal: Signal, missionId: Option<string>, now: int)
    requires KeyOf(signal) != ""
    ensures var cleared := After(s, [Event.Record(signal, missionId, now), Clear]);
            Decide(HistoryAfter(cleared, Evaluate(signal, now)), signal, s.ratio).action == DispatchNew
  {
    var events := [Event.Record(signal, missionId, now), Clear];
    assert events[..1] == [Event.Record(signal, missionId, now)];
    assert NeverBack(now, events[..1]) && Clock(now, events[..1]) == now;
    assert NeverBack(now, events) && Clock(now, events) == now;
    NewIff(s, now, events, signal, now);
  }

  lemma {:induction false} ParametersFixed(s: State, events: seq<Event>)
    ensures After(s, events).window == s.window && After(s, events).ratio == s.ratio
    decreases |events|
  {
    if events != [] {
      ParametersFixed(Step(s, events[0]), events[1..]);
    }
  }
}
