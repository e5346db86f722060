/** The serialised, rolling-back JSON store: `createMutationSerializer`, `writePrivateJson`
    and the `runMutation` wrapper the two stores put around them.

    The promise chain is a queue of callbacks of which the head alone runs. A run is a
    sequence of events, one per point at which the real code gives up control, and every
    await may end either way. What the events do is the function `Step`; the class
    `JsonStore` does the same by updating its fields. */
module PrivateJsonStore {
  import opened Wrappers

  /** What a mutation callback does before its first await: return without touching
      anything, throw (having possibly dirtied memory), or change memory and persist it. */
  datatype Effect<+S> = Skips | Throws(dirty: S) | Persists(next: S)

  type Mutation<!S> = S -> Effect<S>

  /** A file: absent, holding part of a write, or holding the whole text of a value. */
  datatype Content<+S> = Missing | Torn | Whole(value: S)

  /** What a fresh process finds in a file; `init` treats an absent file as the empty store. */
  function Load<S>(file: Content<S>, empty: S): Option<S> {
    match file
    case Missing => Some(empty)
    case Torn => None
    case Whole(v) => Some(v)
  }

  datatype Outcome = Returned | Committed | Threw | WriteFailed | RenameFailed | HardenFailed {
    predicate Succeeded() { Returned? || Committed? }
    predicate Renamed() { Committed? || HardenFailed? }
  }

  /** Where the running mutation is suspended. */
  datatype Point = Writing | Renaming | Hardening | Removing(cause: Outcome) | Unwinding(cause: Outcome)

  datatype Slot<!S> = Idle | Running(mutation: Mutation<S>, snapshot: S, at: Point)

  datatype Entry<!S> = Entry(mutation: Mutation<S>, outcome: Outcome)

  datatype Store<!S> = Store(
    memory: S,
    file: Content<S>,
    temporary: Content<S>,
    slot: Slot<S>,
    queue: seq<Mutation<S>>,
    log: seq<Entry<S>>)

  datatype Event<!S> =
    | Submit(mutation: Mutation<S>)
    | Start
    | Write(ok: bool, torn: bool)
    | Rename(ok: bool)
    | Harden(ok: bool)
    | Remove(ok: bool)
    | Unwind

  ghost predicate Enabled<S>(s: Store<S>, e: Event<S>) {
    match e
    case Submit(_) => true
    case Start => s.slot.Idle? && s.queue != []
    case Write(_, _) => s.slot.Running? && s.slot.at.Writing?
    case Rename(_) => s.slot.Running? && s.slot.at.Renaming?
    case Harden(_) => s.slot.Running? && s.slot.at.Hardening?
    case Remove(_) => s.slot.Running? && s.slot.at.Removing?
    case Unwind => s.slot.Running? && s.slot.at.Unwinding?
  }

  ghost function Finish<S>(s: Store<S>, m: Mutation<S>, outcome: Outcome): Store<S> {
    s.(slot := Idle, log := s.log + [Entry(m, outcome)])
  }

  ghost function MoveTo<S>(s: Store<S>, at: Point): Store<S>
    requires s.slot.Running?
  {
    s.(slot := s.slot.(at := at))
  }

  ghost function Step<S>(s: Store<S>, e: Event<S>): Store<S>
    requires Enabled(s, e)
  {
    match e
    case Submit(m) => s.(queue := s.queue + [m])
    case Start =>
      var m := s.queue[0];
      var s' := s.(queue := s.queue[1..], temporary := Missing);
      (match m(s.memory)
       case Skips => Finish(s', m, Returned)
       case Throws(dirty) => s'.(memory := dirty, slot := Running(m, s.memory, Unwinding(Threw)))
       case Persists(next) => s'.(memory := next, slot := Running(m, s.memory, Writing)))
    case Write(ok, torn) =>
      if ok then MoveTo(s.(temporary := Whole(s.memory)), Renaming)
      else MoveTo(s.(temporary := if torn then Torn else Missing), Removing(WriteFailed))
    case Rename(ok) =>
      if ok then MoveTo(s.(file := s.temporary, temporary := Missing), Hardening)
      else MoveTo(s, Removing(RenameFailed))
    case Harden(ok) =>
      if ok then Finish(s, s.slot.mutation, Committed) else MoveTo(s, Removing(HardenFailed))
    case Remove(ok) =>
      MoveTo(if ok then s.(temporary := Missing) else s, Unwinding(s.slot.at.cause))
    case Unwind =>
      Finish(s.(memory := s.slot.snapshot), s.slot.mutation, s.slot.at.cause)
  }

  ghost predicate ValidRun<S>(s: Store<S>, events: seq<Event<S>>)
    decreases |events|
  {
    events == [] || (Enabled(s, events[0]) && ValidRun(Step(s, events[0]), events[1..]))
  }

  ghost function After<S>(s: Store<S>, events: seq<Event<S>>): Store<S>
    requires ValidRun(s, events)
    decreases |events|
  {
    if events == [] then s else After(Step(s, events[0]), events[1..])
  }

  // ----- What the callers are promised, said without mentioning the queue or the file -----

  function Apply<S>(m: Mutation<S>, s: S): S {
    match m(s)
    case Persists(next) => next
    case _ => s
  }

  /** Running mutations one after the other on a store nobody else touches. */
  function Fold<S>(s: S, ms: seq<Mutation<S>>): S {
    if ms == [] then s else Apply(ms[|ms| - 1], Fold(s, ms[..|ms| - 1]))
  }

  function Succeeded<S>(log: seq<Entry<S>>): seq<Mutation<S>> {
    if log == [] then []
    else
      var last := log[|log| - 1];
      Succeeded(log[..|log| - 1]) + (if last.outcome.Succeeded() then [last.mutation] else [])
  }

  /** The content the last rename left behind, `file` if there was none. */
  function OnDisk<S>(s: S, file: Content<S>, log: seq<Entry<S>>): Content<S> {
    if log == [] then file
    else
      var last, before := log[|log| - 1], log[..|log| - 1];
      if last.outcome.Renamed() then Whole(Apply(last.mutation, Fold(s, Succeeded(before))))
      else OnDisk(s, file, before)
  }

  /** Every recorded outcome is one its mutation could have had on the store it met. */
  ghost predicate Faithful<S>(s: S, log: seq<Entry<S>>) {
    log == [] ||
    (var last, before := log[|log| - 1], log[..|log| - 1];
     && Faithful(s, before)
     && Matches(last.mutation(Fold(s, Succeeded(before))), last.outcome))
  }

  ghost predicate Matches<S>(effect: Effect<S>, outcome: Outcome) {
    match outcome
    case Returned => effect.Skips?
    case Threw => effect.Throws?
    case _ => effect.Persists?
  }

  /** Mutations in the order they were handed over: finished, running, waiting. */
  ghost function Accepted<S>(s: Store<S>): seq<Mutation<S>> {
    Finished(s.log) + (if s.slot.Running? then [s.slot.mutation] else []) + s.queue
  }

  ghost function Finished<S>(log: seq<Entry<S>>): seq<Mutation<S>> {
    seq(|log|, i requires 0 <= i < |log| => log[i].mutation)
  }

  ghost function Submitted<S>(events: seq<Event<S>>): seq<Mutation<S>> {
    if events == [] then []
    else (if events[0].Submit? then [events[0].mutation] else []) + Submitted(events[1..])
  }

  // ----- The invariant of a run that began with memory `m0` and file `f0` -----

  ghost predicate Inv<S>(m0: S, f0: Content<S>, s: Store<S>) {
    Faithful(m0, s.log) && Between(Fold(m0, Succeeded(s.log)), OnDisk(m0, f0, s.log), s)
  }

  /** Memory and file in terms of the boundary state `base` and the boundary file `disk`. */
  ghost predicate Between<S>(base: S, disk: Content<S>, s: Store<S>) {
    match s.slot
    case Idle => s.memory == base && s.file == disk
    case Running(m, snapshot, at) =>
      && snapshot == base
      && match at
         case Writing => m(base) == Persists(s.memory) && s.file == disk
         case Renaming =>
           m(base) == Persists(s.memory) && s.file == disk && s.temporary == Whole(s.memory)
         case Hardening => m(base) == Persists(s.memory) && s.file == Whole(s.memory)
         case Removing(cause) => Unwound(m, base, disk, s.file, cause)
         case Unwinding(cause) => Unwound(m, base, disk, s.file, cause)
  }

  /** A failing mutation has already left the file as its log entry will say. */
  ghost predicate Unwound<S>(m: Mutation<S>, base: S, disk: Content<S>, file: Content<S>, cause: Outcome) {
    && !cause.Succeeded()
    && Matches(m(base), cause)
    && file == if cause.HardenFailed? then Whole(Apply(m, base)) else disk
  }

  ghost predicate Opened<S>(m0: S, f0: Content<S>, s: Store<S>) {
    s.memory == m0 && s.file == f0 && s.temporary == Missing && s.slot == Idle && s.queue == [] && s.log == []
  }

  /** What one more log entry does to the folds over the log. */
  lemma LogGrows<S>(m0: S, f0: Content<S>, log: seq<Entry<S>>, e: Entry<S>)
    ensures var base := Fold(m0, Succeeded(log));
            && (Faithful(m0, log + [e]) <==> Faithful(m0, log) && Matches(e.mutation(base), e.outcome))
            && Fold(m0, Succeeded(log + [e])) == (if e.outcome.Succeeded() then Apply(e.mutation, base) else base)
            && OnDisk(m0, f0, log + [e]) ==
                 (if e.outcome.Renamed() then Whole(Apply(e.mutation, base)) else OnDisk(m0, f0, log))
  {
    assert (log + [e])[..|log|] == log;
    var done := Succeeded(log);
    assert (done + [e.mutation])[..|done|] == done;
    assert done + [] == done;
  }

  lemma StepBetween<S>(base: S, disk: Content<S>, s: Store<S>, e: Event<S>)
    requires Between(base, disk, s) && Enabled(s, e)
    ensures var s' := Step(s, e);
            || (s'.log == s.log && Between(base, disk, s'))
            || exists m, outcome ::
                 && s'.log == s.log + [Entry(m, outcome)]
                 && Matches(m(base), outcome)
                 && Between(if outcome.Succeeded() then Apply(m, base) else base,
                            if outcome.Renamed() then Whole(Apply(m, base)) else disk,
                            s')
  {
    if e.Start? {
      var m := s.queue[0];
      assert m(s.memory).Skips? ==> Step(s, e).log == s.log + [Entry(m, Returned)];
    } else if e.Harden? && e.ok {
      assert Step(s, e).log == s.log + [Entry(s.slot.mutation, Committed)];
    } else if e.Unwind? {
      assert Step(s, e).log == s.log + [Entry(s.slot.mutation, s.slot.at.cause)];
    }
  }

  lemma StepKeepsInv<S>(m0: S, f0: Content<S>, s: Store<S>, e: Event<S>)
    requires Inv(m0, f0, s) && Enabled(s, e)
    ensures Inv(m0, f0, Step(s, e))
  {
    var base, disk, s' := Fold(m0, Succeeded(s.log)), OnDisk(m0, f0, s.log), Step(s, e);
    StepBetween(base, disk, s, e);
    if s'.log != s.log {
      var m, outcome :|
        && s'.log == s.log + [Entry(m, outcome)]
        && Matches(m(base), outcome)
        && Between(if outcome.Succeeded() then Apply(m, base) else base,
                   if outcome.Renamed() then Whole(Apply(m, base)) else disk,
                   s');
      LogGrows(m0, f0, s.log, Entry(m, outcome));
    }
  }

  lemma {:induction false} RunKeepsInv<S>(m0: S, f0: Content<S>, s: Store<S>, events: seq<Event<S>>)
    requires Inv(m0, f0, s) && ValidRun(s, events)
    ensures Inv(m0, f0, After(s, events))
    decreases |events|
  {
    if events != [] {
      StepKeepsInv(m0, f0, s, events[0]);
      RunKeepsInv(m0, f0, Step(s, events[0]), events[1..]);
    }
  }

  lemma StepKeepsOrder<S>(s: Store<S>, e: Event<S>)
    requires Enabled(s, e)
    ensures Accepted(Step(s, e)) == Accepted(s) + (if e.Submit? then [e.mutation] else [])
  {
    var s' := Step(s, e);
    if |s'.log| == |s.log| + 1 {
      assert Finished(s'.log) == Finished(s.log) + [s'.log[|s.log|].mutation];
    }
  }

  /** First in, first out: whatever fails, the mutations finished, running and waiting are
      always those submitted, in the order they were submitted. */
  lemma {:induction false} SubmissionOrder<S>(s: Store<S>, events: seq<Event<S>>)
    requires ValidRun(s, events)
    ensures Accepted(After(s, events)) == Accepted(s) + Submitted(events)
    decreases |events|
  {
    if events != [] {
      StepKeepsOrder(s, events[0]);
      SubmissionOrder(Step(s, events[0]), events[1..]);
    }
  }

  /** The serialiser's promise. Whenever no mutation is running, memory is what running the
      succeeded ones alone, in submission order, would have produced: those that failed, at
      whichever await, left no trace; and the mutations finished, one way or the other, followed
      by those still waiting are exactly those submitted, in order. */
  lemma IdleMemoryIsSequentialFold<S>(m0: S, f0: Content<S>, s0: Store<S>, events: seq<Event<S>>)
    requires Opened(m0, f0, s0) && ValidRun(s0, events)
    requires After(s0, events).slot.Idle?
    ensures var s := After(s0, events);
            s.memory == Fold(m0, Succeeded(s.log)) && Accepted(s) == Submitted(events)
  {
    RunKeepsInv(m0, f0, s0, events);
    SubmissionOrder(s0, events);
    assert Accepted(s0) == [];
    assert [] + Submitted(events) == Submitted(events);
  }

  // ----- Nothing blocks the queue -----

  /** Steps the mutations already handed over can still take. */
  ghost function Work<S>(s: Store<S>): nat {
    6 * |s.queue| +
    match s.slot
    case Idle => 0
    case Running(_, _, at) =>
      match at
      case Writing => 5
      case Renaming => 4
      case Hardening => 3
      case Removing(_) => 2
      case Unwinding(_) => 1
  }

  lemma SomethingIsEnabled<S>(s: Store<S>) returns (e: Event<S>)
    requires s.slot.Running? || s.queue != []
    ensures Enabled(s, e) && !e.Submit?
  {
    match s.slot
    case Idle => e := Start;
    case Running(_, _, at) =>
      match at
      case Writing => e := Write(true, false);
      case Renaming => e := Rename(true);
      case Hardening => e := Harden(true);
      case Removing(_) => e := Remove(true);
      case Unwinding(_) => e := Unwind;
  }

  /** However the awaits end, a run with no further submissions is bounded by the work in
      hand, and one that cannot be extended has finished every mutation it was given. */
  lemma {:induction false} QueueDrains<S>(s: Store<S>, events: seq<Event<S>>)
    requires ValidRun(s, events) && Submitted(events) == []
    ensures |events| + Work(After(s, events)) <= Work(s)
    ensures (forall e :: Enabled(After(s, events), e) ==> e.Submit?) ==>
              Finished(After(s, events).log) == Accepted(s)
    decreases |events|
  {
    if events == [] {
      if forall e :: Enabled(s, e) ==> e.Submit? {
        if s.slot.Running? || s.queue != [] {
          var e := SomethingIsEnabled(s);
          assert false;
        }
        assert Accepted(s) == Finished(s.log);
      }
    } else {
      assert !events[0].Submit?;
      assert Submitted(events) == Submitted(events[1..]);
      StepKeepsOrder(s, events[0]);
      assert Accepted(Step(s, events[0])) == Accepted(s);
      QueueDrains(Step(s, events[0]), events[1..]);
    }
  }

  // ----- What a crash leaves, and when the file agrees with memory -----

  /** At every step, so also after a crash at that step, the file holds the whole text of a
      boundary state: the one the last rename left behind or, once the running mutation has
      renamed, the store that mutation made of the successes before it. */
  lemma CrashLeavesBoundary<S>(m0: S, f0: Content<S>, s0: Store<S>, events: seq<Event<S>>)
    requires Opened(m0, f0, s0) && ValidRun(s0, events)
    ensures var s := After(s0, events);
            || s.file == OnDisk(m0, f0, s.log)
            || (s.slot.Running? && s.file == Whole(Apply(s.slot.mutation, Fold(m0, Succeeded(s.log)))))
    ensures !f0.Torn? ==> !After(s0, events).file.Torn?
  {
    RunKeepsInv(m0, f0, s0, events);
    OnDiskNotTorn(m0, f0, After(s0, events).log);
  }

  lemma {:induction false} OnDiskNotTorn<S>(m0: S, f0: Content<S>, log: seq<Entry<S>>)
    ensures !f0.Torn? ==> !OnDisk(m0, f0, log).Torn?
  {
    if log != [] {
      OnDiskNotTorn(m0, f0, log[..|log| - 1]);
    }
  }

  /** The last mutation that got as far as renaming. */
  function LastRenamed<S>(log: seq<Entry<S>>): Option<Entry<S>> {
    if log == [] then None
    else if log[|log| - 1].outcome.Renamed() then Some(log[|log| - 1])
    else LastRenamed(log[..|log| - 1])
  }

  lemma {:induction false} DiskAgainstFold<S>(m0: S, f0: Content<S>, log: seq<Entry<S>>)
    requires Faithful(m0, log)
    ensures var now, last, disk := Fold(m0, Succeeded(log)), LastRenamed(log), OnDisk(m0, f0, log);
            if last.None? then now == m0 && disk == f0
            else disk == Whole(if last.value.outcome.HardenFailed? then Apply(last.value.mutation, now) else now)
  {
    if log != [] {
      var before, last := log[..|log| - 1], log[|log| - 1];
      assert log == before + [last];
      LogGrows(m0, f0, before, last);
      DiskAgainstFold(m0, f0, before);
    }
  }

  /** With no mutation running, the file reads back as memory exactly when the last mutation
      to rename also hardened the file, or would not change the store anyway; and as long as
      none has renamed, exactly when the file it began with did. A mutation whose chmod failed
      is rolled back in memory only, and stays on disk until the next rename; nothing that
      fails earlier, throws or returns early changes that. */
  lemma IdleFileAgreesIff<S>(m0: S, f0: Content<S>, empty: S, s0: Store<S>, events: seq<Event<S>>)
    requires Opened(m0, f0, s0) && ValidRun(s0, events)
    requires After(s0, events).slot.Idle?
    ensures var s := After(s0, events);
            var last := LastRenamed(s.log);
            Load(s.file, empty) == Some(s.memory) <==>
              if last.None? then Load(f0, empty) == Some(m0)
              else last.value.outcome.HardenFailed? ==> Apply(last.value.mutation, s.memory) == s.memory
  {
    RunKeepsInv(m0, f0, s0, events);
    DiskAgainstFold(m0, f0, After(s0, events).log);
  }

  // ----- The temporary file -----

  lemma {:induction false} AfterLast<S>(s: Store<S>, events: seq<Event<S>>)
    requires events != [] && ValidRun(s, events)
    ensures var n := |events| - 1;
            && ValidRun(s, events[..n]) && Enabled(After(s, events[..n]), events[n])
            && After(s, events) == Step(After(s, events[..n]), events[n])
    decreases |events|
  {
    var n := |events| - 1;
    if n > 0 {
      AfterLast(Step(s, events[0]), events[1..]);
      assert events[1..][..n - 1] == events[..n][1..] && events[1..][n - 1] == events[n];
    }
  }

  /** The event takes the temporary file of the last mutation away, or begins with another. */
  predicate Clears<S>(e: Event<S>) {
    e.Start? || e.Write? || (e.Rename? && e.ok) || (e.Remove? && e.ok)
  }

  /** Something was written at `i` that has neither been renamed nor removed. */
  ghost predicate LeftAt<S>(events: seq<Event<S>>, i: nat) {
    && i < |events| && events[i].Write? && (events[i].ok || events[i].torn)
    && forall j | i < j < |events| :: !Clears(events[j])
  }

  /** There is a temporary file exactly when the last mutation to write one got something on disk
      and has neither renamed nor removed it; so none is left behind unless the `rm` failed. */
  lemma {:induction false} TemporaryIff<S>(m0: S, f0: Content<S>, s0: Store<S>, events: seq<Event<S>>)
    requires Opened(m0, f0, s0) && ValidRun(s0, events)
    ensures After(s0, events).temporary != Missing <==> exists i :: LeftAt(events, i)
  {
    if events != [] {
      var n := |events| - 1;
      var before, last := events[..n], events[n];
      AfterLast(s0, events);
      TemporaryIff(m0, f0, s0, before);
      assert LeftAt(events, n) <==> last.Write? && (last.ok || last.torn);
      forall i | 0 <= i < n ensures LeftAt(events, i) <==> LeftAt(before, i) && !Clears(last) {
        assert forall j | 0 <= j < n :: before[j] == events[j];
      }
    }
  }

  function Setting<S>(next: S): Mutation<S> {
    s => Persists(next)
  }

  function HardenFails<S>(m: Mutation<S>): seq<Event<S>> {
    [Submit(m), Start, Write(true, false), Rename(true), Harden(false), Remove(true), Unwind]
  }

  /** One mutation whose chmod fails: the file is ahead of memory when the queue is idle. */
  lemma HardenFailureLeavesFileAhead<S>(m0: S, next: S, s0: Store<S>)
    requires Opened(m0, Whole(m0), s0)
    ensures ValidRun(s0, HardenFails(Setting(next)))
    ensures var s := After(s0, HardenFails(Setting(next))); s.slot.Idle? && s.memory == m0 && s.file == Whole(next)
  {
  }

  // ----- A property every mutation keeps holds of memory and file throughout -----

  ghost predicate Keeps<S(!new)>(good: S -> bool, m: Mutation<S>) {
    forall s | good(s) ::
      match m(s)
      case Skips => true
      case Throws(dirty) => good(dirty)
      case Persists(next) => good(next)
  }

  ghost predicate AllGood<S(!new)>(good: S -> bool, f0: Content<S>, s: Store<S>) {
    && good(s.memory)
    && (s.file == f0 || (s.file.Whole? && good(s.file.value)))
    && (s.temporary.Whole? ==> good(s.temporary.value))
    && (s.slot.Running? ==> good(s.slot.snapshot) && (s.slot.at.Renaming? ==> s.temporary.Whole?))
    && forall m | m in s.queue :: Keeps(good, m)
  }

  lemma GoodStep<S(!new)>(good: S -> bool, f0: Content<S>, s: Store<S>, e: Event<S>)
    requires AllGood(good, f0, s) && Enabled(s, e)
    requires e.Submit? ==> Keeps(good, e.mutation)
    ensures AllGood(good, f0, Step(s, e))
  {
    if e.Start? {
      assert s.queue[0] in s.queue;
    }
  }

  /** If every submitted mutation keeps `good`, memory is good at every step, and the file
      is the one the run began with or holds a good value. */
  lemma {:induction false} GoodThroughout<S(!new)>(good: S -> bool, f0: Content<S>, s: Store<S>, events: seq<Event<S>>)
    requires AllGood(good, f0, s) && ValidRun(s, events)
    requires forall m | m in Submitted(events) :: Keeps(good, m)
    ensures AllGood(good, f0, After(s, events))
    decreases |events|
  {
    if events != [] {
      if events[0].Submit? {
        assert events[0].mutation in Submitted(events);
      }
      GoodStep(good, f0, s, events[0]);
      assert forall m | m in Submitted(events[1..]) :: m in Submitted(events);
      GoodThroughout(good, f0, Step(s, events[0]), events[1..]);
    }
  }

  /** The store as the source keeps it: fields updated at every resumption. */
  class JsonStore<S> {
    var memory: S
    var file: Content<S>
    var temporary: Content<S>
    var slot: Slot<S>
    var queue: seq<Mutation<S>>
    ghost var log: seq<Entry<S>>

    ghost function State(): Store<S>
      reads this
    {
      Store(memory, file, temporary, slot, queue, log)
    }

    constructor (memory: S, file: Content<S>)
      ensures Opened(memory, file, State())
    {
      this.memory, this.file, this.temporary := memory, file, Missing;
      this.slot, this.queue, this.log := Idle, [], [];
    }

    /** `runMutation`: the callback goes to the end of the promise chain. */
    method Submit(m: Mutation<S>)
      modifies this
      ensures State() == Step(old(State()), Event.Submit(m))
    {
      queue := queue + [m];
    }

    /** The chain reaches the head of the queue: snapshot, then run to the first await. */
    method Start()
      requires Enabled(State(), Event.Start)
      modifies this
      ensures State() == Step(old(State()), Event.Start)
    {
      var m := queue[0];
      queue, temporary := queue[1..], Missing;
      match m(memory)
      case Skips =>
        log := log + [Entry(m, Returned)];
      case Throws(dirty) =>
        slot := Running(m, memory, Unwinding(Threw));
        memory := dirty;
      case Persists(next) =>
        slot := Running(m, memory, Writing);
        memory := next;
    }

    method Write(ok: bool, torn: bool)
      requires Enabled(State(), Event.Write(ok, torn))
      modifies this
      ensures State() == Step(old(State()), Event.Write(ok, torn))
    {
      if ok {
        temporary := Whole(memory);
        slot := slot.(at := Renaming);
      } else {
        temporary := if torn then Torn else Missing;
        slot := slot.(at := Removing(WriteFailed));
      }
    }

    method Rename(ok: bool)
      requires Enabled(State(), Event.Rename(ok))
      modifies this
      ensures State() == Step(old(State()), Event.Rename(ok))
    {
      if ok {
        file, temporary := temporary, Missing;
        slot := slot.(at := Hardening);
      } else {
        slot := slot.(at := Removing(RenameFailed));
      }
    }

    method Harden(ok: bool)
      requires Enabled(State(), Event.Harden(ok))
      modifies this
      ensures State() == Step(old(State()), Event.Harden(ok))
    {
      if ok {
        log := log + [Entry(slot.mutation, Committed)];
        slot := Idle;
      } else {
        slot := slot.(at := Removing(HardenFailed));
      }
    }

    /** The `rm` of the catch block; its own failure is swallowed. */
    method Remove(ok: bool)
      requires Enabled(State(), Event.Remove(ok))
      modifies this
      ensures State() == Step(old(State()), Event.Remove(ok))
    {
      if ok {
        temporary := Missing;
      }
      slot := slot.(at := Unwinding(slot.at.cause));
    }

    /** `runMutation` puts the snapshot back and lets the error out. */
    method Unwind()
      requires Enabled(State(), Event.Unwind)
      modifies this
      ensures State() == Step(old(State()), Event.Unwind)
    {
      memory := slot.snapshot;
      log := log + [Entry(slot.mutation, slot.at.cause)];
      slot := Idle;
    }
  }
}
