/** `AgentRegistrySnapshotCache`: reads that share one load and serve copies of its result until
    it expires. Reads overlap, so one read is several steps: it begins, the load it waits for
    settles, and it resumes.

    Arrays are cells of a heap and are known by their place in it. A loader resolves with an
    array that exists already; `structuredClone` makes a new one. Anyone who holds an array may
    overwrite it at any time. */
module SnapshotCache {
  import opened Wrappers

  type Agents = seq<string>

  /** `agents` is what the array held when the load settled. */
  datatype Status = Running | Loaded(cell: nat, agents: Agents) | Broken

  /** One call of the loader. It is finished when the read that made the call has resumed;
      `made` counts the arrays there were when it settled. */
  datatype Load = Load(started: int, status: Status, made: nat, finished: Option<int>)

  datatype Role = Cached | Leader | Joiner

  /** `agents` is what the array held when it was handed out. */
  datatype Reply = Waiting | Returned(cell: nat, agents: Agents, at: int) | Threw(at: int)

  /** One call of `read`, and the load its answer comes from. */
  datatype Reader = Reader(began: int, role: Role, source: nat, reply: Reply)

  /** The cache's fields, with the load each value came from, and the world around it. */
  datatype State = State(
    clock: int,
    snapshot: Option<nat>,
    expiresAt: int,
    inFlight: Option<nat>,
    loads: seq<Load>,
    readers: seq<Reader>,
    heap: seq<Agents>)

  datatype Action =
    | Read
    | Settle(load: nat, result: Option<nat>)   // none when the load fails
    | Resume(reader: nat)
    | Invalidate
    | Make(agents: Agents)
    | Write(cell: nat, agents: Agents)

  datatype Event = Event(now: int, action: Action)

  const INITIAL := State(0, None, 0, None, [], [], [])

  predicate Enabled(s: State, e: Event) {
    && s.clock <= e.now
    && match e.action
       case Settle(load, result) =>
         load < |s.loads| && s.loads[load].status == Running && (result.Some? ==> result.value < |s.heap|)
       case Resume(k) =>
         k < |s.readers| && s.readers[k].reply.Waiting? && s.readers[k].source < |s.loads|
         && s.loads[s.readers[k].source].status != Running
         && (s.loads[s.readers[k].source].status.Loaded? ==> s.loads[s.readers[k].source].status.cell < |s.heap|)
       case Write(cell, _) => cell < |s.heap|
       case _ => true
  }

  /** A load whose result can be copied now. */
  predicate Servable(s: State, load: nat) {
    load < |s.loads| && s.loads[load].status.Loaded? && s.loads[load].status.cell < |s.heap|
  }

  /** What the array of a load holds now. */
  function Content(s: State, load: nat): Agents
    requires Servable(s, load)
  {
    s.heap[s.loads[load].status.cell]
  }

  /** The reply with a copy of a load's array, which becomes the last cell of the heap. */
  function Copied(s: State, load: nat, now: int): Reply
    requires Servable(s, load)
  {
    Returned(|s.heap|, Content(s, load), now)
  }

  function BeginRead(s: State, now: int): State {
    if s.snapshot.Some? && Servable(s, s.snapshot.value) && now < s.expiresAt then
      s.(readers := s.readers + [Reader(now, Cached, s.snapshot.value, Copied(s, s.snapshot.value, now))],
         heap := s.heap + [Content(s, s.snapshot.value)])
    else if s.inFlight.Some? then
      s.(readers := s.readers + [Reader(now, Joiner, s.inFlight.value, Waiting)])
    else
      s.(inFlight := Some(|s.loads|), loads := s.loads + [Load(now, Running, 0, None)],
         readers := s.readers + [Reader(now, Leader, |s.loads|, Waiting)])
  }

  function SettleLoad(s: State, k: nat, result: Option<nat>): State
    requires k < |s.loads| && (result.Some? ==> result.value < |s.heap|)
  {
    s.(loads := s.loads[k := s.loads[k].(
      status := if result.Some? then Loaded(result.value, s.heap[result.value]) else Broken, made := |s.heap|)])
  }

  function ResumeRead(ttl: nat, s: State, now: int, k: nat): State
    requires Enabled(s, Event(now, Resume(k)))
  {
    var r := s.readers[k];
    var load := s.loads[r.source];
    var ok := load.status.Loaded?;
    var answered := s.(readers := s.readers[k := r.(reply := if ok then Copied(s, r.source, now) else Threw(now))],
                       heap := if ok then s.heap + [Content(s, r.source)] else s.heap);
    if r.role != Leader then answered
    else
      var done := answered.(inFlight := None, loads := s.loads[r.source := load.(finished := Some(now))]);
      if ok then done.(snapshot := Some(r.source), expiresAt := now + ttl) else done
  }

  function Step(ttl: nat, s: State, e: Event): State
    requires Enabled(s, e)
  {
    var t := s.(clock := e.now);
    match e.action
    case Read => BeginRead(t, e.now)
    case Settle(load, result) => SettleLoad(t, load, result)
    case Resume(k) => ResumeRead(ttl, t, e.now, k)
    case Invalidate => t.(snapshot := None, expiresAt := 0)
    case Make(agents) => t.(heap := s.heap + [agents])
    case Write(cell, agents) => t.(heap := s.heap[cell := agents])
  }

  // ----- The cache -----

  class AgentRegistrySnapshotCache {
    const ttlMs: nat
    var snapshot: Option<nat>
    var expiresAt: int
    var inFlight: Option<nat>
    var clock: int
    var loads: seq<Load>
    var readers: seq<Reader>
    var heap: seq<Agents>

    ghost function Now(): State
      reads this
    {
      State(clock, snapshot, expiresAt, inFlight, loads, readers, heap)
    }

    constructor (ttlMs: nat)
      ensures this.ttlMs == ttlMs && Now() == INITIAL
    {
      this.ttlMs := ttlMs;
      clock, snapshot, expiresAt, inFlight, loads, readers, heap := 0, None, 0, None, [], [], [];
    }

    method StructuredClone(cell: nat) returns (copy: nat)
      requires cell < |heap|
      modifies this`heap
      ensures copy == |old(heap)| && heap == old(heap) + [old(heap)[cell]]
    {
      copy := |heap|;
      heap := heap + [heap[cell]];
    }

    /** `read`, up to its answer or its `await`. */
    method Read(now: int)
      requires Inv(ttlMs, Now()) && Enabled(Now(), Event(now, Action.Read))
      modifies this
      ensures Now() == Step(ttlMs, old(Now()), Event(now, Action.Read))
    {
      clock := now;
      if snapshot.Some? && now < expiresAt {
        assert LoadOk(old(Now()), snapshot.value);
        var cell := loads[snapshot.value].status.cell;
        var copy := StructuredClone(cell);
        readers := readers + [Reader(now, Cached, snapshot.value, Returned(copy, heap[copy], now))];
        return;
      }
      if inFlight.Some? {
        readers := readers + [Reader(now, Joiner, inFlight.value, Waiting)];
        return;
      }
      inFlight := Some(|loads|);
      readers := readers + [Reader(now, Leader, |loads|, Waiting)];
      loads := loads + [Load(now, Running, 0, None)];
    }

    /** The read that called the loader, after its `await`, with its `finally`. */
    method LeaderResumes(now: int, k: nat)
      requires Enabled(Now(), Event(now, Resume(k))) && readers[k].role == Leader
      modifies this
      ensures Now() == Step(ttlMs, old(Now()), Event(now, Resume(k)))
    {
      clock := now;
      var r := readers[k];
      var status := loads[r.source].status;
      if status.Loaded? {
        snapshot, expiresAt := Some(r.source), now + ttlMs;
        var copy := StructuredClone(status.cell);
        readers := readers[k := r.(reply := Returned(copy, heap[copy], now))];
      } else {
        readers := readers[k := r.(reply := Threw(now))];
      }
      inFlight := None;
      loads := loads[r.source := loads[r.source].(finished := Some(now))];
    }

    method JoinerResumes(now: int, k: nat)
      requires Enabled(Now(), Event(now, Resume(k))) && readers[k].role == Joiner
      modifies this
      ensures Now() == Step(ttlMs, old(Now()), Event(now, Resume(k)))
    {
      clock := now;
      var r := readers[k];
      var status := loads[r.source].status;
      if status.Loaded? {
        var copy := StructuredClone(status.cell);
        readers := readers[k := r.(reply := Returned(copy, heap[copy], now))];
      } else {
        readers := readers[k := r.(reply := Threw(now))];
      }
    }

    method Invalidate(now: int)
      requires clock <= now
      modifies this
      ensures Now() == Step(ttlMs, old(Now()), Event(now, Action.Invalidate))
    {
      clock := now;
      snapshot, expiresAt := None, 0;
    }
  }

  // ----- Every run -----

  /** A load is running or unfinished only while it is the one in flight. */
  ghost predicate LoadOk(s: State, i: nat)
    requires i < |s.loads|
  {
    var l := s.loads[i];
    && l.started <= s.clock
    && (l.finished.None? <==> s.inFlight == Some(i))
    && (l.status == Running ==> l.finished.None?)
    && (l.finished.Some? ==> l.started <= l.finished.value <= s.clock)
    && (l.status.Loaded? ==> l.status.cell < l.made)
    && l.made <= |s.heap|
  }

  /** The answer of a read: the result of a load that was in flight when the read began, or of
      one that finished less than the lifetime before. */
  ghost predicate ReaderOk(ttl: nat, s: State, r: Reader) {
    && r.source < |s.loads|
    && var l := s.loads[r.source];
       && l.started <= r.began <= s.clock
       && (r.role == Cached ==> l.finished.Some? && l.finished.value <= r.began < l.finished.value + ttl && r.reply.Returned? && r.reply.at == r.began)
       && (r.role != Cached ==> l.finished.Some? ==> r.began <= l.finished.value)
       && (r.reply.Returned? ==> l.status.Loaded? && l.made <= r.reply.cell < |s.heap|)
       && (r.reply.Threw? ==> l.status == Broken)
       && (r.role == Leader && r.reply.Waiting? ==> l.finished.None?)
  }

  ghost predicate SnapshotOk(ttl: nat, s: State) {
    s.snapshot.Some? ==>
      && s.snapshot.value < |s.loads|
      && var l := s.loads[s.snapshot.value];
         l.status.Loaded? && l.finished.Some? && s.expiresAt == l.finished.value + ttl
  }

  ghost predicate Inv(ttl: nat, s: State) {
    && (s.inFlight.Some? ==> s.inFlight.value == |s.loads| - 1)
    && (forall i | 0 <= i < |s.loads| :: LoadOk(s, i))
    && (forall k | 0 <= k < |s.readers| :: ReaderOk(ttl, s, s.readers[k]))
    && SnapshotOk(ttl, s)
    && (forall j, k | 0 <= j < k < |s.readers| :: Apart(s.readers[j], s.readers[k]))
  }

  /** A load has one leader, and an array is handed out once. */
  predicate Apart(a: Reader, b: Reader) {
    && (a.role == Leader && b.role == Leader ==> a.source != b.source)
    && (a.reply.Returned? && b.reply.Returned? ==> a.reply.cell != b.reply.cell)
  }

  lemma ReadKeeps(ttl: nat, s: State, now: int)
    requires Inv(ttl, s) && s.clock <= now
    ensures Inv(ttl, Step(ttl, s, Event(now, Read)))
  {
    var t := Step(ttl, s, Event(now, Read));
    forall i | 0 <= i < |t.loads| ensures LoadOk(t, i) {
      if i < |s.loads| {
        assert LoadOk(s, i);
      }
    }
    forall k | 0 <= k < |t.readers| ensures ReaderOk(ttl, t, t.readers[k]) {
      if k < |s.readers| {
        assert ReaderOk(ttl, s, s.readers[k]);
      } else {
        assert LoadOk(t, t.readers[k].source);
        assert t.readers[k].role == Cached ==> LoadOk(s, t.readers[k].source);
      }
    }
    forall j, k | 0 <= j < k < |t.readers| ensures Apart(t.readers[j], t.readers[k]) {
      assert ReaderOk(ttl, s, s.readers[j]);
      if k < |s.readers| {
        assert Apart(s.readers[j], s.readers[k]);
      }
    }
  }

  lemma SettleKeeps(ttl: nat, s: State, e: Event)
    requires Inv(ttl, s) && Enabled(s, e) && e.action.Settle?
    ensures Inv(ttl, Step(ttl, s, e))
  {
    var t := Step(ttl, s, e);
    forall i | 0 <= i < |t.loads| ensures LoadOk(t, i) {
      assert LoadOk(s, i);
    }
    forall k | 0 <= k < |t.readers| ensures ReaderOk(ttl, t, t.readers[k]) {
      assert ReaderOk(ttl, s, s.readers[k]);
    }
  }

  lemma ResumeKeeps(ttl: nat, s: State, e: Event)
    requires Inv(ttl, s) && Enabled(s, e) && e.action.Resume?
    ensures Inv(ttl, Step(ttl, s, e))
  {
    var t := Step(ttl, s, e);
    var r := s.readers[e.action.reader];
    assert ReaderOk(ttl, s, r) && LoadOk(s, r.source);
    forall i | 0 <= i < |t.loads| ensures LoadOk(t, i) {
      assert LoadOk(s, i);
    }
    forall k | 0 <= k < |t.readers| ensures ReaderOk(ttl, t, t.readers[k]) {
      assert ReaderOk(ttl, s, s.readers[k]) && LoadOk(s, s.readers[k].source);
      assert k < e.action.reader ==> Apart(s.readers[k], r);
      assert k > e.action.reader ==> Apart(r, s.readers[k]);
    }
    forall j, k | 0 <= j < k < |t.readers| ensures Apart(t.readers[j], t.readers[k]) {
      assert Apart(s.readers[j], s.readers[k]);
    }
  }

  lemma StepKeeps(ttl: nat, s: State, e: Event)
    requires Inv(ttl, s) && Enabled(s, e)
    ensures Inv(ttl, Step(ttl, s, e))
  {
    match e.action
    case Read => ReadKeeps(ttl, s, e.now);
    case Settle(_, _) => SettleKeeps(ttl, s, e);
    case Resume(_) => ResumeKeeps(ttl, s, e);
    case _ =>
      var t := Step(ttl, s, e);
      assert forall i | 0 <= i < |t.loads| :: LoadOk(s, i) ==> LoadOk(t, i);
      assert forall k | 0 <= k < |t.readers| :: ReaderOk(ttl, s, s.readers[k]) ==> ReaderOk(ttl, t, t.readers[k]);
  }

  predicate ValidRun(ttl: nat, s: State, events: seq<Event>)
    decreases |events|
  {
    events == [] || (Enabled(s, events[0]) && ValidRun(ttl, Step(ttl, s, events[0]), events[1..]))
  }

  function After(ttl: nat, s: State, events: seq<Event>): State
    requires ValidRun(ttl, s, events)
    decreases |events|
  {
    if events == [] then s else After(ttl, Step(ttl, s, events[0]), events[1..])
  }

  lemma {:induction false} RunKeeps(ttl: nat, s: State, events: seq<Event>)
    requires Inv(ttl, s) && ValidRun(ttl, s, events)
    ensures Inv(ttl, After(ttl, s, events))
    decreases |events|
  {
    if events != [] {
      StepKeeps(ttl, s, events[0]);
      RunKeeps(ttl, Step(ttl, s, events[0]), events[1..]);
    }
  }

  /** At most one load is outstanding, and every value returned comes from a load that was in
      flight when the read began or that finished less than `ttl` before; a failed load is
      never served. */
  lemma ReadsAreFresh(ttl: nat, events: seq<Event>)
    requires ValidRun(ttl, INITIAL, events)
    ensures var s := After(ttl, INITIAL, events);
            && (forall i, j | 0 <= i < |s.loads| && 0 <= j < |s.loads| ::
                  s.loads[i].status == Running && s.loads[j].status == Running ==> i == j)
            && forall k | 0 <= k < |s.readers| && s.readers[k].reply.Returned? ::
                 && s.readers[k].source < |s.loads|
                 && var r, l := s.readers[k], s.loads[s.readers[k].source];
                    && l.status.Loaded?
                    && l.started <= r.began
                    && (l.finished.Some? ==> r.began < l.finished.value + ttl || r.began <= l.finished.value)
  {
    RunKeeps(ttl, INITIAL, events);
    var s := After(ttl, INITIAL, events);
    forall i, j | 0 <= i < |s.loads| && 0 <= j < |s.loads| && s.loads[i].status == Running && s.loads[j].status == Running
      ensures i == j
    {
      assert LoadOk(s, i) && LoadOk(s, j);
    }
    forall k | 0 <= k < |s.readers| && s.readers[k].reply.Returned?
      ensures ReaderOk(ttl, s, s.readers[k])
    {
    }
  }

  // ----- Private copies -----

  /** No two reads are handed one array, and a read is never handed the array of the load it is
      answered from, nor that of any load that has settled by then. Its array can be a load's
      only if a loader later resolves with the very array that was handed out. */
  lemma CopiesArePrivate(ttl: nat, events: seq<Event>, k: nat)
    requires ValidRun(ttl, INITIAL, events)
    requires k < |After(ttl, INITIAL, events).readers| && After(ttl, INITIAL, events).readers[k].reply.Returned?
    ensures var s := After(ttl, INITIAL, events);
            var cell := s.readers[k].reply.cell;
            && (forall j | 0 <= j < |s.readers| && j != k && s.readers[j].reply.Returned? :: s.readers[j].reply.cell != cell)
            && (forall i | 0 <= i < |s.loads| && s.loads[i].status.Loaded? && s.loads[i].status.cell == cell ::
                  cell < s.loads[i].made && i != s.readers[k].source)
  {
    RunKeeps(ttl, INITIAL, events);
    var s := After(ttl, INITIAL, events);
    assert ReaderOk(ttl, s, s.readers[k]);
    forall j | 0 <= j < |s.readers| && j != k && s.readers[j].reply.Returned?
      ensures s.readers[j].reply.cell != s.readers[k].reply.cell
    {
      assert if j < k then Apart(s.readers[j], s.readers[k]) else Apart(s.readers[k], s.readers[j]);
    }
    forall i | 0 <= i < |s.loads| && s.loads[i].status.Loaded? && s.loads[i].status.cell == s.readers[k].reply.cell
      ensures s.readers[k].reply.cell < s.loads[i].made && i != s.readers[k].source
    {
      assert LoadOk(s, i);
    }
  }

  /** The write, if it is one, spares the arrays of loads. */
  ghost predicate Spares(s: State, e: Event) {
    e.action.Write? ==> forall i | 0 <= i < |s.loads| && s.loads[i].status.Loaded? :: s.loads[i].status.cell != e.action.cell
  }

  /** No write of the run hits an array that some load has resolved with. */
  ghost predicate LoadedUntouched(ttl: nat, s: State, events: seq<Event>)
    requires ValidRun(ttl, s, events)
    decreases |events|
  {
    events == [] ||
    (&& Spares(s, events[0])
     && LoadedUntouched(ttl, Step(ttl, s, events[0]), events[1..]))
  }

  /** The array of a load holds what was loaded. */
  ghost predicate LoadIntact(s: State, i: nat)
    requires i < |s.loads|
  {
    s.loads[i].status.Loaded? ==> Servable(s, i) && Content(s, i) == s.loads[i].status.agents
  }

  /** The answer was a copy of what was loaded. */
  ghost predicate ReplyIntact(s: State, r: Reader) {
    r.reply.Returned? ==>
      r.source < |s.loads| && s.loads[r.source].status.Loaded? && r.reply.agents == s.loads[r.source].status.agents
  }

  ghost predicate Intact(s: State) {
    && (forall i | 0 <= i < |s.loads| :: LoadIntact(s, i))
    && (forall k | 0 <= k < |s.readers| :: ReplyIntact(s, s.readers[k]))
  }

  lemma LoadsIntact(ttl: nat, s: State, e: Event)
    requires Inv(ttl, s) && Intact(s) && Enabled(s, e) && Spares(s, e)
    ensures forall i | 0 <= i < |Step(ttl, s, e).loads| :: LoadIntact(Step(ttl, s, e), i)
  {
    var t := Step(ttl, s, e);
    forall i | 0 <= i < |t.loads| ensures LoadIntact(t, i) {
      if i < |s.loads| {
        assert LoadIntact(s, i) && LoadOk(s, i);
      }
    }
  }

  lemma RepliesIntact(ttl: nat, s: State, e: Event)
    requires Inv(ttl, s) && Intact(s) && Enabled(s, e)
    ensures forall k | 0 <= k < |Step(ttl, s, e).readers| :: ReplyIntact(Step(ttl, s, e), Step(ttl, s, e).readers[k])
  {
    var t := Step(ttl, s, e);
    forall k | 0 <= k < |t.readers| ensures ReplyIntact(t, t.readers[k]) {
      if k < |s.readers| {
        assert ReplyIntact(s, s.readers[k]) && ReaderOk(ttl, s, s.readers[k]);
        assert LoadIntact(s, s.readers[k].source);
      } else if t.readers[k].role == Cached {
        assert LoadIntact(s, t.readers[k].source);
      }
    }
  }

  lemma StepIntact(ttl: nat, s: State, e: Event)
    requires Inv(ttl, s) && Intact(s) && Enabled(s, e) && Spares(s, e)
    ensures Intact(Step(ttl, s, e))
  {
    LoadsIntact(ttl, s, e);
    RepliesIntact(ttl, s, e);
  }

  lemma {:induction false} RunIntact(ttl: nat, s: State, events: seq<Event>)
    requires Inv(ttl, s) && Intact(s) && ValidRun(ttl, s, events) && LoadedUntouched(ttl, s, events)
    ensures Intact(After(ttl, s, events))
    decreases |events|
  {
    if events != [] {
      StepKeeps(ttl, s, events[0]);
      StepIntact(ttl, s, events[0]);
      RunIntact(ttl, Step(ttl, s, events[0]), events[1..]);
    }
  }

  /** Readers may overwrite what they were handed as they like: as long as no write hits an
      array a load resolved with, every answer is exactly what its load resolved to. */
  lemma AnswersAreLoaded(ttl: nat, events: seq<Event>, k: nat)
    requires ValidRun(ttl, INITIAL, events) && LoadedUntouched(ttl, INITIAL, events)
    requires k < |After(ttl, INITIAL, events).readers| && After(ttl, INITIAL, events).readers[k].reply.Returned?
    ensures var s := After(ttl, INITIAL, events);
            && s.readers[k].source < |s.loads|
            && s.loads[s.readers[k].source].status.Loaded?
            && s.readers[k].reply.agents == s.loads[s.readers[k].source].status.agents
  {
    RunIntact(ttl, INITIAL, events);
    assert ReplyIntact(After(ttl, INITIAL, events), After(ttl, INITIAL, events).readers[k]);
  }

  ghost predicate Handed(s: State, cell: nat) {
    exists k :: 0 <= k < |s.readers| && s.readers[k].reply.Returned? && s.readers[k].reply.cell == cell
  }

  /** Only arrays that reads were handed are overwritten, and loaders do not pass those off as
      their own. */
  ghost predicate ReadersWrite(ttl: nat, s: State, events: seq<Event>)
    requires ValidRun(ttl, s, events)
    decreases |events|
  {
    events == [] ||
    (&& (events[0].action.Write? ==> Handed(s, events[0].action.cell))
     && (events[0].action.Settle? && events[0].action.result.Some? ==> !Handed(s, events[0].action.result.value))
     && ReadersWrite(ttl, Step(ttl, s, events[0]), events[1..]))
  }

  ghost predicate HandedApart(s: State) {
    forall i | 0 <= i < |s.loads| && s.loads[i].status.Loaded? :: !Handed(s, s.loads[i].status.cell)
  }

  lemma StepHandedApart(ttl: nat, s: State, e: Event)
    requires Inv(ttl, s) && HandedApart(s) && Enabled(s, e)
    requires e.action.Settle? && e.action.result.Some? ==> !Handed(s, e.action.result.value)
    ensures HandedApart(Step(ttl, s, e))
  {
    var t := Step(ttl, s, e);
    forall i | 0 <= i < |t.loads| && t.loads[i].status.Loaded? ensures !Handed(t, t.loads[i].status.cell) {
      assert i < |s.loads| && LoadOk(s, i);
      forall k | 0 <= k < |t.readers| && t.readers[k].reply.Returned?
        ensures t.readers[k].reply.cell != t.loads[i].status.cell
      {
        if k < |s.readers| && s.readers[k].reply.Returned? {
          assert Handed(s, s.readers[k].reply.cell);
        }
      }
    }
  }

  lemma {:induction false} ReadersTouchNothing(ttl: nat, s: State, events: seq<Event>)
    requires Inv(ttl, s) && HandedApart(s) && ValidRun(ttl, s, events) && ReadersWrite(ttl, s, events)
    ensures LoadedUntouched(ttl, s, events)
    decreases |events|
  {
    if events != [] {
      StepKeeps(ttl, s, events[0]);
      StepHandedApart(ttl, s, events[0]);
      ReadersTouchNothing(ttl, Step(ttl, s, events[0]), events[1..]);
    }
  }

  /** What readers do to the arrays they were handed never shows in a later answer. */
  lemma ReadersCannotReachCache(ttl: nat, events: seq<Event>, k: nat)
    requires ValidRun(ttl, INITIAL, events) && ReadersWrite(ttl, INITIAL, events)
    requires k < |After(ttl, INITIAL, events).readers| && After(ttl, INITIAL, events).readers[k].reply.Returned?
    ensures var s := After(ttl, INITIAL, events);
            && s.readers[k].source < |s.loads|
            && s.loads[s.readers[k].source].status.Loaded?
            && s.readers[k].reply.agents == s.loads[s.readers[k].source].status.agents
  {
    ReadersTouchNothing(ttl, INITIAL, events);
    AnswersAreLoaded(ttl, events, k);
  }

  /** The cache itself can be changed exactly through the array the loader resolved with, which
      is kept uncopied: a write changes what the next read from a live snapshot is handed if and
      only if it hits the snapshot's own array with something else. No array a read was handed is that array,
      unless the loader resolved with it after it was handed out. */
  lemma WriteReachesCacheIff(ttl: nat, events: seq<Event>, cell: nat, agents: Agents, now: int)
    requires ValidRun(ttl, INITIAL, events)
    requires var s := After(ttl, INITIAL, events);
             Enabled(s, Event(now, Write(cell, agents))) && s.snapshot.Some? && now < s.expiresAt
    ensures var s := After(ttl, INITIAL, events);
            var before := Step(ttl, s, Event(now, Read));
            var after := Step(ttl, Step(ttl, s, Event(now, Write(cell, agents))), Event(now, Read));
            var n := |s.readers|;
            && n < |before.readers| && before.readers[n].reply.Returned?
            && n < |after.readers| && after.readers[n].reply.Returned?
            && s.snapshot.value < |s.loads| && s.loads[s.snapshot.value].status.Loaded?
            && (after.readers[n].reply.agents != before.readers[n].reply.agents <==>
                  cell == s.loads[s.snapshot.value].status.cell && agents != s.heap[cell])
  {
    RunKeeps(ttl, INITIAL, events);
    var s := After(ttl, INITIAL, events);
    assert LoadOk(s, s.snapshot.value);
  }

  /** Likewise between a load's settling and a reader's resuming: a write changes what the
      waiting reader is handed if and only if it hits the load's own array with something else. */
  lemma WriteReachesWaitingIff(ttl: nat, events: seq<Event>, k: nat, cell: nat, agents: Agents, now: int)
    requires ValidRun(ttl, INITIAL, events)
    requires var s := After(ttl, INITIAL, events);
             Enabled(s, Event(now, Write(cell, agents))) && Enabled(s, Event(now, Resume(k)))
             && s.loads[s.readers[k].source].status.Loaded?
    ensures var s := After(ttl, INITIAL, events);
            var written := Step(ttl, s, Event(now, Write(cell, agents)));
            Enabled(written, Event(now, Resume(k))) &&
            var before := Step(ttl, s, Event(now, Resume(k))).readers[k].reply;
            var after := Step(ttl, written, Event(now, Resume(k))).readers[k].reply;
            && before.Returned? && after.Returned?
            && (after.agents != before.agents <==>
                  cell == s.loads[s.readers[k].source].status.cell && agents != s.heap[cell])
  {
  }

  // ----- Invalidation -----

  /** Everything a read could be served from now on was loaded by load `n` or a later one. */
  ghost predicate Since(s: State, n: nat) {
    && n <= |s.loads|
    && (s.snapshot.Some? ==> s.snapshot.value >= n)
    && (s.inFlight.Some? ==> s.inFlight.value >= n)
    && forall k | 0 <= k < |s.readers| :: Leads(s.readers[k]) ==> s.readers[k].source >= n
  }

  predicate Leads(r: Reader) {
    r.role == Leader && r.reply.Waiting?
  }

  /** The reads from the `first` on are answered by load `n` or a later one. */
  ghost predicate ServedSince(s: State, first: nat, n: nat) {
    forall k | first <= k < |s.readers| :: s.readers[k].source >= n
  }

  lemma StepSince(ttl: nat, s: State, e: Event, first: nat, n: nat)
    requires Inv(ttl, s) && Enabled(s, e) && Since(s, n) && ServedSince(s, first, n)
    ensures Since(Step(ttl, s, e), n) && ServedSince(Step(ttl, s, e), first, n)
  {
  }

  lemma {:induction false} SinceKept(ttl: nat, s: State, events: seq<Event>, first: nat, n: nat)
    requires Inv(ttl, s) && ValidRun(ttl, s, events) && Since(s, n) && ServedSince(s, first, n)
    ensures ServedSince(After(ttl, s, events), first, n)
    decreases |events|
  {
    if events != [] {
      var t := Step(ttl, s, events[0]);
      StepKeeps(ttl, s, events[0]);
      StepSince(ttl, s, events[0], first, n);
      SinceKept(ttl, t, events[1..], first, n);
    }
  }

  /** After `invalidate`, no later read gets a result whose load began before it, exactly when
      no load was in flight: a load in flight then is joined by the next read and overwrites
      the invalidation when it finishes. */
  lemma InvalidateHoldsIff(ttl: nat, events: seq<Event>, now: int)
    requires ValidRun(ttl, INITIAL, events) && After(ttl, INITIAL, events).clock <= now
    ensures var s := After(ttl, INITIAL, events);
            var cleared := Step(ttl, s, Event(now, Invalidate));
            (forall later | ValidRun(ttl, cleared, later) :: ServedSince(After(ttl, cleared, later), |s.readers|, |s.loads|))
              <==> s.inFlight.None?
  {
    RunKeeps(ttl, INITIAL, events);
    var s := After(ttl, INITIAL, events);
    var cleared := Step(ttl, s, Event(now, Invalidate));
    StepKeeps(ttl, s, Event(now, Invalidate));
    if s.inFlight.None? {
      forall later | ValidRun(ttl, cleared, later) ensures ServedSince(After(ttl, cleared, later), |s.readers|, |s.loads|) {
        forall k | 0 <= k < |s.readers| ensures !Leads(s.readers[k]) {
          assert ReaderOk(ttl, s, s.readers[k]) && LoadOk(s, s.readers[k].source);
        }
        SinceKept(ttl, cleared, later, |s.readers|, |s.loads|);
      }
    } else {
      var later := [Event(now, Read)];
      assert later[1..] == [];
      var joined := Step(ttl, cleared, later[0]);
      assert After(ttl, cleared, later) == joined;
      assert joined.readers[|s.readers|].source == s.inFlight.value;
    }
  }

  // ----- How often the loader is called -----

  /** A load that succeeded holds off the next one for the whole lifetime. */
  ghost predicate Spaced(ttl: nat, s: State) {
    && (forall i, j | 0 <= i < j < |s.loads| :: HeldOff(ttl, s, i, s.loads[j].started))
    && (forall i | 0 <= i < |s.loads| :: HeldOff(ttl, s, i, s.expiresAt))
    && (s.expiresAt > 0 ==> s.snapshot.Some?)
  }

  ghost predicate HeldOff(ttl: nat, s: State, i: nat, time: int)
    requires i < |s.loads|
  {
    s.loads[i].status.Loaded? && s.loads[i].finished.Some? ==> s.loads[i].finished.value + ttl <= time
  }

  lemma StepSpaced(ttl: nat, s: State, e: Event)
    requires Inv(ttl, s) && Enabled(s, e) && Spaced(ttl, s) && e.action != Invalidate && 0 <= s.clock
    ensures Spaced(ttl, Step(ttl, s, e))
  {
    var t := Step(ttl, s, e);
    if s.snapshot.Some? {
      assert LoadOk(s, s.snapshot.value);
      assert Servable(s, s.snapshot.value);
    }
    forall i | 0 <= i < |t.loads| ensures HeldOff(ttl, t, i, t.expiresAt) {
      if i < |s.loads| {
        assert HeldOff(ttl, s, i, s.expiresAt) && LoadOk(s, i);
      }
    }
    forall i, j | 0 <= i < j < |t.loads| ensures HeldOff(ttl, t, i, t.loads[j].started) {
      assert LoadOk(s, i);
      assert HeldOff(ttl, s, i, s.expiresAt);
      if j < |s.loads| {
        assert HeldOff(ttl, s, i, s.loads[j].started) && LoadOk(s, j);
      }
    }
  }

  lemma {:induction false} RunSpaced(ttl: nat, s: State, events: seq<Event>)
    requires Inv(ttl, s) && Spaced(ttl, s) && 0 <= s.clock && ValidRun(ttl, s, events)
    requires forall i | 0 <= i < |events| :: events[i].action != Invalidate
    ensures Spaced(ttl, After(ttl, s, events))
    decreases |events|
  {
    if events != [] {
      StepKeeps(ttl, s, events[0]);
      StepSpaced(ttl, s, events[0]);
      RunSpaced(ttl, Step(ttl, s, events[0]), events[1..]);
    }
  }

  /** Without invalidation, a load after one that succeeded starts at least `ttl` after that one
      finished. */
  lemma LoadsAreSpaced(ttl: nat, events: seq<Event>)
    requires ValidRun(ttl, INITIAL, events)
    requires forall i | 0 <= i < |events| :: events[i].action != Invalidate
    ensures var loads := After(ttl, INITIAL, events).loads;
            forall i, j | 0 <= i < j < |loads| && loads[i].status.Loaded? && loads[i].finished.Some? ::
              loads[i].finished.value + ttl <= loads[j].started
  {
    RunSpaced(ttl, INITIAL, events);
    var s := After(ttl, INITIAL, events);
    forall i, j | 0 <= i < j < |s.loads| && s.loads[i].status.Loaded? && s.loads[i].finished.Some?
      ensures s.loads[i].finished.value + ttl <= s.loads[j].started
    {
      assert HeldOff(ttl, s, i, s.loads[j].started);
    }
  }
}
