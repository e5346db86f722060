/** `createMutationSerializer` as it is written: a chain of promises, each waiting for the one
    before, and why that is the queue of `PrivateJsonStore`.

    A promise made by `then` waits for its parent. When the parent has settled, a reaction runs
    the handler for the way it settled: an operation, which settles the promise when it ends;
    a function that returns nothing, which fulfils it; or, where no handler was given, the
    promise settles as its parent did. Reactions may run at any later time and in any order. */
module PromiseChain {
  import Q = PrivateJsonStore

  datatype Handler<T> = Absent | Nothing | Run(op: T)

  datatype Status<T> = Pending | Running(op: T) | Fulfilled | Rejected {
    predicate Settled() { Fulfilled? || Rejected? }
  }

  datatype Promise<T> = Promise(status: Status<T>, parent: nat, onFulfilled: Handler<T>, onRejected: Handler<T>)

  /** The promises made so far, the closure's variable `pending`, and what has happened. */
  datatype Chain<T> = Chain(
    promises: seq<Promise<T>>,
    pending: nat,
    submitted: seq<T>,
    started: seq<T>,
    finished: seq<T>)

  datatype Event<T> = Submit(op: T) | React(promise: nat) | Settle(promise: nat, ok: bool)

  function Fresh<T>(): Chain<T> {
    Chain([Promise(Fulfilled, 0, Absent, Absent)], 0, [], [], [])
  }

  /** `promises[parent].then(f, r)`; the new promise is the last one. */
  function Then<T>(c: Chain<T>, parent: nat, f: Handler<T>, r: Handler<T>): Chain<T> {
    c.(promises := c.promises + [Promise(Pending, parent, f, r)])
  }

  /** The serialiser's two lines. */
  function Submitted<T>(c: Chain<T>, op: T): Chain<T> {
    var result := |c.promises|;
    var c1 := Then(c, c.pending, Run(op), Run(op));
    var c2 := Then(c1, result, Nothing, Nothing);
    c2.(pending := result + 1, submitted := c.submitted + [op])
  }

  predicate Enabled<T>(c: Chain<T>, e: Event<T>) {
    match e
    case Submit(_) => true
    case React(k) =>
      k < |c.promises| && c.promises[k].status.Pending?
      && c.promises[k].parent < |c.promises| && c.promises[c.promises[k].parent].status.Settled()
    case Settle(k, _) => k < |c.promises| && c.promises[k].status.Running?
  }

  /** The handler a reaction runs. */
  function Chosen<T>(c: Chain<T>, k: nat): Handler<T>
    requires Enabled(c, React(k))
  {
    if c.promises[c.promises[k].parent].status.Fulfilled? then c.promises[k].onFulfilled else c.promises[k].onRejected
  }

  function With<T>(c: Chain<T>, k: nat, status: Status<T>): Chain<T>
    requires k < |c.promises|
  {
    c.(promises := c.promises[k := c.promises[k].(status := status)])
  }

  function Step<T>(c: Chain<T>, e: Event<T>): Chain<T>
    requires Enabled(c, e)
  {
    match e
    case Submit(op) => Submitted(c, op)
    case React(k) =>
      var h := Chosen(c, k);
      if h.Run? then With(c, k, Running(h.op)).(started := c.started + [h.op])
      else With(c, k, if h.Nothing? then Fulfilled else c.promises[c.promises[k].parent].status)
    case Settle(k, ok) =>
      With(c, k, if ok then Fulfilled else Rejected).(finished := c.finished + [c.promises[k].status.op])
  }

  // ----- The serialiser -----

  class MutationSerializer<T> {
    var promises: seq<Promise<T>>
    var pending: nat
    ghost var submitted: seq<T>
    ghost var started: seq<T>
    ghost var finished: seq<T>

    ghost function Now(): Chain<T>
      reads this
    {
      Chain(promises, pending, submitted, started, finished)
    }

    constructor ()
      ensures Now() == Fresh()
    {
      promises, pending := [Promise(Fulfilled, 0, Absent, Absent)], 0;
      submitted, started, finished := [], [], [];
    }

    method AddThen(parent: nat, f: Handler<T>, r: Handler<T>) returns (promise: nat)
      modifies this`promises
      ensures Now() == Then(old(Now()), parent, f, r) && promise == |old(promises)|
    {
      promise := |promises|;
      promises := promises + [Promise(Pending, parent, f, r)];
    }

    method Serialize(op: T) returns (result: nat)
      modifies this
      ensures Now() == Step(old(Now()), Submit(op)) && result == |old(promises)|
    {
      result := AddThen(pending, Run(op), Run(op));
      pending := AddThen(result, Nothing, Nothing);
      submitted := submitted + [op];
    }
  }

  // ----- Every run -----

  /** Operation `i` has promises `2i + 1`, its result, and `2i + 2`, which swallows the outcome. */
  ghost predicate Linked<T>(c: Chain<T>, i: nat)
    requires i < |c.submitted| && |c.promises| == 2 * |c.submitted| + 1
  {
    var result, next := c.promises[2 * i + 1], c.promises[2 * i + 2];
    && result.parent == 2 * i && result.onFulfilled == Run(c.submitted[i]) && result.onRejected == Run(c.submitted[i])
    && next.parent == 2 * i + 1 && next.onFulfilled == Nothing && next.onRejected == Nothing
    && (next.status.Pending? || next.status.Fulfilled?)
    && (result.status.Running? ==> result.status.op == c.submitted[i])
    && (!result.status.Pending? <==> i < |c.started|)
    && (result.status.Settled() <==> i < |c.finished|)
    && (!next.status.Pending? ==> i < |c.finished|)
  }

  /** An operation starts only after the one before has been swallowed. */
  ghost predicate Released<T>(c: Chain<T>, i: nat)
    requires i < |c.submitted| && |c.promises| == 2 * |c.submitted| + 1
  {
    i > 0 && i < |c.started| ==> !c.promises[2 * i].status.Pending?
  }

  ghost predicate Inv<T>(c: Chain<T>) {
    && |c.promises| == 2 * |c.submitted| + 1 && c.pending == 2 * |c.submitted|
    && c.promises[0].status == Fulfilled
    && c.started <= c.submitted && c.finished <= c.started
    && (forall i | 0 <= i < |c.submitted| :: Linked(c, i) && Released(c, i))
  }

  /** At most one operation has started and not ended. */
  lemma OneRunning<T>(c: Chain<T>)
    requires Inv(c)
    ensures |c.started| <= |c.finished| + 1
  {
    var i := |c.started| - 1;
    if i > 0 {
      assert Released(c, i) && Linked(c, i - 1);
    }
  }

  lemma SubmitKeeps<T>(c: Chain<T>, op: T)
    requires Inv(c)
    ensures Inv(Step(c, Submit(op)))
  {
    var c' := Step(c, Submit(op));
    forall i | 0 <= i < |c'.submitted| ensures Linked(c', i) && Released(c', i) {
      if i < |c.submitted| {
        assert Linked(c, i) && Released(c, i);
      }
    }
  }

  /** A promise that is waiting is the result of some operation or the one after it. */
  lemma Which<T>(c: Chain<T>, k: nat) returns (i: nat)
    requires Inv(c) && k < |c.promises| && !c.promises[k].status.Settled()
    ensures i < |c.submitted| && (k == 2 * i + 1 || k == 2 * i + 2)
  {
    i := (k - 1) / 2;
    assert k > 0;
  }

  lemma ReactKeeps<T>(c: Chain<T>, k: nat)
    requires Inv(c) && Enabled(c, React(k))
    ensures Inv(Step(c, React(k)))
    ensures Chosen(c, k).Run? ==> |c.started| < |c.submitted| && Chosen(c, k).op == c.submitted[|c.started|] && |c.finished| == |c.started|
  {
    var i := Which(c, k);
    assert Linked(c, i) && Released(c, i);
    OneRunning(c);
    assert i > 0 ==> Linked(c, i - 1);
    var c' := Step(c, React(k));
    forall j | 0 <= j < |c'.submitted| ensures Linked(c', j) && Released(c', j) {
      assert Linked(c, j) && Released(c, j);
    }
  }

  lemma SettleKeeps<T>(c: Chain<T>, k: nat, ok: bool)
    requires Inv(c) && Enabled(c, Settle(k, ok))
    ensures Inv(Step(c, Settle(k, ok)))
    ensures |c.started| == |c.finished| + 1 && k == 2 * |c.finished| + 1
  {
    var i := Which(c, k);
    assert Linked(c, i) && Released(c, i);
    OneRunning(c);
    assert i == |c.finished|;
    var c' := Step(c, Settle(k, ok));
    assert c'.finished == c.submitted[..i + 1];
    forall j | 0 <= j < |c'.submitted| ensures Linked(c', j) && Released(c', j) {
      assert Linked(c, j) && Released(c, j);
    }
  }

  lemma StepKeeps<T>(c: Chain<T>, e: Event<T>)
    requires Inv(c) && Enabled(c, e)
    ensures Inv(Step(c, e))
  {
    match e
    case Submit(op) => SubmitKeeps(c, op);
    case React(k) => ReactKeeps(c, k);
    case Settle(k, ok) => SettleKeeps(c, k, ok);
  }

  predicate ValidRun<T>(c: Chain<T>, events: seq<Event<T>>)
    decreases |events|
  {
    events == [] || (Enabled(c, events[0]) && ValidRun(Step(c, events[0]), events[1..]))
  }

  function After<T>(c: Chain<T>, events: seq<Event<T>>): Chain<T>
    requires ValidRun(c, events)
    decreases |events|
  {
    if events == [] then c else After(Step(c, events[0]), events[1..])
  }

  function OpOf<T>(e: Event<T>): seq<T> {
    if e.Submit? then [e.op] else []
  }

  function Ops<T>(events: seq<Event<T>>): seq<T> {
    if events == [] then [] else OpOf(events[0]) + Ops(events[1..])
  }

  lemma Assoc<T>(a: seq<T>, b: seq<T>, c: seq<T>)
    ensures a + b + c == a + (b + c)
  {
  }

  lemma {:induction false} RunKeeps<T>(c: Chain<T>, events: seq<Event<T>>)
    requires Inv(c) && ValidRun(c, events)
    ensures Inv(After(c, events)) && After(c, events).submitted == c.submitted + Ops(events)
    decreases |events|
  {
    if events != [] {
      StepKeeps(c, events[0]);
      RunKeeps(Step(c, events[0]), events[1..]);
      Assoc(c.submitted, OpOf(events[0]), Ops(events[1..]));
      assert Step(c, events[0]).submitted == c.submitted + OpOf(events[0]);
    }
  }

  /** The serialiser's promise, of the promises themselves: whatever order reactions run in and
      however operations end, at most one runs at a time, and they start and end in the order
      in which they were handed over. */
  lemma OneAtATimeInOrder<T>(events: seq<Event<T>>)
    requires ValidRun(Fresh(), events)
    ensures var c := After(Fresh(), events);
            && (forall p, q | 0 <= p < |c.promises| && 0 <= q < |c.promises| ::
                  c.promises[p].status.Running? && c.promises[q].status.Running? ==> p == q)
            && c.started <= Ops(events) && c.finished <= c.started && |c.started| <= |c.finished| + 1
  {
    assert Inv(Fresh<T>());
    RunKeeps(Fresh(), events);
    var c := After(Fresh(), events);
    assert [] + Ops(events) == Ops(events);
    OneRunning(c);
    forall p, q | 0 <= p < |c.promises| && 0 <= q < |c.promises| && c.promises[p].status.Running? && c.promises[q].status.Running?
      ensures p == q
    {
      SettleKeeps(c, p, true);
      SettleKeeps(c, q, true);
    }
  }

  // ----- Nothing blocks the chain -----

  /** A settled promise releases the next one, however it settled: the next is no longer
      waiting, or its reaction can run, and that starts its operation or fulfils it. */
  lemma PredecessorReleases<T>(c: Chain<T>, k: nat)
    requires Inv(c) && k + 1 < |c.promises| && c.promises[k].status.Settled() && c.promises[k + 1].status.Pending?
    ensures Enabled(c, React(k + 1))
    ensures var next := Step(c, React(k + 1)).promises[k + 1].status;
            if k % 2 == 0 then next == Running(c.submitted[k / 2]) else next == Fulfilled
  {
    assert Linked(c, k / 2);
  }

  function Weight<T>(status: Status<T>): nat {
    match status case Pending => 2 case Running(_) => 1 case _ => 0
  }

  function Work<T>(promises: seq<Promise<T>>): nat {
    if promises == [] then 0 else Work(promises[..|promises| - 1]) + Weight(promises[|promises| - 1].status)
  }

  lemma {:induction false} WorkDrops<T>(promises: seq<Promise<T>>, k: nat, p: Promise<T>)
    requires k < |promises|
    ensures Work(promises[k := p]) == Work(promises) - Weight(promises[k].status) + Weight(p.status)
  {
    var n := |promises| - 1;
    if k == n {
      assert promises[k := p][..n] == promises[..n];
    } else {
      WorkDrops(promises[..n], k, p);
      assert promises[k := p][..n] == promises[..n][k := p];
    }
  }

  lemma StepWorks<T>(c: Chain<T>, e: Event<T>)
    requires Inv(c) && Enabled(c, e) && !e.Submit?
    ensures Work(Step(c, e).promises) < Work(c.promises)
  {
    var k := e.promise;
    WorkDrops(c.promises, k, Step(c, e).promises[k]);
  }

  /** The first promise that has not settled can take a step. */
  lemma {:induction false} SomethingIsEnabled<T>(c: Chain<T>, k: nat) returns (e: Event<T>)
    requires Inv(c) && k < |c.promises| && !c.promises[k].status.Settled()
    ensures Enabled(c, e) && !e.Submit?
    decreases k
  {
    var i := Which(c, k);
    assert Linked(c, i);
    if c.promises[k].status.Running? {
      e := Settle(k, true);
    } else if c.promises[k - 1].status.Settled() {
      e := React(k);
    } else {
      e := SomethingIsEnabled(c, k - 1);
    }
  }

  /** However operations end, a run with no further submissions is bounded by the work in hand,
      and one that cannot be extended has ended every operation, in order. */
  lemma {:induction false} ChainDrains<T>(c: Chain<T>, events: seq<Event<T>>)
    requires Inv(c) && ValidRun(c, events) && Ops(events) == []
    ensures |events| + Work(After(c, events).promises) <= Work(c.promises)
    ensures (forall e :: Enabled(After(c, events), e) ==> e.Submit?) ==> After(c, events).finished == c.submitted
    decreases |events|
  {
    if events == [] {
      if (forall e :: Enabled(c, e) ==> e.Submit?) && |c.finished| < |c.submitted| {
        assert Linked(c, |c.finished|);
        var e := SomethingIsEnabled(c, 2 * |c.finished| + 1);
        assert false;
      }
    } else {
      assert !events[0].Submit?;
      StepKeeps(c, events[0]);
      StepWorks(c, events[0]);
      ChainDrains(Step(c, events[0]), events[1..]);
    }
  }

  // ----- The chain drives the store as its queue says -----

  /** The chain of a store's mutations together with that store. */
  datatype Joint<!S> = Joint(chain: Chain<Q.Mutation<S>>, store: Q.Store<S>)

  datatype Move<!S> =
    | Hand(mutation: Q.Mutation<S>)   // runMutation is called
    | Turn(promise: nat)              // a reaction runs, and starts a callback if it is one
    | Inside(event: Q.Event<S>)       // the running callback gets past an await
    | Answer(promise: nat)            // the callback's promise settles

  ghost predicate CanMove<S>(j: Joint<S>, m: Move<S>) {
    match m
    case Hand(_) => true
    case Turn(k) => Enabled(j.chain, React(k))
    case Inside(e) => !e.Submit? && !e.Start? && Q.Enabled(j.store, e)
    case Answer(k) => k < |j.chain.promises| && j.chain.promises[k].status.Running? && j.store.slot.Idle? && j.store.log != []
  }

  /** What a move does to the store: whether a reaction starts a callback is up to the chain. */
  ghost function StoreEvents<S>(j: Joint<S>, m: Move<S>): seq<Q.Event<S>>
    requires CanMove(j, m)
  {
    match m
    case Hand(mutation) => [Q.Event.Submit(mutation)]
    case Turn(k) => if Chosen(j.chain, k).Run? then [Q.Event.Start] else []
    case Inside(e) => [e]
    case Answer(_) => []
  }

  ghost function ChainAfter<S>(j: Joint<S>, m: Move<S>): Chain<Q.Mutation<S>>
    requires CanMove(j, m)
  {
    match m
    case Hand(mutation) => Step(j.chain, Submit(mutation))
    case Turn(k) => Step(j.chain, React(k))
    case Inside(_) => j.chain
    case Answer(k) => Step(j.chain, Settle(k, j.store.log[|j.store.log| - 1].outcome.Succeeded()))
  }

  /** The store has accepted what was submitted to the chain, is as far as the chain's started
      operations, and at most one callback has ended whose promise has yet to settle. */
  ghost predicate Related<S>(j: Joint<S>) {
    && Inv(j.chain)
    && Q.Accepted(j.store) == j.chain.submitted
    && |j.chain.started| == |j.store.log| + (if j.store.slot.Running? then 1 else 0)
    && |j.chain.finished| <= |j.store.log|
  }

  /** When the chain starts a callback, the store's slot is free and that callback is at the
      head of its queue. */
  lemma StartsHead<S>(j: Joint<S>, k: nat)
    requires Related(j) && Enabled(j.chain, React(k)) && Chosen(j.chain, k).Run?
    ensures Q.Enabled(j.store, Q.Event.Start) && j.store.queue[0] == Chosen(j.chain, k).op
  {
    ReactKeeps(j.chain, k);
    assert j.store.slot.Idle?;
    assert Q.Accepted(j.store) == Q.Finished(j.store.log) + j.store.queue;
  }

  ghost function Moved<S>(j: Joint<S>, m: Move<S>): Joint<S>
    requires CanMove(j, m) && Q.ValidRun(j.store, StoreEvents(j, m))
  {
    Joint(ChainAfter(j, m), Q.After(j.store, StoreEvents(j, m)))
  }

  lemma OneEvent<S>(s: Q.Store<S>, e: Q.Event<S>)
    requires Q.Enabled(s, e)
    ensures Q.ValidRun(s, [e]) && Q.After(s, [e]) == Q.Step(s, e)
  {
    assert [e][1..] == [];
  }

  lemma MoveKeeps<S>(j: Joint<S>, m: Move<S>)
    requires Related(j) && CanMove(j, m)
    ensures Q.ValidRun(j.store, StoreEvents(j, m)) && Related(Moved(j, m))
  {
    match m
    case Hand(mutation) =>
      OneEvent(j.store, Q.Event.Submit(mutation));
      Q.StepKeepsOrder(j.store, Q.Event.Submit(mutation));
      SubmitKeeps(j.chain, mutation);
    case Turn(k) =>
      ReactKeeps(j.chain, k);
      if Chosen(j.chain, k).Run? {
        StartsHead(j, k);
        OneEvent(j.store, Q.Event.Start);
        Q.StepKeepsOrder(j.store, Q.Event.Start);
      }
    case Inside(e) =>
      OneEvent(j.store, e);
      Q.StepKeepsOrder(j.store, e);
    case Answer(k) =>
      SettleKeeps(j.chain, k, j.store.log[|j.store.log| - 1].outcome.Succeeded());
  }

  ghost predicate ValidMoves<S>(j: Joint<S>, moves: seq<Move<S>>)
    decreases |moves|
  {
    moves == [] ||
    (CanMove(j, moves[0])
     && (Q.ValidRun(j.store, StoreEvents(j, moves[0])) ==> ValidMoves(Moved(j, moves[0]), moves[1..])))
  }

  /** The events of the store in a run of the two together. */
  ghost function Projected<S>(j: Joint<S>, moves: seq<Move<S>>): seq<Q.Event<S>>
    requires Related(j) && ValidMoves(j, moves)
    decreases |moves|
  {
    if moves == [] then []
    else
      MoveKeeps(j, moves[0]);
      StoreEvents(j, moves[0]) + Projected(Moved(j, moves[0]), moves[1..])
  }

  ghost function AfterMoves<S>(j: Joint<S>, moves: seq<Move<S>>): Joint<S>
    requires Related(j) && ValidMoves(j, moves)
    decreases |moves|
  {
    if moves == [] then j
    else
      MoveKeeps(j, moves[0]);
      AfterMoves(Moved(j, moves[0]), moves[1..])
  }

  lemma {:induction false} RunAppend<S>(s: Q.Store<S>, a: seq<Q.Event<S>>, b: seq<Q.Event<S>>)
    requires Q.ValidRun(s, a) && Q.ValidRun(Q.After(s, a), b)
    ensures Q.ValidRun(s, a + b) && Q.After(s, a + b) == Q.After(Q.After(s, a), b)
    decreases |a|
  {
    if a == [] {
      assert a + b == b;
    } else {
      RunAppend(Q.Step(s, a[0]), a[1..], b);
      assert (a + b)[1..] == a[1..] + b;
    }
  }

  /** Every run of the store under the promise chain is a run of the store under its queue. */
  lemma {:induction false} ChainRefinesQueue<S>(j: Joint<S>, moves: seq<Move<S>>)
    requires Related(j) && ValidMoves(j, moves)
    ensures Related(AfterMoves(j, moves))
    ensures Q.ValidRun(j.store, Projected(j, moves))
    ensures Q.After(j.store, Projected(j, moves)) == AfterMoves(j, moves).store
    decreases |moves|
  {
    if moves != [] {
      MoveKeeps(j, moves[0]);
      var next := Moved(j, moves[0]);
      ChainRefinesQueue(next, moves[1..]);
      RunAppend(j.store, StoreEvents(j, moves[0]), Projected(next, moves[1..]));
    }
  }

  /** So what was proved of the queue holds of the chain: between callbacks, memory is the
      sequential fold of those that succeeded, in submission order. */
  lemma ChainKeepsSequentialFold<S>(m0: S, f0: Q.Content<S>, s0: Q.Store<S>, moves: seq<Move<S>>)
    requires Q.Opened(m0, f0, s0) && ValidMoves(Joint(Fresh(), s0), moves)
    ensures Related(Joint(Fresh(), s0))
    ensures var j := AfterMoves(Joint(Fresh(), s0), moves);
            j.store.slot.Idle? ==>
              j.store.memory == Q.Fold(m0, Q.Succeeded(j.store.log)) && Q.Accepted(j.store) == j.chain.submitted
  {
    var j0 := Joint(Fresh(), s0);
    assert Q.Accepted(s0) == [];
    assert Inv(j0.chain);
    ChainRefinesQueue(j0, moves);
    Q.RunKeepsInv(m0, f0, s0, Projected(j0, moves));
  }

  // ----- Nothing blocks the two together -----

  ghost function JointWork<S>(j: Joint<S>): nat {
    Work(j.chain.promises) + Q.Work(j.store)
  }

  lemma QueueWorks<S>(s: Q.Store<S>, e: Q.Event<S>)
    requires Q.Enabled(s, e) && !e.Submit?
    ensures Q.Work(Q.Step(s, e)) < Q.Work(s)
  {
    OneEvent(s, e);
    Q.QueueDrains(s, [e]);
  }

  lemma MoveWorks<S>(j: Joint<S>, m: Move<S>)
    requires Related(j) && CanMove(j, m) && !m.Hand?
    ensures Q.ValidRun(j.store, StoreEvents(j, m)) && JointWork(Moved(j, m)) < JointWork(j)
  {
    MoveKeeps(j, m);
    match m
    case Turn(k) =>
      StepWorks(j.chain, React(k));
      if Chosen(j.chain, k).Run? {
        StartsHead(j, k);
        OneEvent(j.store, Q.Event.Start);
        QueueWorks(j.store, Q.Event.Start);
      }
    case Inside(e) =>
      OneEvent(j.store, e);
      QueueWorks(j.store, e);
    case Answer(k) =>
      StepWorks(j.chain, Settle(k, j.store.log[|j.store.log| - 1].outcome.Succeeded()));
  }

  /** While an operation has yet to end, the chain or the store can move. */
  lemma SomeMove<S>(j: Joint<S>) returns (m: Move<S>)
    requires Related(j) && |j.chain.finished| < |j.chain.submitted|
    ensures CanMove(j, m) && !m.Hand?
  {
    assert Linked(j.chain, |j.chain.finished|);
    var e := SomethingIsEnabled(j.chain, 2 * |j.chain.finished| + 1);
    if e.React? {
      m := Turn(e.promise);
    } else if j.store.slot.Idle? {
      SettleKeeps(j.chain, e.promise, true);
      m := Answer(e.promise);
    } else {
      var inner := Q.SomethingIsEnabled(j.store);
      m := Inside(inner);
    }
  }

  /** All operations have ended and their promises settled: the store has finished them. */
  lemma AllFinished<S>(j: Joint<S>)
    requires Related(j) && |j.chain.finished| == |j.chain.submitted|
    ensures j.store.slot.Idle? && j.store.queue == [] && Q.Finished(j.store.log) == j.chain.submitted
  {
    assert |Q.Accepted(j.store)| == |j.chain.submitted|;
    assert Q.Accepted(j.store) == Q.Finished(j.store.log) + j.store.queue;
  }

  /** However awaits end and reactions are ordered, a run of chain and store without further
      submissions is bounded by the work in hand, and one that cannot be extended has finished
      every mutation and settled its promise. */
  lemma {:induction false} JointDrains<S>(j: Joint<S>, moves: seq<Move<S>>)
    requires Related(j) && ValidMoves(j, moves) && forall i | 0 <= i < |moves| :: !moves[i].Hand?
    ensures |moves| + JointWork(AfterMoves(j, moves)) <= JointWork(j)
    ensures var last := AfterMoves(j, moves);
            (forall m :: CanMove(last, m) ==> m.Hand?) ==>
              last.chain.finished == last.chain.submitted == j.chain.submitted
              && last.store.slot.Idle? && Q.Finished(last.store.log) == j.chain.submitted
    decreases |moves|
  {
    if moves == [] {
      if forall m :: CanMove(j, m) ==> m.Hand? {
        if |j.chain.finished| < |j.chain.submitted| {
          var m := SomeMove(j);
          assert false;
        }
        AllFinished(j);
      }
    } else {
      MoveKeeps(j, moves[0]);
      MoveWorks(j, moves[0]);
      JointDrains(Moved(j, moves[0]), moves[1..]);
    }
  }
}
