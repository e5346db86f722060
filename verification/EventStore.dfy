/** `OperationsEventStore`: the audit log kept in the serialised JSON store, and what pruning it
    drops. The mutations here are the callbacks `runMutation` puts through the serialiser. */
module EventStore {
  import opened PrivateJsonStore
  import opened StableSort
  import opened Wrappers

  /** Times are milliseconds; a missing `createdAt` is older than any. */
  datatype Record = Record(eventId: string, critical: bool, resolved: bool, createdAt: Option<int>, details: string)

  type Log = seq<Record>

  const DAY := 86400000.0

  datatype Policy = Policy(maxAgeDays: real, maxEvents: real, now: int)

  /** Towards zero, as dates and slices drop the fraction of a number. */
  function Trunc(x: real): int {
    if x < 0.0 then -(-x).Floor else x.Floor
  }

  function Cutoff(p: Policy): int {
    Trunc(p.now as real - (if p.maxAgeDays > 1.0 then p.maxAgeDays else 1.0) * DAY)
  }

  predicate Unresolved(e: Record) {
    e.critical && !e.resolved
  }

  /** What the age limit spares: unresolved critical events, and everything young enough. */
  predicate Spared(p: Policy, e: Record) {
    Unresolved(e) || (e.createdAt.Some? && e.createdAt.value >= Cutoff(p))
  }

  function Young(p: Policy, log: Log): Log {
    if log == [] then [] else (if Spared(p, log[0]) then [log[0]] else []) + Young(p, log[1..])
  }

  predicate Newer(a: Record, b: Record) {
    b.createdAt.None? || (a.createdAt.Some? && a.createdAt.value >= b.createdAt.value)
  }

  /** How many of `n` events `slice(0, maxEvents)` keeps; a negative bound counts from the end. */
  function Room(n: nat, maxEvents: real): nat {
    var room := if Trunc(maxEvents) >= 0 then Trunc(maxEvents) else n + Trunc(maxEvents);
    if room < 0 then 0 else if room > n then n else room
  }

  function Pruned(p: Policy, log: Log): Log {
    var young := Young(p, log);
    if |young| as real > p.maxEvents then Take(Sort(young, Newer), Room(|young|, p.maxEvents)) else young
  }

  function Recording(e: Record): Mutation<Log> {
    (log: Log) => Persists(log + [e])
  }

  function Pruning(p: Policy): Mutation<Log> {
    (log: Log) => Persists(Pruned(p, log))
  }

  // ----- The store -----

  class OperationsEventStore {
    var events: Log

    constructor ()
      ensures events == []
    {
      events := [];
    }

    /** `init` on what the file holds: no file leaves the log as it is, and anything but a list
        counts as an empty one. */
    method Init(parsed: Option<Option<Log>>)
      modifies this
      ensures events == if parsed.None? then old(events) else if parsed.value.None? then [] else parsed.value.value
    {
      if parsed.None? {
        return;
      }
      events := if parsed.value.Some? then parsed.value.value else [];
    }

    method RecordEvent(e: Record) returns (effect: Effect<Log>)
      modifies this
      ensures effect == Recording(e)(old(events)) && events == effect.next
    {
      events := events + [e];
      effect := Persists(events);
    }

    method Prune(p: Policy) returns (effect: Effect<Log>, beforeCount: nat, afterCount: nat, prunedCount: nat)
      modifies this
      ensures effect == Pruning(p)(old(events)) && events == effect.next
      ensures beforeCount == |old(events)| && afterCount == |events| && prunedCount == beforeCount - afterCount
    {
      beforeCount := |events|;
      var filtered := FilterYoung(p);
      PrunedShorter(p, events);
      if |filtered| as real > p.maxEvents {
        filtered := Take(Sort(filtered, Newer), Room(|filtered|, p.maxEvents));
      }
      events := filtered;
      effect := Persists(events);
      afterCount := |events|;
      prunedCount := beforeCount - afterCount;
    }

    method FilterYoung(p: Policy) returns (young: Log)
      ensures young == Young(p, events)
    {
      young := [];
      for n := 0 to |events|
        invariant young + Young(p, events[n..]) == Young(p, events)
      {
        assert events[n..][1..] == events[n + 1..];
        if Spared(p, events[n]) {
          young := young + [events[n]];
        }
      }
    }
  }

  // ----- What pruning keeps -----

  lemma NewerIsTotal()
    ensures TotalPreorder(Newer)
  {
  }

  function IdOf(e: Record): string {
    e.eventId
  }

  lemma {:induction false} YoungLaw(p: Policy, log: Log)
    ensures multiset(Young(p, log)) <= multiset(log) && |Young(p, log)| <= |log|
    ensures forall e :: e in Young(p, log) <==> e in log && Spared(p, e)
  {
    if log != [] {
      YoungLaw(p, log[1..]);
      assert log == [log[0]] + log[1..];
    }
  }

  lemma PrunedSize(p: Policy, log: Log)
    ensures |Pruned(p, log)| == if |Young(p, log)| as real > p.maxEvents then Room(|Young(p, log)|, p.maxEvents) else |Young(p, log)|
  {
    NewerIsTotal();
    SortSorted(Young(p, log), Newer);
  }

  lemma PrunedShorter(p: Policy, log: Log)
    ensures |Pruned(p, log)| <= |log|
  {
    YoungLaw(p, log);
    PrunedSize(p, log);
  }

  /** Not older than the limit, which is at least one day and drops a fraction of a millisecond. */
  ghost predicate YoungEnough(p: Policy, time: int) {
    var oldest := p.now as real - (if p.maxAgeDays < 1.0 then 1.0 else p.maxAgeDays) * 86400000.0;
    if oldest >= 0.0 then time as real > oldest - 1.0 else time as real >= oldest
  }

  ghost predicate NotOlder(a: Record, b: Record) {
    b.createdAt.Some? ==> a.createdAt.Some? && a.createdAt.value >= b.createdAt.value
  }

  /** What pruning chooses, said of the entries themselves: critical ones not resolved and those
      young enough, all of them if they fit the bound; otherwise as many as the bound says,
      newest first, none of them older than one that is dropped for want of room. */
  lemma PruneChooses(p: Policy, log: Log)
    ensures var young, pruned := Young(p, log), Pruned(p, log);
            && (forall e :: e in young <==>
                  e in log && ((e.critical && !e.resolved) || (e.createdAt.Some? && YoungEnough(p, e.createdAt.value))))
            && (|young| as real <= p.maxEvents ==> pruned == young)
            && (|young| as real > p.maxEvents >= 0.0 ==> |pruned| == p.maxEvents.Floor)
            && (|young| as real > p.maxEvents ==>
                  && (forall i, j | 0 <= i < j < |pruned| :: NotOlder(pruned[i], pruned[j]))
                  && (forall e, d | e in pruned && d in multiset(young) - multiset(pruned) :: NotOlder(e, d)))
  {
    var young := Young(p, log);
    YoungLaw(p, log);
    PrunedSize(p, log);
    SparedIff(p);
    if |young| as real > p.maxEvents {
      NewerIsTotal();
      FirstAreBest(young, Room(|young|, p.maxEvents), Newer);
      BestAreNewest(Pruned(p, log), Room(|young|, p.maxEvents), multiset(young));
    }
  }

  lemma SparedIff(p: Policy)
    ensures forall e :: Spared(p, e) <==> (e.critical && !e.resolved) || (e.createdAt.Some? && YoungEnough(p, e.createdAt.value))
  {
  }

  lemma BestAreNewest(chosen: Log, room: nat, young: multiset<Record>)
    requires Best(chosen, room, young, Newer)
    ensures forall i, j | 0 <= i < j < |chosen| :: NotOlder(chosen[i], chosen[j])
    ensures forall e, d | e in chosen && d in young - multiset(chosen) :: NotOlder(e, d)
  {
    forall i, j | 0 <= i < j < |chosen| ensures NotOlder(chosen[i], chosen[j]) {
      assert Newer(chosen[i], chosen[j]);
    }
    forall e, d | e in chosen && d in young - multiset(chosen) ensures NotOlder(e, d) {
      assert Newer(e, d);
    }
  }

  /** Which entries survive, and where: those the age limit spares, in their order if all of them
      fit; otherwise the place of each is its rank, newest first and older entries of the log
      first among equals, no two ranks are the same, and the places there is room for are kept.
      Being critical and unresolved is no protection. */
  lemma SurvivorsByRank(p: Policy, log: Log, i: nat)
    requires i < |Young(p, log)|
    ensures var young, pruned := Young(p, log), Pruned(p, log);
            var rank, room := Rank(young, i, Newer), Room(|young|, p.maxEvents);
            if |young| as real <= p.maxEvents then pruned == young
            else
              && rank < |young| && |pruned| == room
              && (rank < room ==> pruned[rank] == young[i])
              && forall j | 0 <= j < |young| && j != i :: Rank(young, j, Newer) != rank
  {
    var young := Young(p, log);
    NewerIsTotal();
    PrunedSize(p, log);
    SortSorted(young, Newer);
    SortRank(young, i, Newer);
    forall j | 0 <= j < |young| && j != i ensures Rank(young, j, Newer) != Rank(young, i, Newer) {
      if j < i {
        RankInjective(young, j, i, Newer);
      } else {
        RankInjective(young, i, j, Newer);
      }
    }
  }

  /** For a log without repeated ids this says which events are still listed. */
  lemma ListedIff(p: Policy, log: Log, i: nat)
    requires DistinctBy(log, IdOf) && i < |Young(p, log)|
    ensures var young := Young(p, log);
            young[i] in Pruned(p, log) <==>
              |young| as real <= p.maxEvents || Rank(young, i, Newer) < Room(|young|, p.maxEvents)
  {
    var young := Young(p, log);
    var sorted, r := Sort(young, Newer), Rank(young, i, Newer);
    YoungLaw(p, log);
    SubDistinct(young, log, IdOf);
    NewerIsTotal();
    SortSorted(young, Newer);
    SortRank(young, i, Newer);
    SubDistinct(sorted, young, IdOf);
    if |young| as real > p.maxEvents {
      InPrefixIff(sorted, r, Room(|young|, p.maxEvents));
    }
  }

  lemma InPrefixIff(xs: Log, r: nat, n: nat)
    requires DistinctBy(xs, IdOf) && r < |xs| && n <= |xs|
    ensures xs[r] in Take(xs, n) <==> r < n
  {
    if r < n {
      assert Take(xs, n)[r] == xs[r];
    }
    if xs[r] in Take(xs, n) {
      var k :| 0 <= k < n && Take(xs, n)[k] == xs[r];
      assert xs[k] == xs[r];
      assert k == r;
    }
  }

  /** An unresolved critical event crowded out by a newer, unremarkable one. */
  lemma CriticalEventIsLost()
    ensures var critical := Record("a", true, false, Some(0), "");
            var newer := Record("b", false, false, Some(1), "");
            var p := Policy(30.0, 1.0, 1);
            Unresolved(critical) && Pruned(p, [critical, newer]) == [newer]
  {
    var critical := Record("a", true, false, Some(0), "");
    var newer := Record("b", false, false, Some(1), "");
    var p := Policy(30.0, 1.0, 1);
    var log := [critical, newer];
    assert log[1..] == [newer] && [newer][1..] == [];
    assert Young(p, [newer]) == [newer];
    assert Young(p, log) == log;
    assert Sort([newer], Newer) == [newer];
    assert Sort(log, Newer) == Insert(critical, [newer], Newer) == [newer, critical];
  }

  /** Nothing is invented, altered or repeated by pruning, and what is left fits the bound. */
  lemma PruneOnlyDrops(p: Policy, log: Log)
    ensures multiset(Pruned(p, log)) <= multiset(log)
    ensures forall e | e in Pruned(p, log) :: Spared(p, e)
    ensures p.maxEvents >= 0.0 ==> |Pruned(p, log)| as real <= p.maxEvents
  {
    var young := Young(p, log);
    YoungLaw(p, log);
    PrunedSize(p, log);
    if |young| as real > p.maxEvents {
      var sorted, room := Sort(young, Newer), Room(|young|, p.maxEvents);
      NewerIsTotal();
      SortSorted(young, Newer);
      Halves(sorted, room);
      assert Pruned(p, log) == sorted[..room];
      forall e | e in Pruned(p, log) ensures e in young {
        assert e in multiset(sorted[..room]);
        assert e in multiset(sorted);
      }
    }
  }

  lemma {:induction false} AllSpared(p: Policy, log: Log)
    requires forall e | e in log :: Spared(p, e)
    ensures Young(p, log) == log
  {
    if log != [] {
      AllSpared(p, log[1..]);
      assert log == [log[0]] + log[1..];
    }
  }

  /** Pruning twice is pruning once, exactly when the bound is above -1 or leaves nothing: a
      bound of -1 or less drops that many more each time. */
  lemma {:induction false} PruneTwiceIff(p: Policy, log: Log)
    ensures Pruned(p, Pruned(p, log)) == Pruned(p, log) <==> p.maxEvents > -1.0 || |Young(p, log)| <= -Trunc(p.maxEvents)
  {
    var once := Pruned(p, log);
    PruneOnlyDrops(p, log);
    AllSpared(p, once);
    PrunedSize(p, log);
    PrunedSize(p, once);
  }

  /** Two young events and a bound of -1: the first pruning leaves one, the second none. */
  lemma NegativeBoundDropsMore(a: Record, b: Record)
    requires Unresolved(a) && Unresolved(b)
    ensures var p := Policy(30.0, -1.0, 0);
            |Pruned(p, [a, b])| == 1 && Pruned(p, Pruned(p, [a, b])) == []
  {
    var p := Policy(30.0, -1.0, 0);
    AllSpared(p, [a, b]);
    PrunedSize(p, [a, b]);
    PruneOnlyDrops(p, [a, b]);
    AllSpared(p, Pruned(p, [a, b]));
    PrunedSize(p, Pruned(p, [a, b]));
  }

  // ----- Over any sequence of mutations -----

  datatype Request = Add(event: Record) | Prune(policy: Policy)

  function MutationOf(r: Request): Mutation<Log> {
    match r
    case Add(e) => Recording(e)
    case Prune(p) => Pruning(p)
  }

  function MutationsOf(rs: seq<Request>): (ms: seq<Mutation<Log>>)
    ensures |ms| == |rs|
  {
    if rs == [] then [] else MutationsOf(rs[..|rs| - 1]) + [MutationOf(rs[|rs| - 1])]
  }

  function Added(rs: seq<Request>): Log {
    if rs == [] then []
    else Added(rs[..|rs| - 1]) + (if rs[|rs| - 1].Add? then [rs[|rs| - 1].event] else [])
  }

  lemma AddedLast(before: seq<Request>, last: Request)
    ensures Added(before + [last]) == Added(before) + if last.Add? then [last.event] else []
  {
    assert (before + [last])[..|before|] == before;
  }

  /** Whatever sequence of mutations has succeeded, every entry of the log is one that was there
      or was recorded, unaltered and no more often than it came. */
  lemma {:induction false} LogOverMutations(log: Log, rs: seq<Request>)
    ensures multiset(Fold(log, MutationsOf(rs))) <= multiset(log) + multiset(Added(rs))
  {
    if rs != [] {
      var before, last := rs[..|rs| - 1], rs[|rs| - 1];
      assert rs == before + [last];
      LogOverMutations(log, before);
      FoldLast(log, before, last);
      AddedLast(before, last);
      if last.Prune? {
        PruneOnlyDrops(last.policy, Fold(log, MutationsOf(before)));
      }
    }
  }

  /** So distinct ids stay distinct. */
  lemma DistinctOverMutations(log: Log, rs: seq<Request>)
    requires DistinctBy(log + Added(rs), IdOf)
    ensures DistinctBy(Fold(log, MutationsOf(rs)), IdOf)
  {
    LogOverMutations(log, rs);
    SubDistinct(Fold(log, MutationsOf(rs)), log + Added(rs), IdOf);
  }

  lemma FoldLast(log: Log, before: seq<Request>, last: Request)
    ensures Fold(log, MutationsOf(before + [last])) == Apply(MutationOf(last), Fold(log, MutationsOf(before)))
  {
    assert (before + [last])[..|before|] == before;
    var ms := MutationsOf(before + [last]);
    assert ms[..|ms| - 1] == MutationsOf(before);
  }
}
