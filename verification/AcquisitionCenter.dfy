/** `ContentAcquisitionCenter`: the fallback loop of `fetch`, the retry loop of
    `collectMetrics`, and the ledger of attempts each leaves behind.

    What brokers and adapters answer is a parameter, indexed by the call: `fetch` calls each
    candidate at most once, `collectMetrics` each candidate at most once per attempt number.
    Broker, store and recorder calls do not throw. */
module AcquisitionCenter {
  import opened Wrappers
  import opened StableSort

  datatype AccessMode = Public | Authorized | Either | PrivateScoped

  datatype PriorityClass = Specialized | General

  datatype Adapter = Adapter(
    id: string,
    accessMode: AccessMode,
    priorityClass: PriorityClass,
    capabilities: seq<string>,
    healthy: bool,
    runtimeRequirements: seq<string>)

  datatype Failure = Failure(code: string, action: string)

  const RETRY := "retry"
  const NO_BROKER := Failure("connection_broker_unavailable", "manual_review")
  const NO_CHANNEL := Failure("capability_not_available", "manual_review")
  const UNAVAILABLE := Failure("adapter_unavailable", RETRY)

  datatype Access = Granted | Denied(failure: Failure)

  // ----- findCandidates -----

  function Rank(a: Adapter): nat {
    if a.priorityClass.Specialized? then 0 else 1
  }

  function ByPriority(a: Adapter, b: Adapter): bool {
    Rank(a) <= Rank(b)
  }

  predicate Suits(a: Adapter, matches: Adapter -> bool, requested: seq<string>, requirement: Option<string>) {
    && matches(a)
    && a.healthy
    && (exists i | 0 <= i < |requested| :: requested[i] in a.capabilities)
    && (requirement.Some? && requirement.value != "" ==> requirement.value in a.runtimeRequirements)
  }

  function FindCandidates(adapters: seq<Adapter>, matches: Adapter -> bool, requested: seq<string>, requirement: Option<string>): seq<Adapter> {
    Sort(Filter(adapters, a => Suits(a, matches, requested, requirement)), ByPriority)
  }

  /** The candidates are the suitable adapters, each as often as configured; specialised
      before general ones; and within a class in the configured order. */
  lemma CandidateOrder(adapters: seq<Adapter>, matches: Adapter -> bool, requested: seq<string>, requirement: Option<string>)
    ensures var suitable := Filter(adapters, a => Suits(a, matches, requested, requirement));
            var candidates := FindCandidates(adapters, matches, requested, requirement);
            && candidates == Filter(suitable, (a: Adapter) => a.priorityClass.Specialized?) + Filter(suitable, (a: Adapter) => a.priorityClass.General?)
            && multiset(candidates) == multiset(suitable)
  {
    var suitable := Filter(adapters, a => Suits(a, matches, requested, requirement));
    var special, general := (a: Adapter) => a.priorityClass.Specialized?, (a: Adapter) => a.priorityClass.General?;
    SortSorted(suitable, ByPriority);
    SortStable(suitable, ByPriority, special);
    SortStable(suitable, ByPriority, general);
    TwoClasses(Sort(suitable, ByPriority), special, general);
  }

  /** Which adapters are candidates. */
  lemma CandidateIff(adapters: seq<Adapter>, matches: Adapter -> bool, requested: seq<string>, requirement: Option<string>, a: Adapter)
    ensures a in FindCandidates(adapters, matches, requested, requirement) <==>
              && a in adapters && matches(a) && a.healthy
              && (exists c :: c in requested && c in a.capabilities)
              && (requirement.None? || requirement.value == "" || requirement.value in a.runtimeRequirements)
  {
    var suits := a => Suits(a, matches, requested, requirement);
    FilterHas(adapters, suits, a);
    SortHas(Filter(adapters, suits), a);
    assert Suits(a, matches, requested, requirement) ==> exists c :: c in requested && c in a.capabilities by {
      if i :| 0 <= i < |requested| && requested[i] in a.capabilities {
        assert requested[i] in requested;
      }
    }
  }

  lemma SortHas(xs: seq<Adapter>, a: Adapter)
    ensures a in Sort(xs, ByPriority) <==> a in xs
  {
    SortSorted(xs, ByPriority);
    assert a in Sort(xs, ByPriority) <==> a in multiset(Sort(xs, ByPriority));
    assert a in xs <==> a in multiset(xs);
  }

  lemma {:induction false} FilterHas<T>(xs: seq<T>, p: T -> bool, x: T)
    ensures x in Filter(xs, p) <==> x in xs && p(x)
  {
    if xs != [] {
      FilterHas(xs[1..], p, x);
      assert xs == [xs[0]] + xs[1..];
    }
  }

  lemma {:induction false} TwoClasses(xs: seq<Adapter>, special: Adapter -> bool, general: Adapter -> bool)
    requires Sorted(xs, ByPriority)
    requires forall a :: special(a) == a.priorityClass.Specialized? && general(a) == a.priorityClass.General?
    ensures xs == Filter(xs, special) + Filter(xs, general)
  {
    if xs != [] {
      TwoClasses(xs[1..], special, general);
      if general(xs[0]) {
        AllGeneral(xs);
        NoneOf(xs, special);
        NoneOf(xs[1..], special);
        assert [] + Filter(xs, general) == Filter(xs, general) && [] + Filter(xs[1..], general) == Filter(xs[1..], general);
      } else {
        assert [xs[0]] + Filter(xs[1..], special) + Filter(xs[1..], general) == [xs[0]] + xs[1..];
      }
      assert xs == [xs[0]] + xs[1..];
    }
  }

  lemma AllGeneral(xs: seq<Adapter>)
    requires xs != [] && Sorted(xs, ByPriority) && xs[0].priorityClass.General?
    ensures forall i | 0 <= i < |xs| :: xs[i].priorityClass.General?
  {
    forall i | 0 < i < |xs| ensures xs[i].priorityClass.General? {
      assert ByPriority(xs[0], xs[i]);
    }
  }

  lemma {:induction false} NoneOf(xs: seq<Adapter>, p: Adapter -> bool)
    requires forall i | 0 <= i < |xs| :: !p(xs[i])
    ensures Filter(xs, p) == []
  {
    if xs != [] {
      NoneOf(xs[1..], p);
    }
  }

  // ----- fetch -----

  datatype Acquired = Provides(capabilities: seq<string>) | Fails(failure: Failure)

  /** Everything a request meets: its candidates, the broker's answers and the adapters'. */
  datatype World = World(
    candidates: seq<Adapter>,
    hasBroker: bool,
    hasConnection: bool,
    authorize: nat -> Access,
    acquire: nat -> Acquired)

  datatype Visit = NoBroker | Refused(failure: Failure) | Failed(failure: Failure) | Obtained {
    predicate CalledAcquire() { Failed? || Obtained? }
  }

  predicate NeedsConnection(a: Adapter, hasConnection: bool) {
    a.accessMode.Authorized? || (a.accessMode.Either? && hasConnection)
  }

  /** What happens at candidate `i`. An adapter that takes either kind of access is tried
      without credentials when they are refused. */
  function VisitOf(w: World, i: nat): Visit
    requires i < |w.candidates|
  {
    var a := w.candidates[i];
    var needs := NeedsConnection(a, w.hasConnection);
    if needs && !w.hasBroker then NoBroker
    else if needs && !a.accessMode.Either? && w.authorize(i).Denied? then Refused(w.authorize(i).failure)
    else
      match w.acquire(i)
      case Provides(capabilities) => if capabilities == [] then Failed(UNAVAILABLE) else Obtained
      case Fails(failure) => Failed(failure)
  }

  /** Whether the loop goes on to the next candidate, if there is one. */
  predicate GoesOn(w: World, i: nat)
    requires i < |w.candidates|
  {
    match VisitOf(w, i)
    case NoBroker => w.candidates[i].accessMode.Either?
    case Refused(_) => i < |w.candidates| - 1
    case Failed(_) => true
    case Obtained => false
  }

  datatype Outcome = Success | ConfirmedFailure

  datatype Attempt = Attempt(routeId: string, adapterId: string, attempts: nat, outcome: Outcome, failureCode: Option<string>)

  function AttemptAt(adapter: Option<Adapter>, outcome: Outcome, failureCode: string, attempts: nat): Attempt {
    var id := if adapter.Some? then adapter.value.id else "";
    Attempt(Take(if id == "" then "content-acquisition-route" else id, 160),
            Take(if id == "" then "content-acquisition-adapter" else id, 120),
            attempts, outcome,
            if failureCode == "" then None else Some(Take(failureCode, 120)))
  }

  function AttemptFor(adapter: Adapter, visit: Visit): Attempt {
    match visit
    case NoBroker => AttemptAt(Some(adapter), ConfirmedFailure, NO_BROKER.code, 0)
    case Refused(failure) => AttemptAt(Some(adapter), ConfirmedFailure, failure.code, 0)
    case Failed(failure) => AttemptAt(Some(adapter), ConfirmedFailure, failure.code, 1)
    case Obtained => AttemptAt(Some(adapter), Success, "", 1)
  }

  function AttemptOf(w: World, i: nat): Attempt
    requires i < |w.candidates|
  {
    AttemptFor(w.candidates[i], VisitOf(w, i))
  }

  function Attempts(w: World, n: nat): seq<Attempt>
    requires n <= |w.candidates|
  {
    seq(n, i requires 0 <= i < n => AttemptOf(w, i))
  }

  /** The candidates among the first `n` whose `acquire` was called, in order. */
  function Called(w: World, n: nat): seq<nat>
    requires n <= |w.candidates|
  {
    if n == 0 then []
    else Called(w, n - 1) + (if VisitOf(w, n - 1).CalledAcquire() then [n - 1] else [])
  }

  /** The failure remembered from the first `n` candidates. A missing broker is remembered
      only where it ends the loop. */
  function Remembered(w: World, n: nat): Option<Failure>
    requires n <= |w.candidates|
  {
    if n == 0 then None
    else
      match VisitOf(w, n - 1)
      case Refused(failure) => Some(failure)
      case Failed(failure) => Some(failure)
      case _ => Remembered(w, n - 1)
  }

  datatype Receipt = Receipt(
    routeId: string,
    adapterId: string,
    outcome: Outcome,
    fallbackFrom: Option<string>,
    routeAttempts: seq<Attempt>,
    totalAttempts: nat,
    failureCode: Option<string>)

  function SumAttempts(attempts: seq<Attempt>): nat {
    if attempts == [] then 0 else SumAttempts(attempts[..|attempts| - 1]) + attempts[|attempts| - 1].attempts
  }

  /** `acquisitionReceipt`; `failureCode` is none when the result is ok. */
  function ReceiptOf(attempts: seq<Attempt>, failureCode: Option<string>): Receipt {
    var n := |attempts|;
    var final := if n > 0 then attempts[n - 1]
                 else AttemptAt(None, ConfirmedFailure, if failureCode.Some? then failureCode.value else "", 0);
    var successful := failureCode.None? && final.outcome.Success?;
    Receipt(final.routeId, final.adapterId,
            if successful then Success else ConfirmedFailure,
            if n > 1 then Some(attempts[n - 2].routeId) else None,
            attempts, SumAttempts(attempts),
            if successful then None else Some(Take(FailureCode(failureCode, final), 120)))
  }

  /** `failureCode || finalAttempt.failureCode || 'capability_not_available'` */
  function FailureCode(failureCode: Option<string>, final: Attempt): string {
    if failureCode.Some? && failureCode.value != "" then failureCode.value
    else if final.failureCode.Some? && final.failureCode.value != "" then final.failureCode.value
    else NO_CHANNEL.code
  }

  datatype FetchResult = Fetched(candidate: nat, receipt: Receipt) | NotFetched(failure: Failure, receipt: Receipt)

  /** The loop tried exactly the first `n` candidates: it went on after each but the last,
      and stopped there for want of candidates or because it does not go on. */
  ghost predicate Tried(w: World, n: nat) {
    && n <= |w.candidates|
    && (forall i | 0 <= i < n - 1 :: GoesOn(w, i))
    && (n == |w.candidates| || (n > 0 && !GoesOn(w, n - 1)))
  }

  /** The ledger of a request that tried `n` candidates, and the outcome that goes with it:
      ok exactly when the last one tried delivered. */
  ghost predicate Settled(w: World, n: nat, r: FetchResult)
    requires n <= |w.candidates|
  {
    && r.receipt.routeAttempts == Attempts(w, n)
    && if n > 0 && VisitOf(w, n - 1).Obtained?
       then r == Fetched(n - 1, ReceiptOf(Attempts(w, n), None))
       else r == NotFetched(Reported(w, n), ReceiptOf(Attempts(w, n), Some(Reported(w, n).code)))
  }

  /** The loop's variables after it went on from each of the first `n` candidates. */
  ghost predicate Visited(w: World, n: nat, routeAttempts: seq<Attempt>, calls: seq<nat>, lastFailure: Option<Failure>) {
    && n <= |w.candidates|
    && routeAttempts == Attempts(w, n) && calls == Called(w, n) && lastFailure == Remembered(w, n)
    && forall i | 0 <= i < n :: GoesOn(w, i)
  }

  lemma VisitNext(w: World, n: nat, routeAttempts: seq<Attempt>, calls: seq<nat>, lastFailure: Option<Failure>)
    requires n < |w.candidates| && Visited(w, n, routeAttempts, calls, lastFailure)
    ensures var attempts', calls' := routeAttempts + [AttemptOf(w, n)], calls + (if VisitOf(w, n).CalledAcquire() then [n] else []);
            && attempts' == Attempts(w, n + 1) && calls' == Called(w, n + 1)
            && (GoesOn(w, n) ==> Visited(w, n + 1, attempts', calls', Remembered(w, n + 1)))
            && (!GoesOn(w, n) || n + 1 == |w.candidates| ==> Tried(w, n + 1))
  {
    AttemptsGrow(w, n);
  }

  /** The result, its ledger and the `acquire` calls made agree. */
  ghost predicate Accounts(w: World, r: FetchResult, calls: seq<nat>) {
    var n := |r.receipt.routeAttempts|;
    Tried(w, n) && Settled(w, n, r) && calls == Called(w, n)
  }

  // ----- The result, read off the request alone -----

  /** `acquire` is called at candidate `i`: no credentials are needed, or there is a broker and they
      are granted, or they are refused to an adapter that does without. */
  ghost predicate Reached(w: World, i: nat)
    requires i < |w.candidates|
  {
    match w.candidates[i].accessMode
    case Authorized => w.hasBroker && w.authorize(i).Granted?
    case Either => w.hasConnection ==> w.hasBroker
    case _ => true
  }

  ghost predicate Delivers(w: World, i: nat)
    requires i < |w.candidates|
  {
    Reached(w, i) && w.acquire(i).Provides? && w.acquire(i).capabilities != []
  }

  /** The request ends here: something was obtained, or credentials are required and there is no
      broker to ask. */
  ghost predicate Ends(w: World, i: nat)
    requires i < |w.candidates|
  {
    Delivers(w, i) || (w.candidates[i].accessMode.Authorized? && !w.hasBroker)
  }

  /** What goes wrong at a candidate that does not deliver. */
  ghost function WhatFails(w: World, i: nat): Failure
    requires i < |w.candidates|
  {
    if Reached(w, i) then
      match w.acquire(i)
      case Fails(failure) => failure
      case Provides(_) => Failure("adapter_unavailable", "retry")
    else if !w.hasBroker then Failure("connection_broker_unavailable", "manual_review")
    else w.authorize(i).failure
  }

  /** Passed over without being remembered: an adapter that takes either kind of access, asked for
      with a connection where there is no broker. */
  ghost predicate PassedOver(w: World, i: nat)
    requires i < |w.candidates|
  {
    !Reached(w, i) && w.candidates[i].accessMode.Either?
  }

  ghost predicate EntryTells(w: World, i: nat, e: Attempt)
    requires i < |w.candidates|
  {
    var id := w.candidates[i].id;
    && (id != "" ==> e.routeId == Take(id, 160) && e.adapterId == Take(id, 120))
    && e.attempts == (if Reached(w, i) then 1 else 0)
    && (e.outcome.Success? <==> Delivers(w, i))
    && (Delivers(w, i) ==> e.failureCode.None?)
    && (!Delivers(w, i) && WhatFails(w, i).code != "" ==> e.failureCode == Some(Take(WhatFails(w, i).code, 120)))
  }

  /** One entry for each candidate tried; every one but the last was gone on from, and the last
      is the last candidate or one where the request ends; and `acquire` was called at exactly
      those of them that are reached, in order. */
  ghost predicate LedgerTells(w: World, attempts: seq<Attempt>, calls: seq<nat>) {
    var n := |attempts|;
    && n <= |w.candidates|
    && (forall i | 0 <= i < n :: EntryTells(w, i, attempts[i]))
    && (forall i | 0 <= i < n - 1 :: !Ends(w, i))
    && (n < |w.candidates| ==> n > 0 && Ends(w, n - 1))
    && (forall i: nat :: i in calls <==> i < n && Reached(w, i))
    && (forall j, k | 0 <= j < k < |calls| :: calls[j] < calls[k])
  }

  /** It is ok exactly when the last candidate tried delivered; otherwise it is the failure of the
      last one that was not passed over, unless a missing broker ended it. */
  ghost predicate ResultTells(w: World, n: nat, r: FetchResult)
    requires n <= |w.candidates|
  {
    match r
    case Fetched(candidate, _) => n > 0 && candidate == n - 1 && Delivers(w, n - 1)
    case NotFetched(failure, _) =>
      && !(n > 0 && Delivers(w, n - 1))
      && (w.candidates == [] ==> failure == Failure("capability_not_available", "manual_review"))
      && (forall m | 0 <= m < n && !PassedOver(w, m) && (forall k | m < k < n :: PassedOver(w, k)) :: failure == WhatFails(w, m))
      && (n > 0 && (forall k | 0 <= k < n :: PassedOver(w, k)) ==> failure == Failure("adapter_unavailable", "retry"))
  }

  /** The receipt says what the result is, and names the last two routes tried. */
  ghost predicate ReceiptTells(r: FetchResult, calls: seq<nat>) {
    var receipt, n := r.receipt, |r.receipt.routeAttempts|;
    && (r.Fetched? <==> receipt.outcome.Success?)
    && (r.Fetched? <==> receipt.failureCode.None?)
    && (r.NotFetched? && r.failure.code != "" ==> receipt.failureCode == Some(Take(r.failure.code, 120)))
    && receipt.totalAttempts == |calls|
    && (n == 0 ==> receipt.routeId == "content-acquisition-route" && receipt.adapterId == "content-acquisition-adapter")
    && (n > 0 ==> receipt.routeId == receipt.routeAttempts[n - 1].routeId && receipt.adapterId == receipt.routeAttempts[n - 1].adapterId)
    && receipt.fallbackFrom == (if n < 2 then None else Some(receipt.routeAttempts[n - 2].routeId))
  }

  ghost predicate Tells(w: World, r: FetchResult, calls: seq<nat>) {
    && LedgerTells(w, r.receipt.routeAttempts, calls)
    && ResultTells(w, |r.receipt.routeAttempts|, r)
    && ReceiptTells(r, calls)
  }

  lemma VisitTells(w: World, i: nat)
    requires i < |w.candidates|
    ensures EntryTells(w, i, AttemptOf(w, i))
    ensures VisitOf(w, i).CalledAcquire() <==> Reached(w, i)
    ensures VisitOf(w, i).Obtained? <==> Delivers(w, i)
    ensures GoesOn(w, i) <==> !Ends(w, i) && (VisitOf(w, i).Refused? ==> i < |w.candidates| - 1)
    ensures VisitOf(w, i).Refused? || VisitOf(w, i).Failed? ==> !PassedOver(w, i) && VisitOf(w, i).failure == WhatFails(w, i)
    ensures VisitOf(w, i).NoBroker? ==> (PassedOver(w, i) <==> !w.candidates[i].accessMode.Authorized?) && WhatFails(w, i) == NO_BROKER
  {
  }

  lemma {:induction false} CalledTells(w: World, n: nat)
    requires n <= |w.candidates|
    ensures forall i: nat :: i in Called(w, n) <==> i < n && Reached(w, i)
    ensures forall j, k | 0 <= j < k < |Called(w, n)| :: Called(w, n)[j] < Called(w, n)[k]
  {
    if n > 0 {
      CalledTells(w, n - 1);
      VisitTells(w, n - 1);
      var before := Called(w, n - 1);
      assert forall j | 0 <= j < |before| :: before[j] in before;
    }
  }

  lemma {:induction false} RememberedTells(w: World, n: nat)
    requires n <= |w.candidates| && forall i | 0 <= i < n :: !Ends(w, i)
    ensures Remembered(w, n).None? <==> forall k | 0 <= k < n :: PassedOver(w, k)
    ensures forall m | 0 <= m < n && !PassedOver(w, m) && (forall k | m < k < n :: PassedOver(w, k)) ::
              Remembered(w, n) == Some(WhatFails(w, m))
  {
    if n > 0 {
      RememberedTells(w, n - 1);
      VisitTells(w, n - 1);
      assert !Ends(w, n - 1);
    }
  }

  lemma TriedTells(w: World, n: nat)
    requires Tried(w, n)
    ensures LedgerTells(w, Attempts(w, n), Called(w, n))
  {
    forall i | 0 <= i < n ensures EntryTells(w, i, Attempts(w, n)[i]) {
      VisitTells(w, i);
    }
    forall i | 0 <= i < n - 1 ensures !Ends(w, i) {
      VisitTells(w, i);
      assert GoesOn(w, i);
    }
    if n > 0 {
      VisitTells(w, n - 1);
    }
    CalledTells(w, n);
  }

  lemma ReportedTells(w: World, n: nat, receipt: Receipt)
    requires Tried(w, n) && !(n > 0 && VisitOf(w, n - 1).Obtained?)
    ensures ResultTells(w, n, NotFetched(Reported(w, n), receipt))
  {
    TriedTells(w, n);
    if n > 0 {
      VisitTells(w, n - 1);
      if !Ends(w, n - 1) {
        RememberedTells(w, n);
      }
    }
  }

  lemma TakesDefaults(failure: string)
    ensures AttemptAt(None, ConfirmedFailure, failure, 0).routeId == "content-acquisition-route"
    ensures AttemptAt(None, ConfirmedFailure, failure, 0).adapterId == "content-acquisition-adapter"
  {
  }

  lemma FailsAt(w: World, n: nat, failure: Failure)
    requires Tried(w, n) && failure == Reported(w, n) && !(n > 0 && VisitOf(w, n - 1).Obtained?)
    ensures var r := NotFetched(failure, ReceiptOf(Attempts(w, n), Some(failure.code)));
            Accounts(w, r, Called(w, n)) && Tells(w, r, Called(w, n))
  {
    TriedTells(w, n);
    ReportedTells(w, n, ReceiptOf(Attempts(w, n), Some(failure.code)));
    TotalIsCalls(w, n);
    TakesDefaults(failure.code);
  }

  lemma SucceedsAt(w: World, n: nat)
    requires Tried(w, n) && 0 < n && VisitOf(w, n - 1).Obtained?
    ensures var r := Fetched(n - 1, ReceiptOf(Attempts(w, n), None));
            Accounts(w, r, Called(w, n)) && Tells(w, r, Called(w, n))
  {
    TriedTells(w, n);
    VisitTells(w, n - 1);
    TotalIsCalls(w, n);
  }

  /** The loop. Its ledger has one entry per candidate tried, in candidate order, and the
      adapters called are those recorded in `calls`. */
  method Fetch(w: World) returns (r: FetchResult, calls: seq<nat>)
    ensures Accounts(w, r, calls) && Tells(w, r, calls)
  {
    var candidates := w.candidates;
    calls := [];
    if |candidates| == 0 {
      FailsAt(w, 0, NO_CHANNEL);
      return NotFetched(NO_CHANNEL, ReceiptOf([], Some(NO_CHANNEL.code))), calls;
    }
    var lastFailure: Option<Failure> := None;
    var routeAttempts: seq<Attempt> := [];
    for index := 0 to |candidates|
      invariant Visited(w, index, routeAttempts, calls, lastFailure)
    {
      var adapter := candidates[index];
      VisitNext(w, index, routeAttempts, calls, lastFailure);
      var visit, called := TryCandidate(w, index);
      calls := calls + (if called then [index] else []);
      routeAttempts := routeAttempts + [AttemptFor(adapter, visit)];
      match visit {
        case NoBroker =>
          if !adapter.accessMode.Either? {
            FailsAt(w, index + 1, NO_BROKER);
            return NotFetched(NO_BROKER, ReceiptOf(routeAttempts, Some(NO_BROKER.code))), calls;
          }
        case Refused(failure) =>
          lastFailure := Some(failure);
          if index == |candidates| - 1 {
            FailsAt(w, index + 1, failure);
            return NotFetched(failure, ReceiptOf(routeAttempts, Some(failure.code))), calls;
          }
        case Obtained =>
          SucceedsAt(w, index + 1);
          return Fetched(index, ReceiptOf(routeAttempts, None)), calls;
        case Failed(failure) =>
          lastFailure := Some(failure);
      }
    }
    assert GoesOn(w, |candidates| - 1);
    var failure := if lastFailure.Some? then lastFailure.value else UNAVAILABLE;
    FailsAt(w, |candidates|, failure);
    r := NotFetched(failure, ReceiptOf(routeAttempts, Some(failure.code)));
  }

  /** The loop body up to the outcome of the candidate; `called` says whether it got as far
      as `acquire`. */
  method TryCandidate(w: World, index: nat) returns (visit: Visit, called: bool)
    requires index < |w.candidates|
    ensures visit == VisitOf(w, index) && called == visit.CalledAcquire()
  {
    var adapter := w.candidates[index];
    called := false;
    if adapter.accessMode.Authorized? || (adapter.accessMode.Either? && w.hasConnection) {
      if !w.hasBroker {
        return NoBroker, called;
      }
      var access := w.authorize(index);
      if access.Denied? && !adapter.accessMode.Either? {
        return Refused(access.failure), called;
      }
    }
    var acquired := w.acquire(index);
    called := true;
    match acquired
    case Provides(capabilities) => visit := if capabilities == [] then Failed(UNAVAILABLE) else Obtained;
    case Fails(failure) => visit := Failed(failure);
  }

  lemma AttemptsGrow(w: World, n: nat)
    requires n < |w.candidates|
    ensures Attempts(w, n + 1) == Attempts(w, n) + [AttemptOf(w, n)]
  {
  }

  /** The failure a request that tried `n` candidates in vain reports. */
  function Reported(w: World, n: nat): Failure
    requires n <= |w.candidates|
  {
    if w.candidates == [] then NO_CHANNEL
    else if n > 0 && VisitOf(w, n - 1).NoBroker? && !w.candidates[n - 1].accessMode.Either? then NO_BROKER
    else if Remembered(w, n).Some? then Remembered(w, n).value
    else UNAVAILABLE
  }

  /** The audit law: the receipt counts exactly the `acquire` calls made. */
  lemma {:induction false} TotalIsCalls(w: World, n: nat)
    requires n <= |w.candidates|
    ensures SumAttempts(Attempts(w, n)) == |Called(w, n)|
  {
    if n > 0 {
      TotalIsCalls(w, n - 1);
      AttemptsGrow(w, n - 1);
      CountedIfCalled(w.candidates[n - 1], VisitOf(w, n - 1));
      OneMore(Attempts(w, n - 1), AttemptOf(w, n - 1), Called(w, n - 1), n - 1, VisitOf(w, n - 1).CalledAcquire());
    }
  }

  lemma CountedIfCalled(adapter: Adapter, visit: Visit)
    ensures AttemptFor(adapter, visit).attempts == if visit.CalledAcquire() then 1 else 0
  {
  }

  lemma OneMore(attempts: seq<Attempt>, a: Attempt, called: seq<nat>, k: nat, acquired: bool)
    requires SumAttempts(attempts) == |called| && a.attempts == if acquired then 1 else 0
    ensures SumAttempts(attempts + [a]) == |called + if acquired then [k] else []|
  {
    assert (attempts + [a])[..|attempts|] == attempts;
  }

  /** A success entry is the last one, and there is one exactly when the result is ok. */
  lemma SuccessIsLast(w: World, n: nat, i: nat)
    requires i < n <= |w.candidates| && forall j | 0 <= j < n - 1 :: GoesOn(w, j)
    ensures Attempts(w, n)[i].outcome.Success? <==> i == n - 1 && VisitOf(w, n - 1).Obtained?
  {
    if i < n - 1 {
      assert GoesOn(w, i);
    }
  }

  /** The failure code on the receipt is the one in the last ledger entry, unless that entry
      records a missing broker the loop passed over: then the receipt names the failure
      remembered from an earlier candidate, or a generic one, and may disagree. */
  lemma ReceiptNamesLastFailure(w: World, n: nat)
    requires 0 < n <= |w.candidates| && !VisitOf(w, n - 1).Obtained?
    requires forall i | 0 <= i < n :: VisitOf(w, i).Refused? || VisitOf(w, i).Failed? ==> VisitOf(w, i).failure.code != ""
    ensures ReceiptOf(Attempts(w, n), Some(Reported(w, n).code)).failureCode == Attempts(w, n)[n - 1].failureCode <==>
              !(VisitOf(w, n - 1).NoBroker? && w.candidates[n - 1].accessMode.Either?)
              || (Remembered(w, n).Some? && Take(Remembered(w, n).value.code, 120) == NO_BROKER.code)
  {
    RememberedNonEmpty(w, n);
  }

  /** A first candidate that fails and a second, of either access, passed over for want of a
      broker: the receipt names the first one's failure under the second one's entry. */
  lemma ReceiptCanDisagree(w: World, failure: Failure)
    requires |w.candidates| == 2 && w.candidates[0].accessMode.Public? && w.candidates[1].accessMode.Either?
    requires !w.hasBroker && w.hasConnection && w.acquire(0) == Fails(failure) && failure.code == "provider_timeout"
    ensures Tried(w, 2) && Reported(w, 2) == failure
    ensures ReceiptOf(Attempts(w, 2), Some(failure.code)).failureCode != Attempts(w, 2)[1].failureCode
  {
    assert VisitOf(w, 0) == Failed(failure) && VisitOf(w, 1) == NoBroker;
    assert Remembered(w, 1) == Some(failure) && Remembered(w, 2) == Remembered(w, 1);
    ReceiptNamesLastFailure(w, 2);
    assert NO_BROKER.code[0] == 'c' && failure.code[0] == 'p';
  }

  lemma {:induction false} RememberedNonEmpty(w: World, n: nat)
    requires n <= |w.candidates|
    requires forall i | 0 <= i < n :: VisitOf(w, i).Refused? || VisitOf(w, i).Failed? ==> VisitOf(w, i).failure.code != ""
    ensures Remembered(w, n).Some? ==> Remembered(w, n).value.code != ""
  {
    if n > 0 {
      assert VisitOf(w, n - 1).Refused? || VisitOf(w, n - 1).Failed? ==> VisitOf(w, n - 1).failure.code != "";
      RememberedNonEmpty(w, n - 1);
    }
  }

  // ----- collectMetrics -----

  /** What a collector hands back; only an object bundle can carry evidence. */
  datatype Raw = Object(content: string) | NotObject

  datatype Collected = Bundle(raw: Raw) | CollectFails(failure: Failure)

  datatype MetricsWorld = MetricsWorld(
    candidates: seq<Adapter>,
    hasBroker: bool,
    hasConnection: bool,
    authorize: nat -> Access,
    collect: (nat, nat) -> Collected,
    retryLimit: real)
  {
    /** The constructor clamps the configured limit. */
    ghost predicate Valid() { 0.0 <= retryLimit <= 2.0 }
  }

  /** The allowed limit nearest to the configured one. */
  function ClampRetryLimit(configured: real): (limit: real)
    ensures 0.0 <= limit <= 2.0
    ensures 0.0 <= configured <= 2.0 ==> limit == configured
    ensures forall other | 0.0 <= other <= 2.0 :: Distance(configured, limit) <= Distance(configured, other)
  {
    var capped := if configured < 2.0 then configured else 2.0;
    if capped < 0.0 then 0.0 else capped
  }

  function Distance(a: real, b: real): real {
    if a < b then b - a else a - b
  }

  /** An entry of the metrics ledger. `candidate` is its adapter's position; attempt 0
      stands for a connection that was not to be had. */
  datatype MetricsAttempt = MetricsAttempt(candidate: nat, attempt: nat, failure: Option<Failure>) {
    predicate Succeeded() { failure.None? }
  }

  datatype Evidence = Evidence(adapterId: string, attempts: nat, fallbackUsed: bool, priorAttempts: seq<MetricsAttempt>)

  datatype MetricsResult =
    | Metrics(raw: Raw, evidence: Option<Evidence>)
    | NoMetrics(failure: Failure, routeAttempts: seq<MetricsAttempt>)

  /** `metricsBundleWithRouteEvidence` */
  function WithEvidence(raw: Raw, evidence: Evidence): MetricsResult {
    Metrics(raw, if raw.Object? then Some(evidence) else None)
  }

  /** Why candidate `c` is not called at all, if it is not. */
  function Unconnected(w: MetricsWorld, c: nat): Option<Failure>
    requires c < |w.candidates|
  {
    if !NeedsConnection(w.candidates[c], w.hasConnection) then None
    else if !w.hasBroker then Some(NO_BROKER)
    else
      match w.authorize(c)
      case Granted => None
      case Denied(failure) => Some(failure)
  }

  /** After attempt `a` failed, the same candidate is called again. */
  predicate Repeats(w: MetricsWorld, failure: Failure, a: nat) {
    failure.action == RETRY && (a as real) + 1.0 <= w.retryLimit + 1.0
  }

  function EntryOf(w: MetricsWorld, c: nat, a: nat): MetricsAttempt
    requires c < |w.candidates|
  {
    if a == 0 then MetricsAttempt(c, 0, Unconnected(w, c))
    else
      match w.collect(c, a)
      case Bundle(_) => MetricsAttempt(c, a, None)
      case CollectFails(failure) => MetricsAttempt(c, a, Some(failure))
  }

  /** Where the loop starts with a candidate. */
  function FirstAttempt(w: MetricsWorld, c: nat): nat
    requires c < |w.candidates|
  {
    if Unconnected(w, c).Some? then 0 else 1
  }

  /** The entry after a failed one: the same candidate's next attempt after a failure worth
      retrying while attempts are left, otherwise the next candidate's first. */
  ghost predicate Follows(w: MetricsWorld, e: MetricsAttempt, next: MetricsAttempt)
    requires next.candidate < |w.candidates|
  {
    && e.failure.Some?
    && next == EntryOf(w, next.candidate, next.attempt)
    && if e.attempt > 0 && Repeats(w, e.failure.value, e.attempt)
       then next.candidate == e.candidate && next.attempt == e.attempt + 1
       else next.candidate == e.candidate + 1 && next.attempt == FirstAttempt(w, next.candidate)
  }

  /** A ledger the loops can have written: begun at the first candidate, each entry following
      the one before it. */
  ghost predicate Ledger(w: MetricsWorld, log: seq<MetricsAttempt>) {
    && (forall i | 0 <= i < |log| :: log[i].candidate < |w.candidates|)
    && (log != [] ==> 0 < |w.candidates| && log[0] == EntryOf(w, 0, FirstAttempt(w, 0)))
    && (forall i | 0 < i < |log| :: Follows(w, log[i - 1], log[i]))
  }

  /** Nothing is left to try after the ledger. */
  ghost predicate Exhausted(w: MetricsWorld, log: seq<MetricsAttempt>) {
    if log == [] then w.candidates == []
    else
      var last := log[|log| - 1];
      && last.candidate == |w.candidates| - 1
      && last.failure.Some?
      && (last.attempt > 0 ==> !Repeats(w, last.failure.value, last.attempt))
  }

  /** The ledger's entries that record a collector call. */
  function CallsIn(log: seq<MetricsAttempt>): seq<(nat, nat)> {
    if log == [] then []
    else
      var last := log[|log| - 1];
      CallsIn(log[..|log| - 1]) + (if last.attempt > 0 then [(last.candidate, last.attempt)] else [])
  }

  lemma CallsGrow(log: seq<MetricsAttempt>, e: MetricsAttempt)
    ensures CallsIn(log + [e]) == CallsIn(log) + (if e.attempt > 0 then [(e.candidate, e.attempt)] else [])
  {
    assert (log + [e])[..|log|] == log;
  }

  lemma LedgerGrows(w: MetricsWorld, log: seq<MetricsAttempt>, e: MetricsAttempt)
    requires Ledger(w, log) && e.candidate < |w.candidates|
    requires if log == [] then e == EntryOf(w, 0, FirstAttempt(w, 0)) else Follows(w, log[|log| - 1], e)
    ensures Ledger(w, log + [e])
  {
  }

  /** Everything tried before candidate `c` has failed for good. */
  ghost predicate Before(w: MetricsWorld, log: seq<MetricsAttempt>, c: nat) {
    && Ledger(w, log)
    && if log == [] then c == 0
       else
         var last := log[|log| - 1];
         && c == last.candidate + 1
         && last.failure.Some?
         && (last.attempt > 0 ==> !Repeats(w, last.failure.value, last.attempt))
  }

  /** The last entry succeeded, and an object bundle carries the entries before it. */
  ghost predicate Delivered(w: MetricsWorld, log: seq<MetricsAttempt>, r: MetricsResult)
    requires log != [] && log[|log| - 1].candidate < |w.candidates|
  {
    var last := log[|log| - 1];
    && last.Succeeded()
    && r.Metrics?
    && w.collect(last.candidate, last.attempt) == Bundle(r.raw)
    && r.evidence ==
         if r.raw.Object?
         then Some(Evidence(w.candidates[last.candidate].id, last.attempt, last.candidate > 0, log[..|log| - 1]))
         else None
  }

  /** The two loops. The ledger is one the rules of `Ledger` allow; on success its last entry
      alone is a success and the evidence in an object bundle is everything before it, in
      order; otherwise every candidate was tried until nothing was left. */
  method CollectMetrics(w: MetricsWorld) returns (r: MetricsResult, log: seq<MetricsAttempt>, calls: seq<(nat, nat)>)
    requires w.Valid()
    ensures Ledger(w, log) && calls == CallsIn(log)
    ensures r.Metrics? ==> log != [] && log[|log| - 1].candidate < |w.candidates| && Delivered(w, log, r)
    ensures r.NoMetrics? ==>
              && r.routeAttempts == log
              && Exhausted(w, log)
              && r.failure == (if log == [] then NO_CHANNEL else log[|log| - 1].failure.value)
  {
    log, calls := [], [];
    if |w.candidates| == 0 {
      return NoMetrics(NO_CHANNEL, []), log, calls;
    }
    var routeAttempts: seq<MetricsAttempt> := [];
    var lastFailure: Option<Failure> := None;
    for candidateIndex := 0 to |w.candidates|
      invariant log == routeAttempts && Before(w, log, candidateIndex) && calls == CallsIn(log)
      invariant log != [] ==> lastFailure == log[|log| - 1].failure
    {
      var adapter := w.candidates[candidateIndex];
      var unconnected := Connect(w, candidateIndex);
      if unconnected.Some? {
        var entry := MetricsAttempt(candidateIndex, 0, unconnected);
        LedgerGrows(w, log, entry);
        CallsGrow(log, entry);
        lastFailure := unconnected;
        routeAttempts := routeAttempts + [entry];
        log := routeAttempts;
        continue;
      }
      var collected;
      collected, routeAttempts, calls := TryCollector(w, candidateIndex, routeAttempts, calls);
      log := routeAttempts;
      if collected.Some? {
        r := collected.value;
        return;
      }
      lastFailure := routeAttempts[|routeAttempts| - 1].failure;
    }
    var finalFailure := if lastFailure.Some? then lastFailure.value else UNAVAILABLE;
    r := NoMetrics(finalFailure, routeAttempts);
  }

  method Connect(w: MetricsWorld, c: nat) returns (failure: Option<Failure>)
    requires c < |w.candidates|
    ensures failure == Unconnected(w, c)
  {
    var adapter := w.candidates[c];
    failure := None;
    if adapter.accessMode.Authorized? || (adapter.accessMode.Either? && w.hasConnection) {
      if !w.hasBroker {
        return Some(NO_BROKER);
      }
      var access := w.authorize(c);
      if access.Denied? {
        failure := Some(access.failure);
      }
    }
  }

  /** The inner loop, over one connected candidate's attempts. */
  method TryCollector(w: MetricsWorld, c: nat, log0: seq<MetricsAttempt>, calls0: seq<(nat, nat)>)
    returns (collected: Option<MetricsResult>, log: seq<MetricsAttempt>, calls: seq<(nat, nat)>)
    requires w.Valid() && c < |w.candidates| && Unconnected(w, c).None?
    requires Before(w, log0, c) && calls0 == CallsIn(log0)
    ensures Ledger(w, log) && calls == CallsIn(log) && log != [] && log[|log| - 1].candidate == c
    ensures collected.Some? ==> Delivered(w, log, collected.value)
    ensures collected.None? ==> Before(w, log, c + 1)
  {
    log, calls, collected := log0, calls0, None;
    var maximumAttempts := w.retryLimit + 1.0;
    var attempt := 1;
    while attempt as real <= maximumAttempts
      invariant 1 <= attempt && Ledger(w, log) && calls == CallsIn(log)
      invariant if attempt == 1 then log == log0
                else
                  && log != []
                  && log[|log| - 1].candidate == c && log[|log| - 1].attempt == attempt - 1
                  && log[|log| - 1].failure.Some?
                  && log[|log| - 1].failure.value.action == RETRY
      decreases 4 - attempt
    {
      var reply := w.collect(c, attempt);
      var entry := MetricsAttempt(c, attempt, if reply.Bundle? then None else Some(reply.failure));
      var delivered := if reply.CollectFails? then None
                       else Some(WithEvidence(reply.raw, Evidence(w.candidates[c].id, attempt, c > 0, log)));
      LedgerGrows(w, log, entry);
      CallsGrow(log, entry);
      assert (log + [entry])[..|log|] == log;
      calls := calls + [(c, attempt)];
      log := log + [entry];
      if reply.Bundle? {
        return delivered, log, calls;
      }
      if reply.failure.action != RETRY || attempt as real >= maximumAttempts {
        return None, log, calls;
      }
      attempt := attempt + 1;
    }
  }

  /** A collector can be called at candidate `c`. */
  ghost predicate Connected(w: MetricsWorld, c: nat)
    requires c < |w.candidates|
  {
    var mode := w.candidates[c].accessMode;
    mode.Authorized? || (mode.Either? && w.hasConnection) ==> w.hasBroker && w.authorize(c).Granted?
  }

  /** The entry says what happened. */
  ghost predicate MetricsEntryTells(w: MetricsWorld, e: MetricsAttempt)
    requires e.candidate < |w.candidates|
  {
    if !Connected(w, e.candidate) then
      && e.attempt == 0
      && e.failure == Some(if w.hasBroker then w.authorize(e.candidate).failure else Failure("connection_broker_unavailable", "manual_review"))
    else
      && 1 <= e.attempt <= w.retryLimit.Floor + 1
      && if w.collect(e.candidate, e.attempt).Bundle? then e.failure.None?
         else e.failure == Some(w.collect(e.candidate, e.attempt).failure)
  }

  /** The same candidate is called again: its collector failed in a way worth retrying, and was
      called fewer times than the limit and one more. */
  ghost predicate MustRepeat(w: MetricsWorld, e: MetricsAttempt) {
    && e.failure.Some? && e.failure.value.action == "retry"
    && 1 <= e.attempt < w.retryLimit.Floor + 1
  }

  ghost predicate ComesAfter(w: MetricsWorld, e: MetricsAttempt, next: MetricsAttempt) {
    && e.failure.Some?
    && if MustRepeat(w, e) then next.candidate == e.candidate && next.attempt == e.attempt + 1
       else next.candidate == e.candidate + 1 && next.attempt <= 1
  }

  /** The ledger, read off the request alone: it begins at the first candidate, every entry says
      what happened, and after a failure comes the same candidate's next attempt if it must
      be repeated, else the next candidate. */
  lemma {:induction false} MetricsLedgerTells(w: MetricsWorld, log: seq<MetricsAttempt>)
    requires w.Valid() && Ledger(w, log)
    ensures log != [] ==> log[0].candidate == 0 && log[0].attempt <= 1
    ensures forall i | 0 <= i < |log| :: log[i].candidate < |w.candidates| && MetricsEntryTells(w, log[i])
    ensures forall i | 0 < i < |log| :: ComesAfter(w, log[i - 1], log[i])
    ensures Exhausted(w, log) <==>
              if log == [] then w.candidates == []
              else
                var last := log[|log| - 1];
                last.candidate == |w.candidates| - 1 && last.failure.Some? && !MustRepeat(w, last)
  {
    if log != [] {
      var before, last := log[..|log| - 1], log[|log| - 1];
      MetricsLedgerTells(w, before);
      assert forall i | 0 <= i < |before| :: log[i] == before[i];
      if before != [] {
        assert Follows(w, before[|before| - 1], last);
      }
    }
  }

  /** With `k` attempts for each candidate, the calls so far do not exceed what the candidates
      before the last and its attempts so far account for. */
  ghost predicate Bounded(log: seq<MetricsAttempt>, k: nat) {
    if log == [] then |CallsIn(log)| == 0
    else
      var last := log[|log| - 1];
      last.attempt <= k && |CallsIn(log)| <= last.candidate * k + last.attempt
  }

  lemma BoundGrows(w: MetricsWorld, before: seq<MetricsAttempt>, last: MetricsAttempt, k: nat)
    requires w.Valid() && k == w.retryLimit.Floor + 1 && Bounded(before, k) && last.candidate < |w.candidates|
    requires if before == [] then last == EntryOf(w, 0, FirstAttempt(w, 0)) else Follows(w, before[|before| - 1], last)
    ensures Bounded(before + [last], k)
  {
    CallsGrow(before, last);
    if before != [] {
      assert before[|before| - 1].candidate >= 0;
      Distributes(before[|before| - 1].candidate, k);
    }
  }

  lemma {:induction false} AllBounded(w: MetricsWorld, log: seq<MetricsAttempt>)
    requires w.Valid() && Ledger(w, log)
    ensures Bounded(log, w.retryLimit.Floor + 1)
  {
    if log != [] {
      var before, last := log[..|log| - 1], log[|log| - 1];
      AllBounded(w, before);
      BoundGrows(w, before, last, w.retryLimit.Floor + 1);
      assert log == before + [last];
    }
  }

  /** In every run, the collectors together are called at most as often as there are
      candidates times the attempts the clamped limit allows each. */
  lemma CallsBounded(w: MetricsWorld, log: seq<MetricsAttempt>)
    requires w.Valid() && Ledger(w, log)
    ensures |CallsIn(log)| <= |w.candidates| * (w.retryLimit.Floor + 1)
    ensures Bounded(log, w.retryLimit.Floor + 1)
  {
    var k := w.retryLimit.Floor + 1;
    AllBounded(w, log);
    if log != [] {
      Distributes(log[|log| - 1].candidate, k);
      MultiplyMonotone(log[|log| - 1].candidate + 1, |w.candidates|, k);
    } else {
      MultiplyMonotone(0, |w.candidates|, k);
    }
  }

  lemma Distributes(a: nat, k: nat)
    ensures (a + 1) * k == a * k + k
  {
  }

  lemma MultiplyMonotone(a: nat, b: nat, k: nat)
    requires a <= b
    ensures a * k <= b * k
  {
  }
}
