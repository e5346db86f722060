/** `ConnectionStore`: the account records kept in a private JSON file, and the rule that
    each provider has at most one default account and that a default account is active.

    A JavaScript `Map` is a sequence of records in insertion order. The clock, fresh ids and
    the verdict of the input validators come in as parameters of each change. How `init` cleans
    a stored verification is a parameter too; the results hold whatever it does, and
    `CleanVerification` is what it does. */
module ConnectionStore {
  import opened Wrappers
  import opened PrivateJsonStore
  import opened StoredVerification

  /** `isDefault` as found in a file: `true`, `false`, or anything else (usually absent). */
  datatype Flag = Yes | No | Other

  /** What an account may be used for, and by whom. */
  datatype Grant = Grant(operations: seq<string>, dataScope: seq<string>, agentIds: seq<string>)

  datatype Connection = Connection(
    connectionId: string,
    provider: string,
    status: string,
    isDefault: Flag,
    credentialKind: string,
    accountAlias: string,
    credentialRef: string,
    cookieBridgeClientId: string,
    grant: Grant,
    expiresAt: Option<nat>,
    lastHealthAt: Option<nat>,
    lastVerification: Verification,
    createdAt: nat,
    updatedAt: nat)

  const ACTIVE := "active"
  const VALID_STATUSES := {"active", "expiring", "expired", "revoked", "disabled", "error"}
  const COOKIE_BRIDGE := "cookie_bridge"

  type Connections = seq<Connection>

  predicate IsActive(c: Connection) { c.status == ACTIVE }

  predicate IsDefault(c: Connection) { c.isDefault == Yes }

  /** At most one default per provider, and every default active. */
  ghost predicate DefaultsOk(cs: Connections) {
    && (forall i | 0 <= i < |cs| :: IsDefault(cs[i]) ==> IsActive(cs[i]))
    && (forall i, j | 0 <= i < j < |cs| && IsDefault(cs[i]) && IsDefault(cs[j]) ::
          cs[i].provider != cs[j].provider)
  }

  ghost predicate DistinctIds(cs: Connections) {
    forall i, j | 0 <= i < j < |cs| :: cs[i].connectionId != cs[j].connectionId
  }

  // ----- Map operations -----

  /** `Map.get`, as a position. */
  function Find(cs: Connections, id: string): (r: Option<nat>)
    ensures r.Some? ==> r.value < |cs| && cs[r.value].connectionId == id
    ensures r.None? ==> forall i | 0 <= i < |cs| :: cs[i].connectionId != id
  {
    if cs == [] then None
    else if cs[|cs| - 1].connectionId == id then Some(|cs| - 1)
    else Find(cs[..|cs| - 1], id)
  }

  /** `Map.set`: replaces in place, or appends. */
  function Put(cs: Connections, c: Connection): Connections {
    match Find(cs, c.connectionId)
    case Some(i) => cs[i := c]
    case None => cs + [c]
  }

  lemma PutAt(cs: Connections, c: Connection) returns (p: nat)
    ensures var r := Put(cs, c);
            && p < |r| && r[p] == c
            && (if p < |cs| then |r| == |cs| && cs[p].connectionId == c.connectionId
                else |r| == |cs| + 1 && forall i | 0 <= i < |cs| :: cs[i].connectionId != c.connectionId)
            && forall i | 0 <= i < |cs| && i != p :: r[i] == cs[i]
  {
    p := match Find(cs, c.connectionId) case Some(i) => i case None => |cs|;
  }

  // ----- init: what the file is turned into -----

  predicate Eligible(r: Connection) { r.isDefault == Yes && IsActive(r) }

  /** The first record of its provider that may be a default. */
  predicate Elected(records: Connections, k: nat)
    requires k < |records|
  {
    Eligible(records[k]) && forall j | 0 <= j < k && Eligible(records[j]) :: records[j].provider != records[k].provider
  }

  function Normalised(records: Connections, k: nat, clean: Verification -> Verification): Connection
    requires k < |records|
  {
    records[k].(isDefault := if Elected(records, k) then Yes else No,
                lastVerification := clean(records[k].lastVerification))
  }

  function Table(records: Connections, n: nat, clean: Verification -> Verification): Connections
    requires n <= |records|
  {
    if n == 0 then [] else Put(Table(records, n - 1, clean), Normalised(records, n - 1, clean))
  }

  function Claimed(records: Connections, n: nat): set<string>
    requires n <= |records|
  {
    set k | 0 <= k < n && Elected(records, k) :: records[k].provider
  }

  /** The only active account of its provider. */
  predicate Sole(cs: Connections, i: nat)
    requires i < |cs|
  {
    IsActive(cs[i]) &&
    forall j | 0 <= j < |cs| && j != i && IsActive(cs[j]) :: cs[j].provider != cs[i].provider
  }

  function Promoted(cs: Connections, claimed: set<string>): Connections {
    seq(|cs|, i requires 0 <= i < |cs| =>
      if Sole(cs, i) && cs[i].provider !in claimed then cs[i].(isDefault := Yes) else cs[i])
  }

  function Initialised(records: Connections, clean: Verification -> Verification): Connections {
    Promoted(Table(records, |records|, clean), Claimed(records, |records|))
  }

  ghost predicate TableInv(t: Connections, claimed: set<string>) {
    && DistinctIds(t)
    && DefaultsOk(t)
    && forall i | 0 <= i < |t| :: t[i].isDefault != Other && (IsDefault(t[i]) ==> t[i].provider in claimed)
  }

  lemma PutKeeps(t: Connections, claimed: set<string>, c: Connection, claimed': set<string>)
    requires TableInv(t, claimed) && claimed <= claimed' && c.isDefault != Other
    requires IsDefault(c) ==> IsActive(c) && c.provider !in claimed && c.provider in claimed'
    ensures TableInv(Put(t, c), claimed')
  {
    var p := PutAt(t, c);
  }

  lemma {:induction false} TableOk(records: Connections, n: nat, clean: Verification -> Verification)
    requires n <= |records|
    ensures TableInv(Table(records, n, clean), Claimed(records, n))
  {
    if n > 0 {
      TableOk(records, n - 1, clean);
      InitStep(records, n - 1, clean);
      PutKeeps(Table(records, n - 1, clean), Claimed(records, n - 1), Normalised(records, n - 1, clean), Claimed(records, n));
    }
  }

  /** Whatever the file holds, duplicate ids and malformed flags included, `init` leaves at
      most one default per provider, every default active, and every flag a boolean. */
  lemma InitialisedOk(records: Connections, clean: Verification -> Verification)
    ensures var cs := Initialised(records, clean);
            DefaultsOk(cs) && DistinctIds(cs) && forall i | 0 <= i < |cs| :: cs[i].isDefault != Other
  {
    TableOk(records, |records|, clean);
  }

  /** A later record among the first `n` has the same id. */
  ghost predicate Overwritten(records: Connections, k: nat, n: nat)
    requires k < n <= |records|
  {
    exists j | k < j < n :: records[j].connectionId == records[k].connectionId
  }

  /** `c` is the normal form of record `k`, the last of the first `n` with its id. */
  ghost predicate IsSource(records: Connections, n: nat, c: Connection, k: nat, clean: Verification -> Verification)
    requires n <= |records|
  {
    k < n && c == Normalised(records, k, clean) && !Overwritten(records, k, n)
  }

  ghost predicate Sources(records: Connections, n: nat, t: Connections, source: seq<nat>, clean: Verification -> Verification)
    requires n <= |records|
  {
    |source| == |t| && forall i | 0 <= i < |t| :: IsSource(records, n, t[i], source[i], clean)
  }

  ghost predicate Covers(records: Connections, n: nat, source: seq<nat>)
    requires n <= |records|
  {
    forall k | 0 <= k < n && !Overwritten(records, k, n) :: k in source
  }

  lemma {:induction false} TableSources(records: Connections, n: nat, clean: Verification -> Verification) returns (source: seq<nat>)
    requires n <= |records|
    ensures Sources(records, n, Table(records, n, clean), source, clean)
    ensures Covers(records, n, source)
  {
    if n == 0 {
      source := [];
    } else {
      var before := TableSources(records, n - 1, clean);
      TableOk(records, n - 1, clean);
      source := SourcesGrow(records, n, Table(records, n - 1, clean), before, clean);
    }
  }

  lemma SourcesGrow(records: Connections, n: nat, t: Connections, before: seq<nat>, clean: Verification -> Verification)
    returns (source: seq<nat>)
    requires 0 < n <= |records| && DistinctIds(t)
    requires Sources(records, n - 1, t, before, clean) && Covers(records, n - 1, before)
    ensures Sources(records, n, Put(t, Normalised(records, n - 1, clean)), source, clean)
    ensures Covers(records, n, source)
  {
    var c := Normalised(records, n - 1, clean);
    var p := PutAt(t, c);
    source := if p < |t| then before[p := n - 1] else before + [n - 1];
    forall i | 0 <= i < |t| && i != p ensures IsSource(records, n, t[i], before[i], clean) {
      SourceStays(records, n, t[i], before[i], clean);
    }
    SourcesPut(records, n, t, before, Put(t, c), p, clean);
    assert p < |t| ==> IsSource(records, n - 1, t[p], before[p], clean);
    CoversGrow(records, n, before, p);
  }

  lemma SourcesPut(records: Connections, n: nat, t: Connections, before: seq<nat>, after: Connections, p: nat, clean: Verification -> Verification)
    requires 0 < n <= |records| && |before| == |t| && p <= |t| && |after| == (if p < |t| then |t| else |t| + 1)
    requires after[p] == Normalised(records, n - 1, clean)
    requires forall i | 0 <= i < |t| && i != p :: after[i] == t[i] && IsSource(records, n, t[i], before[i], clean)
    ensures Sources(records, n, after, if p < |t| then before[p := n - 1] else before + [n - 1], clean)
  {
  }

  lemma CoversGrow(records: Connections, n: nat, before: seq<nat>, p: nat)
    requires 0 < n <= |records| && Covers(records, n - 1, before) && p <= |before|
    requires p < |before| ==> before[p] < n - 1 && records[before[p]].connectionId == records[n - 1].connectionId
    ensures Covers(records, n, if p < |before| then before[p := n - 1] else before + [n - 1])
  {
    var source := if p < |before| then before[p := n - 1] else before + [n - 1];
    assert source[p] == n - 1;
    forall k | 0 <= k < n - 1 && !Overwritten(records, k, n)
      ensures k in source
    {
      assert records[n - 1].connectionId != records[k].connectionId;
      assert !Overwritten(records, k, n - 1);
      KeepsSource(before, p, n - 1, k);
    }
  }

  lemma SourceStays(records: Connections, n: nat, c: Connection, k: nat, clean: Verification -> Verification)
    requires 0 < n <= |records| && IsSource(records, n - 1, c, k, clean)
    requires records[n - 1].connectionId != c.connectionId
    ensures IsSource(records, n, c, k, clean)
  {
  }

  lemma KeepsSource(before: seq<nat>, p: nat, last: nat, k: nat)
    requires p <= |before| && k in before && (p < |before| ==> before[p] != k)
    ensures k in (if p < |before| then before[p := last] else before + [last])
  {
    var after := if p < |before| then before[p := last] else before + [last];
    var i :| 0 <= i < |before| && before[i] == k;
    assert after[i] == k;
  }

  /** After `init`, the sole active account of a provider is its default exactly when the
      record elected for that provider, if any, was not overwritten by a later record with
      the same id. With distinct ids nothing is overwritten, so it always is. */
  lemma SoleActiveIsDefaultIff(records: Connections, clean: Verification -> Verification, i: nat)
    requires i < |Initialised(records, clean)| && Sole(Initialised(records, clean), i)
    ensures IsDefault(Initialised(records, clean)[i]) <==>
              !LostDefault(records, Initialised(records, clean)[i].provider)
    ensures DistinctIds(records) ==> IsDefault(Initialised(records, clean)[i])
  {
    var n, t := |records|, Table(records, |records|, clean);
    var source := TableSources(records, n, clean);
    PromotedSole(t, Claimed(records, n), i);
    if k :| 0 <= k < n && Elected(records, k) && records[k].provider == t[i].provider {
      assert t[i].provider in Claimed(records, n);
      if Overwritten(records, k, n) {
        assert LostDefault(records, t[i].provider);
        assert source[i] != k;
        ElectedOnce(records, k, source[i]);
      } else {
        var j :| 0 <= j < |source| && source[j] == k;
        assert t[j] == Normalised(records, k, clean);
        assert j == i;
        forall m | 0 <= m < n && Elected(records, m) && records[m].provider == t[i].provider ensures m == k {
          ElectedOnce(records, k, m);
        }
      }
    } else {
      assert t[i].provider !in Claimed(records, n);
    }
  }

  lemma PromotedSole(cs: Connections, claimed: set<string>, i: nat)
    requires i < |cs| && Sole(Promoted(cs, claimed), i)
    ensures Sole(cs, i)
  {
    var r := Promoted(cs, claimed);
    assert forall j | 0 <= j < |cs| :: r[j].provider == cs[j].provider && r[j].status == cs[j].status;
  }

  lemma ElectedOnce(records: Connections, k: nat, m: nat)
    requires k < |records| && m < |records|
    ensures Elected(records, k) && Elected(records, m) && records[k].provider == records[m].provider ==> k == m
  {
  }

  /** The record elected for the provider was overwritten by a later one with its id. */
  ghost predicate LostDefault(records: Connections, provider: string) {
    exists k | 0 <= k < |records| ::
      Elected(records, k) && records[k].provider == provider && Overwritten(records, k, |records|)
  }

  /** Two records with one id: the elected default is overwritten and the provider's only
      active account is left without the flag. */
  lemma OverwrittenDefaultIsLost(r: Connection)
    requires Eligible(r) && r.lastVerification == NoVerification
    ensures Initialised([r, r], CleanVerification) == [r.(isDefault := No)]
  {
    var records := [r, r];
    assert Elected(records, 0) && !Elected(records, 1);
    TwoOfOneId(records, r, r.(isDefault := No), CleanVerification);
    assert records[0].provider in Claimed(records, 2);
  }

  lemma TwoOfOneId(records: Connections, first: Connection, second: Connection, clean: Verification -> Verification)
    requires |records| == 2 && first == Normalised(records, 0, clean) && second == Normalised(records, 1, clean)
    requires first.connectionId == second.connectionId
    ensures Table(records, 2, clean) == [second]
  {
    var none: Connections := [];
    assert Table(records, 1, clean) == Put(none, first) == [first];
    assert Find([first], second.connectionId) == Some(0);
  }

  /** The form `init` leaves ids and flags in. */
  ghost predicate Regular(cs: Connections) {
    DefaultsOk(cs) && DistinctIds(cs) && forall i | 0 <= i < |cs| :: cs[i].isDefault != Other
  }

  function Recleaned(cs: Connections, clean: Verification -> Verification): Connections {
    seq(|cs|, i requires 0 <= i < |cs| => cs[i].(lastVerification := clean(cs[i].lastVerification)))
  }

  lemma {:induction false} RegularTable(cs: Connections, n: nat, clean: Verification -> Verification)
    requires n <= |cs| && Regular(cs)
    ensures Table(cs, n, clean) == Recleaned(cs, clean)[..n]
  {
    if n > 0 {
      RegularTable(cs, n - 1, clean);
      RegularIsNormal(cs, n - 1, clean);
      PutNew(Recleaned(cs, clean), n - 1);
    }
  }

  lemma RegularIsNormal(cs: Connections, k: nat, clean: Verification -> Verification)
    requires k < |cs| && Regular(cs)
    ensures Normalised(cs, k, clean) == Recleaned(cs, clean)[k]
    ensures DistinctIds(Recleaned(cs, clean))
  {
  }

  lemma PutNew(cs: Connections, k: nat)
    requires k < |cs| && DistinctIds(cs)
    ensures Put(cs[..k], cs[k]) == cs[..k + 1]
  {
    assert Find(cs[..k], cs[k].connectionId) == None;
  }

  /** On regular accounts, `init` flags the sole active ones and cleans the verifications. */
  lemma InitOfRegular(cs: Connections, clean: Verification -> Verification, i: nat)
    requires Regular(cs) && i < |cs|
    ensures |Initialised(cs, clean)| == |cs|
    ensures Initialised(cs, clean)[i] ==
              cs[i].(isDefault := if Sole(cs, i) then Yes else cs[i].isDefault, lastVerification := clean(cs[i].lastVerification))
  {
    RegularTable(cs, |cs|, clean);
    var t := Recleaned(cs, clean);
    assert t[..|cs|] == t;
    assert forall j | 0 <= j < |cs| :: t[j].provider == cs[j].provider && IsActive(t[j]) == IsActive(cs[j]);
    assert Sole(t, i) <==> Sole(cs, i);
    if Sole(cs, i) && cs[i].provider in Claimed(cs, |cs|) {
      var k :| 0 <= k < |cs| && Elected(cs, k) && cs[k].provider == cs[i].provider;
      assert k == i;
    }
  }

  /** One account after `init` and after `init` again on what that wrote. */
  lemma InitTwiceAt(records: Connections, clean: Verification -> Verification, i: nat)
    requires i < |Initialised(records, clean)|
    ensures var cs := Initialised(records, clean);
            var again := Initialised(cs, clean);
            && |again| == |cs|
            && (again[i].isDefault == cs[i].isDefault <==> (Sole(cs, i) ==> !LostDefault(records, cs[i].provider)))
            && again[i] == cs[i].(isDefault := again[i].isDefault, lastVerification := clean(cs[i].lastVerification))
  {
    InitialisedOk(records, clean);
    InitOfRegular(Initialised(records, clean), clean, i);
    if Sole(Initialised(records, clean), i) {
      SoleActiveIsDefaultIff(records, clean, i);
    }
  }

  /** No sole active account lost its flag to a later record with its id. */
  ghost predicate NoneLost(records: Connections, cs: Connections) {
    forall i | 0 <= i < |cs| && Sole(cs, i) :: !LostDefault(records, cs[i].provider)
  }

  /** What `init` writes back is a fixed point of `init` exactly when no sole active account
      lost its flag and every cleaned verification is clean. Its flags alone are fixed exactly
      under the first condition. */
  lemma InitialisedTwiceIff(records: Connections, clean: Verification -> Verification)
    ensures var cs := Initialised(records, clean);
            Initialised(cs, clean) == cs <==>
              NoneLost(records, cs) && forall i | 0 <= i < |cs| :: clean(cs[i].lastVerification) == cs[i].lastVerification
    ensures var cs := Initialised(records, clean);
            && |Initialised(cs, clean)| == |cs|
            && ((forall i | 0 <= i < |cs| :: Initialised(cs, clean)[i].isDefault == cs[i].isDefault) <==> NoneLost(records, cs))
  {
    var cs := Initialised(records, clean);
    var again := Initialised(cs, clean);
    InitialisedOk(records, clean);
    RegularTable(cs, |cs|, clean);
    forall i | 0 <= i < |cs|
      ensures again[i].isDefault == cs[i].isDefault <==> (Sole(cs, i) ==> !LostDefault(records, cs[i].provider))
      ensures again[i] == cs[i].(isDefault := again[i].isDefault, lastVerification := clean(cs[i].lastVerification))
    {
      InitTwiceAt(records, clean, i);
    }
    SameWhenAllSame(again, cs);
  }

  /** Read off the file alone: record `k` is what becomes of its id, and no other record of
      that kind is active for its provider. */
  ghost predicate SoleSurvivor(records: Connections, k: nat)
    requires k < |records|
  {
    && !Overwritten(records, k, |records|) && IsActive(records[k])
    && forall j | 0 <= j < |records| && j != k && !Overwritten(records, j, |records|) && IsActive(records[j]) ::
         records[j].provider != records[k].provider
  }

  lemma SoleSource(records: Connections, clean: Verification -> Verification, source: seq<nat>, i: nat)
    requires Sources(records, |records|, Table(records, |records|, clean), source, clean) && Covers(records, |records|, source)
    requires i < |source|
    ensures |Initialised(records, clean)| == |source| && source[i] < |records|
    ensures Sole(Initialised(records, clean), i) <==> SoleSurvivor(records, source[i])
    ensures Initialised(records, clean)[i].provider == records[source[i]].provider
    ensures Initialised(records, clean)[i].lastVerification == clean(records[source[i]].lastVerification)
  {
    var t, cs := Table(records, |records|, clean), Initialised(records, clean);
    TableOk(records, |records|, clean);
    assert IsSource(records, |records|, t[i], source[i], clean);
    forall j | 0 <= j < |source|
      ensures source[j] < |records| && !Overwritten(records, source[j], |records|)
      ensures cs[j].provider == records[source[j]].provider && IsActive(cs[j]) == IsActive(records[source[j]])
      ensures j != i ==> source[j] != source[i]
    {
      assert IsSource(records, |records|, t[j], source[j], clean);
      assert j != i ==> t[j].connectionId != t[i].connectionId;
    }
    if Sole(cs, i) {
      forall j | 0 <= j < |records| && j != source[i] && !Overwritten(records, j, |records|) && IsActive(records[j])
        ensures records[j].provider != records[source[i]].provider
      {
        var m :| 0 <= m < |source| && source[m] == j;
        assert IsActive(cs[m]);
      }
    }
  }

  /** The exact condition on the file, for the program's clean-up: `init` is a fixed point on what
      it writes back if and only if no elected default of a provider whose records leave one
      active account is overwritten, and every record that is not overwritten is well stored. */
  lemma {:induction false} InitialisedTwiceOnRecordsIff(records: Connections)
    ensures var cs := Initialised(records, CleanVerification);
            Initialised(cs, CleanVerification) == cs <==>
              && (forall k | 0 <= k < |records| && SoleSurvivor(records, k) :: !LostDefault(records, records[k].provider))
              && forall k | 0 <= k < |records| && !Overwritten(records, k, |records|) :: WellStored(records[k].lastVerification)
  {
    var n, cs := |records|, Initialised(records, CleanVerification);
    var source := TableSources(records, n, CleanVerification);
    InitialisedTwiceIff(records, CleanVerification);
    forall i | 0 <= i < |source|
      ensures |cs| == |source| && source[i] < n && !Overwritten(records, source[i], n)
      ensures Sole(cs, i) <==> SoleSurvivor(records, source[i])
      ensures cs[i].provider == records[source[i]].provider
      ensures CleanVerification(cs[i].lastVerification) == cs[i].lastVerification <==> WellStored(records[source[i]].lastVerification)
    {
      assert IsSource(records, n, Table(records, n, CleanVerification)[i], source[i], CleanVerification);
      SoleSource(records, CleanVerification, source, i);
      CleanedTwiceIff(records[source[i]].lastVerification);
    }
    forall k | 0 <= k < n && !Overwritten(records, k, n) ensures exists i :: 0 <= i < |source| && source[i] == k {
      assert k in source;
    }
  }

  lemma SameWhenAllSame(a: Connections, b: Connections)
    requires |a| == |b|
    ensures a == b <==> forall i | 0 <= i < |a| :: a[i] == b[i]
  {
  }

  /** Accounts with distinct ids lose no flag. */
  lemma DistinctLoseNone(records: Connections, cs: Connections)
    requires DistinctIds(records)
    ensures NoneLost(records, cs)
  {
  }

  /** Whatever the file, a second `init` settles it: a third changes nothing. */
  lemma InitSettles(records: Connections)
    ensures var twice := Initialised(Initialised(records, CleanVerification), CleanVerification);
            Initialised(twice, CleanVerification) == twice
  {
    var cs := Initialised(records, CleanVerification);
    var twice := Initialised(cs, CleanVerification);
    InitialisedOk(records, CleanVerification);
    DistinctLoseNone(cs, twice);
    InitialisedTwiceIff(cs, CleanVerification);
    RegularTable(cs, |cs|, CleanVerification);
    var source := TableSources(records, |records|, CleanVerification);
    forall i | 0 <= i < |twice|
      ensures CleanVerification(twice[i].lastVerification) == twice[i].lastVerification
    {
      InitOfRegular(cs, CleanVerification, i);
      assert cs[i].lastVerification == CleanVerification(records[source[i]].lastVerification);
      CleanedThrice(records[source[i]].lastVerification);
    }
  }

  /** Neither condition can be dropped: a default lost to a later record with its id, and a
      verification cut just after a space. */
  lemma LostDefaultComesBack(r: Connection)
    requires Eligible(r) && r.lastVerification == NoVerification
    ensures var once := Initialised([r, r], CleanVerification); Initialised(once, CleanVerification) != once
  {
    OverwrittenDefaultIsLost(r);
    InitialisedTwiceIff([r, r], CleanVerification);
    assert Sole([r.(isDefault := No)], 0);
    assert Elected([r, r], 0) && Overwritten([r, r], 0, 2);
  }

  lemma CutLeavesSpace(r: Connection)
    requires r.isDefault != Other && (r.isDefault == Yes ==> IsActive(r))
    requires r.lastVerification == Verification(true, Some(0), seq(99, _ => 'a') + " b", [], "", true)
    ensures DistinctIds([r])
    ensures var once := Initialised([r], CleanVerification); Initialised(once, CleanVerification) != once
  {
    CleaningIsNotIdempotent();
    InitialisedTwiceIff([r], CleanVerification);
    InitOfRegular([r], CleanVerification, 0);
  }

  // ----- The mutations -----

  /** What `validateCookieBridgeConnection` makes of an acceptable input. */
  datatype Definition = Definition(provider: string, accountAlias: string, clientId: string, grant: Grant)

  function CredentialRef(provider: string, clientId: string, id: string): string {
    "cookiebridge:" + provider + ":" + clientId + ":" + id
  }

  function Created(cs: Connections, id: string, d: Definition, now: nat): Connection {
    Connection(id, d.provider, ACTIVE, if HasActive(cs, d.provider) then No else Yes, COOKIE_BRIDGE, d.accountAlias,
               CredentialRef(d.provider, d.clientId, id), d.clientId, d.grant, None, None, NoVerification, now, now)
  }

  /** `input` is none when a reauthorisation's input is refused. */
  datatype Change =
    | Create(newId: string, definition: Definition, now: nat)
    | UpdateStatus(id: string, status: string, now: nat)
    | Reauthorize(id: string, provider: Option<string>, input: Option<Definition>, now: nat)
    | MarkHealth(id: string, now: nat)
    | SetDefault(id: string, now: nat)
    | RecordVerification(id: string, verification: Verification, at: nat)

  predicate HasActive(cs: Connections, provider: string) {
    exists i | 0 <= i < |cs| :: cs[i].provider == provider && IsActive(cs[i])
  }

  /** Another active account of the provider is the default. */
  predicate HasOtherDefault(cs: Connections, c: Connection) {
    exists i | 0 <= i < |cs| ::
      && cs[i].connectionId != c.connectionId
      && cs[i].provider == c.provider
      && IsActive(cs[i])
      && IsDefault(cs[i])
  }

  function MarkDefault(cs: Connections, chosen: Connection, now: nat): Connections {
    seq(|cs|, i requires 0 <= i < |cs| =>
      if cs[i].provider != chosen.provider then cs[i]
      else cs[i].(isDefault := if cs[i].connectionId == chosen.connectionId then Yes else No, updatedAt := now))
  }

  /** The grant stays the old one: it is what the input is validated with. */
  function Reauthorized(cs: Connections, c: Connection, change: Change): Connection
    requires change.Reauthorize? && change.input.Some?
  {
    c.(accountAlias := change.input.value.accountAlias,
       credentialRef := CredentialRef(c.provider, change.input.value.clientId, c.connectionId),
       cookieBridgeClientId := change.input.value.clientId,
       status := ACTIVE,
       isDefault := if HasOtherDefault(cs, c) then c.isDefault else Yes,
       expiresAt := None,
       updatedAt := change.now)
  }

  /** The callback each method hands to `runMutation`, up to its await. */
  function Effected(cs: Connections, change: Change): Effect<Connections> {
    if change.Create? then
      Persists(Put(cs, Created(cs, change.newId, change.definition, change.now)))
    else if Find(cs, change.id).None? then Skips
    else EffectedAt(cs, Find(cs, change.id).value, change)
  }

  function EffectedAt(cs: Connections, i: nat, change: Change): Effect<Connections>
    requires i < |cs| && !change.Create?
  {
    var c := cs[i];
    match change
    case UpdateStatus(_, status, now) =>
      Persists(cs[i := c.(status := status,
                          isDefault := if status != ACTIVE then No else c.isDefault,
                          updatedAt := now)])
    case Reauthorize(_, _, _, _) =>
      if RefusesReauthorization(c, change) then Throws(cs)
      else Persists(cs[i := Reauthorized(cs, c, change)])
    case MarkHealth(_, now) => Persists(cs[i := c.(lastHealthAt := Some(now), updatedAt := now)])
    case SetDefault(_, now) => if !IsActive(c) then Throws(cs) else Persists(MarkDefault(cs, c, now))
    case RecordVerification(_, verification, at) =>
      Persists(cs[i := c.(lastVerification := verification, updatedAt := at)])
  }

  predicate RefusesReauthorization(c: Connection, change: Change)
    requires change.Reauthorize?
  {
    || c.credentialKind != COOKIE_BRIDGE
    || (change.provider != None && change.provider != Some(c.provider))
    || change.input.None?
  }

  function MutationOf(change: Change): Mutation<Connections> {
    cs => Effected(cs, change)
  }

  // ----- What each change does, read off the store before and after -----

  /** Nothing differs but the account at `i`, which has the id. */
  ghost predicate OnlyAt(before: Connections, after: Connections, i: nat, id: string) {
    && |after| == |before| && i < |before| && before[i].connectionId == id
    && forall j | 0 <= j < |before| && j != i :: after[j] == before[j]
  }

  /** The status is the one asked for, an account that is not active is not default, and no other
      field differs. */
  ghost predicate HasStatus(a: Connection, b: Connection, status: string, now: nat) {
    && b.status == status
    && b.isDefault == (if status == ACTIVE then a.isDefault else No)
    && b.updatedAt == now
    && b == a.(status := b.status, isDefault := b.isDefault, updatedAt := b.updatedAt)
  }

  /** An active account with the new alias and credential and no expiry, default unless another
      account of the provider is; no other field differs. */
  ghost predicate IsReauthorized(before: Connections, a: Connection, b: Connection, d: Definition, now: nat) {
    && b.status == ACTIVE && b.accountAlias == d.accountAlias && b.cookieBridgeClientId == d.clientId
    && b.credentialRef == "cookiebridge:" + a.provider + ":" + d.clientId + ":" + a.connectionId
    && b.expiresAt.None? && b.updatedAt == now
    && b.isDefault == (if exists j | 0 <= j < |before| ::
                            && before[j].connectionId != a.connectionId && before[j].provider == a.provider
                            && before[j].status == ACTIVE && before[j].isDefault == Yes
                       then a.isDefault else Yes)
    && b == a.(status := b.status, accountAlias := b.accountAlias, cookieBridgeClientId := b.cookieBridgeClientId,
               credentialRef := b.credentialRef, expiresAt := b.expiresAt, isDefault := b.isDefault, updatedAt := b.updatedAt)
  }

  /** An active account of what was defined, default exactly when its provider had no active one. */
  ghost predicate IsNew(before: Connections, c: Connection, id: string, d: Definition, now: nat) {
    && c.connectionId == id && c.provider == d.provider && c.accountAlias == d.accountAlias && c.grant == d.grant
    && c.status == ACTIVE && c.isDefault != Other
    && (c.isDefault == Yes <==> forall j | 0 <= j < |before| && before[j].provider == d.provider :: before[j].status != ACTIVE)
    && c.credentialKind == COOKIE_BRIDGE && c.cookieBridgeClientId == d.clientId
    && c.credentialRef == "cookiebridge:" + d.provider + ":" + d.clientId + ":" + id
    && c.expiresAt.None? && c.lastHealthAt.None? && c.lastVerification.NoVerification?
    && c.createdAt == now && c.updatedAt == now
  }

  /** One account more, at the end; or, were the id not a fresh one, in its place. */
  ghost predicate Opens(before: Connections, after: Connections, id: string, d: Definition, now: nat) {
    exists p | 0 <= p < |after| ::
      && IsNew(before, after[p], id, d, now)
      && if p < |before| then OnlyAt(before, after, p, id)
         else |after| == |before| + 1 && forall j | 0 <= j < |before| :: after[j] == before[j] && before[j].connectionId != id
  }

  /** Of the provider's accounts the one with the id is default and no other is; the accounts of
      other providers, and all other fields, are as they were. */
  ghost predicate Chooses(before: Connections, after: Connections, i: nat, id: string, now: nat)
    requires i < |before|
  {
    && |after| == |before|
    && forall j | 0 <= j < |before| ::
         if before[j].provider != before[i].provider then after[j] == before[j]
         else
           && (after[j].isDefault == if before[j].connectionId == id then Yes else No)
           && after[j].updatedAt == now
           && after[j] == before[j].(isDefault := after[j].isDefault, updatedAt := after[j].updatedAt)
  }

  ghost predicate DoesAt(before: Connections, i: nat, change: Change, effect: Effect<Connections>)
    requires i < |before| && !change.Create?
  {
    var c := before[i];
    match change
    case UpdateStatus(id, status, now) =>
      effect.Persists? && OnlyAt(before, effect.next, i, id) && HasStatus(c, effect.next[i], status, now)
    case Reauthorize(id, provider, input, now) =>
      if c.credentialKind == COOKIE_BRIDGE && (provider.Some? ==> provider.value == c.provider) && input.Some?
      then effect.Persists? && OnlyAt(before, effect.next, i, id) && IsReauthorized(before, c, effect.next[i], input.value, now)
      else effect == Throws(before)
    case MarkHealth(id, now) =>
      && effect.Persists? && OnlyAt(before, effect.next, i, id)
      && var d := effect.next[i];
         d.lastHealthAt == Some(now) && d.updatedAt == now && d == c.(lastHealthAt := d.lastHealthAt, updatedAt := d.updatedAt)
    case SetDefault(id, now) =>
      if c.status == ACTIVE then effect.Persists? && Chooses(before, effect.next, i, id, now) else effect == Throws(before)
    case RecordVerification(id, verification, at) =>
      && effect.Persists? && OnlyAt(before, effect.next, i, id)
      && var d := effect.next[i];
         d.lastVerification == verification && d.updatedAt == at && d == c.(lastVerification := d.lastVerification, updatedAt := d.updatedAt)
  }

  /** The whole effect of a change: creating opens an account; any other change does nothing to an
      id that is not there, and what `DoesAt` says to the account that has it. */
  ghost predicate Does(before: Connections, change: Change, effect: Effect<Connections>) {
    if change.Create? then effect.Persists? && Opens(before, effect.next, change.newId, change.definition, change.now)
    else if forall i | 0 <= i < |before| :: before[i].connectionId != change.id then effect.Skips?
    else exists i | 0 <= i < |before| :: before[i].connectionId == change.id && DoesAt(before, i, change, effect)
  }

  lemma EffectLaw(cs: Connections, change: Change)
    ensures Does(cs, change, Effected(cs, change))
  {
    if change.Create? {
      var p := PutAt(cs, Created(cs, change.newId, change.definition, change.now));
    } else if Find(cs, change.id).Some? {
      assert DoesAt(cs, Find(cs, change.id).value, change, Effected(cs, change));
    }
  }

  // ----- The status of an account over whole runs -----

  function StatusOf(cs: Connections, id: string): Option<string> {
    match Find(cs, id)
    case Some(i) => Some(cs[i].status)
    case None => None
  }

  /** The status a change gives the account with that id, if it succeeds and gives one. */
  function Sets(change: Change, id: string): Option<string> {
    match change
    case Create(newId, _, _) => if newId == id then Some(ACTIVE) else None
    case UpdateStatus(other, status, _) => if other == id then Some(status) else None
    case Reauthorize(other, _, _, _) => if other == id then Some(ACTIVE) else None
    case _ => None
  }

  /** The status given by the last change that was committed and gave one; change `k` is the one
      behind log entry `k`. */
  function LastStatus(log: seq<Entry<Connections>>, changes: seq<Change>, id: string, before: Option<string>): Option<string>
    requires |log| <= |changes|
  {
    if log == [] then before
    else
      var n := |log| - 1;
      if log[n].outcome.Committed? && Sets(changes[n], id).Some? then Sets(changes[n], id)
      else LastStatus(log[..n], changes, id, before)
  }

  lemma {:induction false} FindSameIds(a: Connections, b: Connections, id: string)
    requires |a| == |b| && forall i | 0 <= i < |a| :: a[i].connectionId == b[i].connectionId
    ensures Find(a, id) == Find(b, id)
  {
    if a != [] {
      FindSameIds(a[..|a| - 1], b[..|b| - 1], id);
    }
  }

  lemma StatusStep(cs: Connections, change: Change, id: string)
    requires Effected(cs, change).Persists?
    ensures StatusOf(Effected(cs, change).next, id) ==
              if Sets(change, id).Some? then Sets(change, id) else StatusOf(cs, id)
  {
    var next := Effected(cs, change).next;
    if change.Create? && Find(cs, change.newId).None? {
      assert next[..|cs|] == cs;
    } else {
      FindSameIds(next, cs, id);
    }
  }

  function MutationsOf(changes: seq<Change>): seq<Mutation<Connections>> {
    seq(|changes|, i requires 0 <= i < |changes| => MutationOf(changes[i]))
  }

  lemma {:induction false} FoldStatus(m0: Connections, log: seq<Entry<Connections>>, changes: seq<Change>, id: string)
    requires |log| <= |changes| && forall k | 0 <= k < |log| :: log[k].mutation == MutationOf(changes[k])
    requires Faithful(m0, log)
    ensures StatusOf(Fold(m0, Succeeded(log)), id) == LastStatus(log, changes, id, StatusOf(m0, id))
  {
    if log != [] {
      var n := |log| - 1;
      var base := Fold(m0, Succeeded(log[..n]));
      assert log == log[..n] + [log[n]];
      LogGrows(m0, Missing, log[..n], log[n]);
      FoldStatus(m0, log[..n], changes, id);
      if Effected(base, changes[n]).Persists? {
        StatusStep(base, changes[n], id);
      }
    }
  }

  /** In every run, whatever fails and however it interleaves: when nothing is running, the status
      of an account is the one given by the last change that was committed and gave one, and
      the one it began with when there is none. */
  lemma StatusIsLastSet(m0: Connections, f0: Content<Connections>, s0: Store<Connections>, events: seq<Event<Connections>>, changes: seq<Change>, id: string)
    requires Opened(m0, f0, s0) && ValidRun(s0, events) && After(s0, events).slot.Idle?
    requires Submitted(events) == MutationsOf(changes)
    ensures var s := After(s0, events);
            |s.log| <= |changes| && StatusOf(s.memory, id) == LastStatus(s.log, changes, id, StatusOf(m0, id))
  {
    var s := After(s0, events);
    IdleMemoryIsSequentialFold(m0, f0, s0, events);
    RunKeepsInv(m0, f0, s0, events);
    assert Finished(s.log) + [] + s.queue == MutationsOf(changes);
    forall k | 0 <= k < |s.log| ensures s.log[k].mutation == MutationOf(changes[k]) {
      assert MutationsOf(changes)[k] == (Finished(s.log) + [] + s.queue)[k] == s.log[k].mutation;
    }
    FoldStatus(m0, s.log, changes, id);
  }

  /** An account once revoked or disabled is there and not active, until a later change makes it
      active again. */
  lemma RevokedStaysInactive(m0: Connections, f0: Content<Connections>, s0: Store<Connections>, events: seq<Event<Connections>>, changes: seq<Change>, id: string, n: nat)
    requires Opened(m0, f0, s0) && ValidRun(s0, events) && After(s0, events).slot.Idle?
    requires Submitted(events) == MutationsOf(changes)
    requires n < |After(s0, events).log| && n < |changes| && After(s0, events).log[n].outcome.Committed?
    requires changes[n].UpdateStatus? && changes[n].id == id && changes[n].status != ACTIVE
    requires forall k | n < k < |After(s0, events).log| && k < |changes| && After(s0, events).log[k].outcome.Committed? ::
               Sets(changes[k], id) != Some(ACTIVE)
    ensures StatusOf(After(s0, events).memory, id).Some? && StatusOf(After(s0, events).memory, id).value != ACTIVE
  {
    StatusIsLastSet(m0, f0, s0, events, changes, id);
    LastStatusInactive(After(s0, events).log, changes, id, StatusOf(m0, id), n);
  }

  lemma {:induction false} LastStatusInactive(log: seq<Entry<Connections>>, changes: seq<Change>, id: string, before: Option<string>, n: nat)
    requires n < |log| <= |changes| && log[n].outcome.Committed?
    requires Sets(changes[n], id).Some? && Sets(changes[n], id).value != ACTIVE
    requires forall k | n < k < |log| && log[k].outcome.Committed? :: Sets(changes[k], id) != Some(ACTIVE)
    ensures LastStatus(log, changes, id, before).Some? && LastStatus(log, changes, id, before).value != ACTIVE
  {
    if n < |log| - 1 {
      LastStatusInactive(log[..|log| - 1], changes, id, before, n);
    }
  }

  // ----- The rule -----

  /** What the methods keep: distinct ids (the store is a `Map`), and the default rule. */
  ghost predicate Good(cs: Connections) {
    DistinctIds(cs) && DefaultsOk(cs)
  }

  lemma CreateKeeps(cs: Connections, id: string, definition: Definition, now: nat)
    requires Good(cs)
    ensures Good(Put(cs, Created(cs, id, definition, now)))
  {
    var c := Created(cs, id, definition, now);
    var p := PutAt(cs, c);
    if IsDefault(c) {
      assert forall i | 0 <= i < |cs| && IsDefault(cs[i]) :: cs[i].provider != c.provider;
    }
  }

  lemma ReauthorizeKeeps(cs: Connections, i: nat, change: Change)
    requires Good(cs) && change.Reauthorize? && change.input.Some? && i < |cs|
    ensures Good(cs[i := Reauthorized(cs, cs[i], change)])
  {
    var cs' := cs[i := Reauthorized(cs, cs[i], change)];
    assert forall j | 0 <= j < |cs| && j != i && IsDefault(cs[j]) ::
        cs[j].provider == cs[i].provider ==> HasOtherDefault(cs, cs[i]);
  }

  lemma SetDefaultKeeps(cs: Connections, i: nat, now: nat)
    requires Good(cs) && i < |cs| && IsActive(cs[i])
    ensures var cs' := MarkDefault(cs, cs[i], now);
            && Good(cs')
            && IsDefault(cs'[i])
            && forall j | 0 <= j < |cs| && cs[j].provider == cs[i].provider && j != i :: !IsDefault(cs'[j])
  {
    var cs' := MarkDefault(cs, cs[i], now);
    assert forall j | 0 <= j < |cs| && IsDefault(cs'[j]) && cs[j].provider == cs[i].provider :: j == i;
  }

  lemma ChangeKeeps(change: Change)
    ensures Keeps(Good, MutationOf(change))
  {
    forall cs | Good(cs)
      ensures match Effected(cs, change)
              case Skips => true
              case Throws(dirty) => Good(dirty)
              case Persists(next) => Good(next)
    {
      if change.Create? {
        CreateKeeps(cs, change.newId, change.definition, change.now);
      } else if Find(cs, change.id).Some? {
        var i := Find(cs, change.id).value;
        if change.Reauthorize? {
          if change.input.Some? {
            ReauthorizeKeeps(cs, i, change);
          }
        } else if change.SetDefault? && IsActive(cs[i]) {
          SetDefaultKeeps(cs, i, change.now);
        }
      }
    }
  }

  ghost predicate Differs(records: Connections, n: nat, clean: Verification -> Verification)
    requires n <= |records|
  {
    exists k | 0 <= k < n :: records[k] != Normalised(records, k, clean)
  }

  lemma {:induction false} EligibleIsClaimed(records: Connections, k: nat, n: nat)
    requires k < n <= |records| && Eligible(records[k])
    ensures records[k].provider in Claimed(records, n)
    decreases k
  {
    if !Elected(records, k) {
      var j :| 0 <= j < k && Eligible(records[j]) && records[j].provider == records[k].provider;
      EligibleIsClaimed(records, j, n);
    }
  }

  /** One round of `init`'s first loop. */
  lemma InitStep(records: Connections, n: nat, clean: Verification -> Verification)
    requires n < |records|
    ensures Elected(records, n) <==> Eligible(records[n]) && records[n].provider !in Claimed(records, n)
    ensures Claimed(records, n + 1) == Claimed(records, n) + (if Elected(records, n) then {records[n].provider} else {})
    ensures Differs(records, n + 1, clean) <==> Differs(records, n, clean) || records[n] != Normalised(records, n, clean)
  {
    forall k | 0 <= k < n && Eligible(records[k]) ensures records[k].provider in Claimed(records, n) {
      EligibleIsClaimed(records, k, n);
    }
  }

  /** `init` found something to write back. */
  ghost predicate Changed(records: Connections, clean: Verification -> Verification) {
    || Differs(records, |records|, clean)
    || Initialised(records, clean) != Table(records, |records|, clean)
  }

  /** Memory and file once `init` has returned; it does not return on a torn file. */
  ghost predicate AfterInit(file: Content<Connections>, clean: Verification -> Verification, s: Store<Connections>) {
    match file
    case Missing => Opened([], Missing, s)
    case Torn => false
    case Whole(records) =>
      Opened(Initialised(records, clean),
             if Changed(records, clean) then Whole(Initialised(records, clean)) else file,
             s)
  }

  lemma {:induction false} DistinctTable(records: Connections, n: nat, clean: Verification -> Verification)
    requires n <= |records| && DistinctIds(records) && !Differs(records, |records|, clean)
    ensures Table(records, n, clean) == records[..n]
  {
    if n > 0 {
      DistinctTable(records, n - 1, clean);
      PutNew(records, n - 1);
    }
  }

  function Ids(records: Connections, n: nat): (ids: seq<string>)
    requires n <= |records|
    ensures |ids| == n && forall i | 0 <= i < n :: ids[i] == records[i].connectionId
  {
    if n == 0 then [] else Ids(records, n - 1) + [records[n - 1].connectionId]
  }

  lemma PutFinds(t: Connections, c: Connection, id: string)
    ensures Find(Put(t, c), id).Some? <==> Find(t, id).Some? || id == c.connectionId
    ensures |Put(t, c)| == if Find(t, c.connectionId).Some? then |t| else |t| + 1
  {
    var p := PutAt(t, c);
    if Find(t, id).Some? && id != c.connectionId {
      var i := Find(t, id).value;
      assert Put(t, c)[i] == t[i];
    }
  }

  /** A table made of records with these ids holds them all, and is shorter than they are if
      two are the same. */
  ghost predicate Tabled(t: Connections, ids: seq<string>) {
    && |t| <= |ids|
    && (forall i | 0 <= i < |ids| :: Find(t, ids[i]).Some?)
    && ((exists i, j :: 0 <= i < j < |ids| && ids[i] == ids[j]) ==> |t| < |ids|)
  }

  lemma TabledStep(t: Connections, ids: seq<string>, c: Connection)
    requires Tabled(t, ids)
    ensures Tabled(Put(t, c), ids + [c.connectionId])
  {
    var ids' := ids + [c.connectionId];
    forall i | 0 <= i < |ids'| ensures Find(Put(t, c), ids'[i]).Some? {
      PutFinds(t, c, ids'[i]);
    }
    PutFinds(t, c, c.connectionId);
    if i, j :| 0 <= i < j < |ids'| && ids'[i] == ids'[j] {
      assert j < |ids| ==> ids[i] == ids[j];
    }
  }

  lemma {:induction false} TableTabled(records: Connections, n: nat, clean: Verification -> Verification)
    requires n <= |records|
    ensures Tabled(Table(records, n, clean), Ids(records, n))
  {
    if n > 0 {
      TableTabled(records, n - 1, clean);
      TabledStep(Table(records, n - 1, clean), Ids(records, n - 1), Normalised(records, n - 1, clean));
    }
  }

  /** When `init` has returned, the file reads back as memory exactly when there was no file,
      or something was written back, or the records have distinct ids. */
  lemma FileAgreesAfterInitIff(file: Content<Connections>, clean: Verification -> Verification, s: Store<Connections>)
    requires AfterInit(file, clean, s)
    ensures Load(s.file, []) == Some(s.memory) <==> file.Missing? || Changed(file.value, clean) || DistinctIds(file.value)
  {
    if file.Whole? && !Changed(file.value, clean) {
      var records := file.value;
      if DistinctIds(records) {
        DistinctTable(records, |records|, clean);
        assert records[..|records|] == records;
      } else {
        TableTabled(records, |records|, clean);
        var i, j :| 0 <= i < j < |records| && records[i].connectionId == records[j].connectionId;
        assert Ids(records, |records|)[i] == Ids(records, |records|)[j];
      }
    }
  }

  /** The same over whole runs: with nothing running, the account file reads back as memory
      exactly when the last mutation to rename also hardened the file or would change nothing,
      or, when none has renamed, when it did after `init`. */
  lemma AccountFileAgreesIff(file: Content<Connections>, clean: Verification -> Verification, s0: Store<Connections>, events: seq<Event<Connections>>)
    requires AfterInit(file, clean, s0) && ValidRun(s0, events) && After(s0, events).slot.Idle?
    ensures var s := After(s0, events);
            var last := LastRenamed(s.log);
            Load(s.file, []) == Some(s.memory) <==>
              if last.None? then file.Missing? || Changed(file.value, clean) || DistinctIds(file.value)
              else last.value.outcome.HardenFailed? ==> Apply(last.value.mutation, s.memory) == s.memory
  {
    FileAgreesAfterInitIff(file, clean, s0);
    IdleFileAgreesIff(s0.memory, s0.file, [], s0, events);
  }

  ghost predicate OnlyChanges(events: seq<Event<Connections>>) {
    forall m | m in Submitted(events) :: exists c :: m == MutationOf(c)
  }

  /** The rule over whole runs: let `init` open any file, let callers submit any changes in
      any interleaving, let any await of any of them fail. At every step memory, and the
      file a crash would leave behind, have at most one default per provider and only
      active defaults. */
  lemma DefaultsOverRuns(file: Content<Connections>, clean: Verification -> Verification, s0: Store<Connections>, events: seq<Event<Connections>>)
    requires AfterInit(file, clean, s0) && ValidRun(s0, events) && OnlyChanges(events)
    ensures var s := After(s0, events);
            DefaultsOk(s.memory) && !s.file.Torn? && (s.file.Whole? ==> DefaultsOk(s.file.value))
  {
    if file.Whole? {
      InitialisedOk(file.value, clean);
      assert !Changed(file.value, clean) ==>
          forall k | 0 <= k < |file.value| :: file.value[k] == Normalised(file.value, k, clean);
    }
    forall m | m in Submitted(events) ensures Keeps(Good, m) {
      var c :| m == MutationOf(c);
      ChangeKeeps(c);
    }
    GoodThroughout(Good, s0.file, s0, events);
  }

  // ----- The class -----

  class ConnectionStore {
    var connections: Connections

    constructor ()
      ensures connections == []
    {
      connections := [];
    }

    /** `init` on the parsed records; the caller persists when `changed`. */
    method Init(records: Connections, clean: Verification -> Verification) returns (changed: bool)
      requires connections == []
      modifies this
      ensures connections == Initialised(records, clean)
      ensures changed <==> Changed(records, clean)
    {
      var defaultProviders: set<string> := {};
      changed := false;
      for n := 0 to |records|
        invariant connections == Table(records, n, clean)
        invariant defaultProviders == Claimed(records, n)
        invariant changed <==> Differs(records, n, clean)
      {
        InitStep(records, n, clean);
        var record := records[n];
        var normalizedDefault := record.isDefault == Yes && record.provider !in defaultProviders && IsActive(record);
        var flag := if normalizedDefault then Yes else No;
        var verification := clean(record.lastVerification);
        if record.isDefault != flag || record.lastVerification != verification {
          changed := true;
        }
        if normalizedDefault {
          defaultProviders := defaultProviders + {record.provider};
        }
        connections := Put(connections, record.(isDefault := flag, lastVerification := verification));
      }
      TableOk(records, |records|, clean);
      var promoted := Promote(defaultProviders);
      changed := changed || promoted;
    }

    method GroupActive() returns (activeByProvider: map<string, seq<nat>>)
      ensures Grouped(connections, |connections|, activeByProvider)
    {
      activeByProvider := map[];
      for n := 0 to |connections|
        invariant Grouped(connections, n, activeByProvider)
      {
        GroupGrows(connections, n, activeByProvider);
        if IsActive(connections[n]) {
          var provider := connections[n].provider;
          var group := if provider in activeByProvider then activeByProvider[provider] else [];
          activeByProvider := activeByProvider[provider := group + [n]];
        }
      }
    }

    /** The second half of `init`: group the active accounts and give each provider that has
        exactly one, and no default yet, that one as its default. */
    method Promote(claimed: set<string>) returns (changed: bool)
      requires forall i | 0 <= i < |connections| && IsDefault(connections[i]) :: connections[i].provider in claimed
      modifies this
      ensures connections == Promoted(old(connections), claimed)
      ensures changed <==> connections != old(connections)
    {
      ghost var table := connections;
      var activeByProvider := GroupActive();
      changed := false;
      var providers := activeByProvider.Keys;
      while providers != {}
        invariant providers <= activeByProvider.Keys
        invariant connections == PromotedExcept(table, claimed, providers)
        invariant changed <==> connections != table
      {
        var provider :| provider in providers;
        var active := activeByProvider[provider];
        PromoteOne(table, claimed, providers, activeByProvider, provider);
        if |active| == 1 && provider !in claimed {
          connections := connections[active[0] := connections[active[0]].(isDefault := Yes)];
          changed := true;
        }
        providers := providers - {provider};
      }
    }

    /** One callback of each kind, as it changes the map in place. */
    method Perform(change: Change) returns (effect: Effect<Connections>)
      modifies this
      ensures effect == Effected(old(connections), change) && Does(old(connections), change, effect)
      ensures connections == if effect.Persists? then effect.next else old(connections)
    {
      EffectLaw(connections, change);
      if change.Create? {
        var active := HasActive(connections, change.definition.provider);
        var c := Connection(
          change.newId, change.definition.provider, ACTIVE, if active then No else Yes, COOKIE_BRIDGE,
          change.definition.accountAlias,
          CredentialRef(change.definition.provider, change.definition.clientId, change.newId),
          change.definition.clientId, change.definition.grant, None, None, NoVerification, change.now, change.now);
        connections := Put(connections, c);
        return Persists(connections);
      }
      if change.SetDefault? {
        effect := SetDefault(change.id, change.now);
        return;
      }
      var found := Find(connections, change.id);
      if found.None? {
        return Skips;
      }
      var i := found.value;
      var c := connections[i];
      match change {
        case UpdateStatus(_, status, now) =>
          c := c.(status := status);
          if status != ACTIVE {
            c := c.(isDefault := No);
          }
          c := c.(updatedAt := now);
        case Reauthorize(_, _, input, now) =>
          if RefusesReauthorization(c, change) {
            return Throws(connections);
          }
          var clientId := input.value.clientId;
          var other := HasOtherDefault(connections, c);
          c := c.(accountAlias := input.value.accountAlias);
          c := c.(credentialRef := CredentialRef(c.provider, clientId, c.connectionId), cookieBridgeClientId := clientId);
          c := c.(status := ACTIVE);
          if !other {
            c := c.(isDefault := Yes);
          }
          c := c.(expiresAt := None, updatedAt := now);
        case MarkHealth(_, now) =>
          c := c.(lastHealthAt := Some(now), updatedAt := now);
        case RecordVerification(_, verification, at) =>
          c := c.(lastVerification := verification, updatedAt := at);
      }
      connections := connections[i := c];
      effect := Persists(connections);
    }

    /** `updateStatus`: an unknown status is refused before anything is queued. */
    method ChangeStatus(id: string, status: string, now: nat) returns (effect: Option<Effect<Connections>>)
      modifies this
      ensures effect.None? <==> status !in VALID_STATUSES
      ensures effect.Some? ==>
                && effect.value == Effected(old(connections), UpdateStatus(id, status, now))
                && Does(old(connections), UpdateStatus(id, status, now), effect.value)
      ensures connections == if effect.Some? && effect.value.Persists? then effect.value.next else old(connections)
    {
      if status !in VALID_STATUSES {
        return None;
      }
      var performed := Perform(UpdateStatus(id, status, now));
      effect := Some(performed);
    }

    method SetDefault(id: string, now: nat) returns (effect: Effect<Connections>)
      modifies this
      ensures effect == Effected(old(connections), Change.SetDefault(id, now))
      ensures connections == if effect.Persists? then effect.next else old(connections)
    {
      var found := Find(connections, id);
      if found.None? {
        return Skips;
      }
      var chosen := connections[found.value];
      if !IsActive(chosen) {
        return Throws(connections);
      }
      ghost var before := connections;
      for n := 0 to |connections|
        invariant |connections| == |before|
        invariant forall k | 0 <= k < n :: connections[k] == MarkDefault(before, chosen, now)[k]
        invariant forall k | n <= k < |before| :: connections[k] == before[k]
      {
        var candidate := connections[n];
        if candidate.provider == chosen.provider {
          connections := connections[n := candidate.(
            isDefault := if candidate.connectionId == chosen.connectionId then Yes else No, updatedAt := now)];
        }
      }
      assert connections == MarkDefault(before, chosen, now);
      effect := Persists(connections);
    }
  }

  /** Each provider's group lists the positions of its active accounts among the first `n`. */
  ghost predicate Grouped(cs: Connections, n: nat, groups: map<string, seq<nat>>)
    requires n <= |cs|
  {
    && (forall i | 0 <= i < n && IsActive(cs[i]) :: cs[i].provider in groups && i in groups[cs[i].provider])
    && (forall p | p in groups :: IsGroup(cs, n, p, groups[p]))
  }

  ghost predicate IsGroup(cs: Connections, n: nat, provider: string, group: seq<nat>)
    requires n <= |cs|
  {
    && group != []
    && (forall k | 0 <= k < |group| :: group[k] < n && IsActive(cs[group[k]]) && cs[group[k]].provider == provider)
    && (forall k, l | 0 <= k < l < |group| :: group[k] < group[l])
  }

  lemma GroupGrows(cs: Connections, n: nat, groups: map<string, seq<nat>>)
    requires n < |cs| && Grouped(cs, n, groups)
    ensures var provider := cs[n].provider;
            var group := if provider in groups then groups[provider] else [];
            Grouped(cs, n + 1, if IsActive(cs[n]) then groups[provider := group + [n]] else groups)
  {
    var provider := cs[n].provider;
    var group := if provider in groups then groups[provider] else [];
    var groups' := if IsActive(cs[n]) then groups[provider := group + [n]] else groups;
    if IsActive(cs[n]) {
      GroupExtended(cs, n, provider, group);
    }
    forall p | p in groups' ensures IsGroup(cs, n + 1, p, groups'[p]) {
      if p in groups {
        GroupStays(cs, n, p, groups[p]);
      }
    }
    forall i | 0 <= i < n + 1 && IsActive(cs[i]) ensures cs[i].provider in groups' && i in groups'[cs[i].provider] {
      if i < n && cs[i].provider == provider {
        assert i in group;
      }
    }
  }

  lemma GroupStays(cs: Connections, n: nat, provider: string, group: seq<nat>)
    requires n < |cs| && IsGroup(cs, n, provider, group)
    ensures IsGroup(cs, n + 1, provider, group)
  {
  }

  lemma GroupExtended(cs: Connections, n: nat, provider: string, group: seq<nat>)
    requires n < |cs| && IsActive(cs[n]) && cs[n].provider == provider
    requires group == [] || IsGroup(cs, n, provider, group)
    ensures IsGroup(cs, n + 1, provider, group + [n])
    ensures n in group + [n] && forall i | i in group :: i in group + [n]
  {
    assert (group + [n])[|group|] == n;
  }

  /** The promotion with the providers still to be visited left as they were. */
  ghost function PromotedExcept(table: Connections, claimed: set<string>, providers: set<string>): Connections {
    seq(|table|, i requires 0 <= i < |table| =>
      if table[i].provider in providers then table[i] else Promoted(table, claimed)[i])
  }

  lemma PromoteOne(table: Connections, claimed: set<string>, providers: set<string>,
                   groups: map<string, seq<nat>>, provider: string)
    requires Grouped(table, |table|, groups) && provider in providers && providers <= groups.Keys
    requires forall i | 0 <= i < |table| && IsDefault(table[i]) :: table[i].provider in claimed
    ensures var before, after := PromotedExcept(table, claimed, providers), PromotedExcept(table, claimed, providers - {provider});
            var active := groups[provider];
            if |active| == 1 && provider !in claimed then
              && active[0] < |before| && after == before[active[0] := before[active[0]].(isDefault := Yes)]
              && after != table
            else after == before
  {
    var before, after := PromotedExcept(table, claimed, providers), PromotedExcept(table, claimed, providers - {provider});
    var active := groups[provider];
    GroupIsSole(table, groups, provider);
    assert IsGroup(table, |table|, provider, active);
    var a := active[0];
    var promotes := |active| == 1 && provider !in claimed;
    assert forall i | 0 <= i < |table| && table[i].provider != provider :: after[i] == before[i];
    forall i | 0 <= i < |table| && table[i].provider == provider
      ensures before[i] == table[i]
      ensures after[i] == if promotes && i == a then table[i].(isDefault := Yes) else table[i]
    {
      assert after[i] == Promoted(table, claimed)[i];
    }
  }

  lemma GroupIsSole(cs: Connections, groups: map<string, seq<nat>>, provider: string)
    requires Grouped(cs, |cs|, groups) && provider in groups
    ensures forall i | 0 <= i < |cs| && cs[i].provider == provider ::
              Sole(cs, i) <==> |groups[provider]| == 1 && groups[provider][0] == i
  {
    var g := groups[provider];
    forall i | 0 <= i < |cs| && cs[i].provider == provider && Sole(cs, i)
      ensures |g| == 1 && g[0] == i
    {
      assert i in g;
      var first, last := g[0], g[|g| - 1];
      assert 0 < |g| - 1 ==> first < last;
      assert forall k | 0 <= k < |g| :: g[k] == i;
    }
  }
}
