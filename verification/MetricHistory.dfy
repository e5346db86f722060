/** The creator-history half of `MediaCrawlerProAdapter.collectMetrics`: the paged,
    de-duplicating collection loop and the four-worker enrichment pool behind it.

    The download server is a parameter. It may answer every request differently, and any
    request may fail. */
module MetricHistory {
  import opened Wrappers

  /** `MetricWork` after `normalizeMetricWork`; an empty `id` stands for a missing one. */
  datatype Work = Work(
    id: string,
    title: string,
    sourceUrl: Option<string>,
    likes: Option<nat>,
    favorites: Option<nat>)

  datatype Page = Page(contents: seq<Work>, hasMore: bool, nextCursor: string)

  const MAX_PAGES := 5
  const MAX_WORKERS := 4

  // ----- Collection -----

  /** The works a reader of the whole feed would list: each id once, at its first
      appearance, without the target and without works that have no id. */
  function Eligible(feed: seq<Work>, target: string): seq<Work> {
    if feed == [] then []
    else
      var last, before := feed[|feed| - 1], feed[..|feed| - 1];
      Eligible(before, target) +
      (if last.id != "" && last.id != target && !Mentions(before, last.id) then [last] else [])
  }

  predicate Mentions(feed: seq<Work>, id: string) {
    exists i | 0 <= i < |feed| :: feed[i].id == id
  }

  function Concat(pages: seq<Page>): seq<Work> {
    if pages == [] then [] else Concat(pages[..|pages| - 1]) + pages[|pages| - 1].contents
  }

  /** `page.has_more === true && Boolean(String(page.next_cursor || '').trim())` */
  predicate Continues(page: Page, blank: string -> bool) {
    page.hasMore && !blank(page.nextCursor)
  }

  /** Page `k` was asked for with the cursor page `k - 1` gave, the first with none. */
  ghost predicate Chained(server: (nat, string) -> Option<Page>, pages: seq<Page>, blank: string -> bool) {
    pages == [] ||
    (var last, before := pages[|pages| - 1], pages[..|pages| - 1];
     && Chained(server, before, blank)
     && server(|before|, NextCursor(before)) == Some(last)
     && (before != [] ==> Continues(before[|before| - 1], blank)))
  }

  function NextCursor(pages: seq<Page>): string {
    if pages == [] then "" else pages[|pages| - 1].nextCursor
  }

  /** The list names each id of the feed once, but for the missing one and the target. */
  ghost predicate Lists(e: seq<Work>, feed: seq<Work>, target: string) {
    && (forall i | 0 <= i < |e| :: e[i].id != "" && e[i].id != target && Mentions(feed, e[i].id))
    && (forall i, j | 0 <= i < j < |e| :: e[i].id != e[j].id)
    && (forall i | 0 <= i < |feed| && feed[i].id != "" && feed[i].id != target :: Mentions(e, feed[i].id))
  }

  lemma MentionsGrow(feed: seq<Work>, last: Work, id: string)
    ensures Mentions(feed + [last], id) <==> Mentions(feed, id) || last.id == id
  {
    if i :| 0 <= i < |feed| && feed[i].id == id {
      assert (feed + [last])[i].id == id;
    }
    if last.id == id {
      assert (feed + [last])[|feed|].id == id;
    }
    if i :| 0 <= i < |feed + [last]| && (feed + [last])[i].id == id && i < |feed| {
      assert feed[i].id == id;
    }
  }

  lemma ListsSkip(e: seq<Work>, feed: seq<Work>, last: Work, target: string)
    requires Lists(e, feed, target) && (last.id == "" || last.id == target || Mentions(feed, last.id))
    ensures Lists(e, feed + [last], target)
  {
    forall i | 0 <= i < |e| ensures Mentions(feed + [last], e[i].id) {
      MentionsGrow(feed, last, e[i].id);
    }
    if last.id != "" && last.id != target {
      var k :| 0 <= k < |feed| && feed[k].id == last.id;
      assert Mentions(e, feed[k].id);
    }
  }

  lemma ListsAdd(e: seq<Work>, feed: seq<Work>, last: Work, target: string)
    requires Lists(e, feed, target) && last.id != "" && last.id != target && !Mentions(feed, last.id)
    ensures Lists(e + [last], feed + [last], target)
  {
    var e', feed' := e + [last], feed + [last];
    forall i | 0 <= i < |e'| ensures Mentions(feed', e'[i].id) {
      MentionsGrow(feed, last, e'[i].id);
    }
    forall i | 0 <= i < |feed'| && feed'[i].id != "" && feed'[i].id != target ensures Mentions(e', feed'[i].id) {
      MentionsGrow(e, last, feed'[i].id);
    }
  }

  lemma {:induction false} EligibleIds(feed: seq<Work>, target: string)
    ensures Lists(Eligible(feed, target), feed, target)
  {
    if feed != [] {
      var before, last := feed[..|feed| - 1], feed[|feed| - 1];
      EligibleIds(before, target);
      assert before + [last] == feed;
      if last.id != "" && last.id != target && !Mentions(before, last.id) {
        ListsAdd(Eligible(before, target), before, last, target);
      } else {
        ListsSkip(Eligible(before, target), before, last, target);
        assert Eligible(before, target) + [] == Eligible(before, target);
      }
    }
  }

  /** `at` places each listed work at the first appearance of its id in the feed. */
  ghost predicate FirstAppearances(feed: seq<Work>, listed: seq<Work>, at: seq<nat>) {
    && |at| == |listed|
    && (forall i | 0 <= i < |at| :: IsFirst(feed, listed[i], at[i]))
    && (forall i, j | 0 <= i < j < |at| :: at[i] < at[j])
  }

  ghost predicate IsFirst(feed: seq<Work>, work: Work, k: nat) {
    k < |feed| && feed[k] == work && forall j | 0 <= j < k :: feed[j].id != work.id
  }

  /** The eligible works keep the feed's order, each the copy seen first. */
  lemma {:induction false} EligibleOrder(feed: seq<Work>, target: string) returns (at: seq<nat>)
    ensures FirstAppearances(feed, Eligible(feed, target), at)
  {
    if feed == [] {
      at := [];
    } else {
      var before, last := feed[..|feed| - 1], feed[|feed| - 1];
      at := EligibleOrder(before, target);
      forall i | 0 <= i < |at| ensures IsFirst(feed, Eligible(before, target)[i], at[i]) {
        assert IsFirst(before, Eligible(before, target)[i], at[i]);
      }
      if last.id != "" && last.id != target && !Mentions(before, last.id) {
        assert IsFirst(feed, last, |before|);
        at := at + [|before|];
      }
    }
  }

  /** Page `k` is the server's answer to the cursor of the page before, which announced another
      one; the first page is its answer to no cursor. */
  ghost predicate Answers(server: (nat, string) -> Option<Page>, pages: seq<Page>, k: nat, blank: string -> bool)
    requires k < |pages|
  {
    if k == 0 then server(0, "") == Some(pages[0])
    else
      var previous := pages[k - 1];
      previous.hasMore && !blank(previous.nextCursor) && server(k, previous.nextCursor) == Some(pages[k])
  }

  lemma {:induction false} ChainedAt(server: (nat, string) -> Option<Page>, pages: seq<Page>, blank: string -> bool)
    requires Chained(server, pages, blank)
    ensures forall k | 0 <= k < |pages| :: Answers(server, pages, k, blank)
  {
    if pages != [] {
      var before := pages[..|pages| - 1];
      ChainedAt(server, before, blank);
      forall k | 0 <= k < |before| ensures Answers(server, pages, k, blank) {
        assert Answers(server, before, k, blank);
      }
    }
  }

  /** The nested loop. A request that fails aborts the collection. Otherwise the history is
      the first `limit` eligible works of the pages read; the pages read are a chain of
      cursors, at most five; and another page was asked for exactly when the limit had not
      been reached and the page before announced one. */
  method CollectHistory(server: (nat, string) -> Option<Page>, blank: string -> bool, target: string, limit: nat)
    returns (history: Option<seq<Work>>, pages: seq<Page>)
    ensures |pages| <= 5 && BelowLimit(pages, target, limit)
    ensures forall k | 0 <= k < |pages| :: Answers(server, pages, k, blank)
    ensures history.Some? ==> history.value == Take(Eligible(Concat(pages), target), limit)
    ensures history.Some? ==>
              || limit <= |history.value|
              || |pages| == 5
              || (pages != [] && (!pages[|pages| - 1].hasMore || blank(pages[|pages| - 1].nextCursor)))
    ensures history.None? ==>
              && |pages| < 5 && |Eligible(Concat(pages), target)| < limit
              && (pages != [] ==> pages[|pages| - 1].hasMore && !blank(pages[|pages| - 1].nextCursor))
              && server(|pages|, if pages == [] then "" else pages[|pages| - 1].nextCursor) == None
  {
    var works: seq<Work> := [];
    var seen: set<string> := {};
    var cursor, hasMore, pageCount := "", true, 0;
    pages := [];
    while hasMore && |works| < limit && pageCount < MAX_PAGES
      invariant pageCount == |pages| <= MAX_PAGES && Chained(server, pages, blank)
      invariant hasMore <==> pages == [] || Continues(pages[|pages| - 1], blank)
      invariant hasMore ==> cursor == NextCursor(pages)
      invariant BelowLimit(pages, target, limit)
      invariant works == Take(Eligible(Concat(pages), target), limit)
      invariant seen == Ids(works)
      decreases MAX_PAGES - pageCount
    {
      var reply := server(pageCount, cursor);
      if reply.None? {
        ChainedAt(server, pages, blank);
        return None, pages;
      }
      var page := reply.value;
      works, seen := CollectPage(page.contents, target, limit, works, seen, Concat(pages));
      assert (pages + [page])[..|pages|] == pages;
      pages := pages + [page];
      pageCount := pageCount + 1;
      hasMore := page.hasMore && !blank(page.nextCursor);
      cursor := if hasMore then page.nextCursor else "";
    }
    ChainedAt(server, pages, blank);
    history := Some(works);
  }

  /** The limit had not been reached before any of the pages. */
  ghost predicate BelowLimit(pages: seq<Page>, target: string, limit: nat) {
    pages == [] ||
    (var before := pages[..|pages| - 1];
     BelowLimit(before, target, limit) && |Eligible(Concat(before), target)| < limit)
  }

  function Ids(works: seq<Work>): set<string> {
    set w | w in works :: w.id
  }

  /** The inner loop: it breaks as soon as the limit is reached. */
  method CollectPage(contents: seq<Work>, target: string, limit: nat, works0: seq<Work>, seen0: set<string>, ghost feed: seq<Work>)
    returns (works: seq<Work>, seen: set<string>)
    requires works0 == Eligible(feed, target) && |works0| < limit && seen0 == Ids(works0)
    ensures works == Take(Eligible(feed + contents, target), limit) && seen == Ids(works)
  {
    works, seen := works0, seen0;
    ghost var read := feed;
    var n := 0;
    assert feed + contents[0..] == feed + contents;
    while n < |contents|
      invariant 0 <= n <= |contents| && read + contents[n..] == feed + contents
      invariant works == Eligible(read, target) && |works| < limit && seen == Ids(works)
    {
      var work := contents[n];
      NextWork(read, contents, n, target);
      n, read := n + 1, read + [work];
      if work.id == "" || work.id == target || work.id in seen {
        continue;
      }
      seen := seen + {work.id};
      works := works + [work];
      if |works| >= limit {
        EligiblePrefix(read, contents[n..], target);
        PrefixTaken(works, Eligible(feed + contents, target), limit);
        return;
      }
    }
    assert read + contents[n..] == read;
  }

  lemma PrefixTaken(a: seq<Work>, b: seq<Work>, n: nat)
    requires a <= b && |a| == n
    ensures Take(b, n) == a
  {
  }

  lemma IdsGrow(works: seq<Work>, work: Work)
    ensures Ids(works + [work]) == Ids(works) + {work.id}
  {
    assert (works + [work])[|works|] == work;
    assert forall w | w in works :: w in works + [work];
  }

  /** One more work of the page: it is listed unless it is disqualified or already listed. */
  lemma NextWork(read: seq<Work>, contents: seq<Work>, n: nat, target: string)
    requires n < |contents|
    ensures var listed, work := Eligible(read, target), contents[n];
            && Eligible(read + [work], target) ==
                 (if work.id == "" || work.id == target || work.id in Ids(listed) then listed else listed + [work])
            && Ids(listed + [work]) == Ids(listed) + {work.id}
            && (read + [work]) + contents[n + 1..] == read + contents[n..]
  {
    var work := contents[n];
    assert (read + [work])[..|read|] == read;
    IdsGrow(Eligible(read, target), work);
    if work.id != "" && work.id != target {
      ListedIffMentioned(read, work.id, target);
    }
  }

  lemma ListedIffMentioned(feed: seq<Work>, id: string, target: string)
    requires id != "" && id != target
    ensures id in Ids(Eligible(feed, target)) <==> Mentions(feed, id)
  {
    EligibleIds(feed, target);
    var listed := Eligible(feed, target);
    if id in Ids(listed) {
      var w :| w in listed && w.id == id;
      var i :| 0 <= i < |listed| && listed[i] == w;
    }
    if k :| 0 <= k < |feed| && feed[k].id == id {
      assert Mentions(listed, feed[k].id);
      var i :| 0 <= i < |listed| && listed[i].id == id;
      assert listed[i] in listed;
    }
  }

  lemma {:induction false} EligiblePrefix(feed: seq<Work>, more: seq<Work>, target: string)
    ensures Eligible(feed, target) <= Eligible(feed + more, target)
    decreases |more|
  {
    if more == [] {
      assert feed + more == feed;
    } else {
      EligiblePrefix(feed, more[..|more| - 1], target);
      assert (feed + more)[..|feed + more| - 1] == feed + more[..|more| - 1];
    }
  }

  // ----- Enrichment -----

  datatype Provider = Xhs | Dy | Bili | Ks

  predicate HasCoreMetric(provider: Provider, work: Work) {
    work.likes.Some? && (provider.Xhs? ==> work.favorites.Some?)
  }

  /** Whether the pool asks the server about this work at all. */
  predicate NeedsDetail(provider: Provider, work: Work, isPublic: string -> bool) {
    !HasCoreMetric(provider, work) && work.sourceUrl.Some? && isPublic(work.sourceUrl.value)
  }

  /** One work taken by itself: replaced by the server's detail only if it lacks its core
      metric, has a public address, and the detail carries the same id. */
  function Enriched(provider: Provider, work: Work, isPublic: string -> bool, detail: Option<Work>): Work {
    if NeedsDetail(provider, work, isPublic) && detail.Some? && detail.value.id != "" && detail.value.id == work.id
    then detail.value else work
  }

  datatype Worker = Ready | Awaiting(index: nat, work: Work) | Done

  /** The closure state the workers share. `detail(i)` is the outcome of the request made
      for index `i`, of which there is at most one. */
  class WorkerPool {
    const provider: Provider
    const isPublic: string -> bool
    const detail: nat -> Option<Work>
    const enriched: array<Work>
    var nextIndex: nat
    var workers: seq<Worker>
    ghost const works: seq<Work>
    ghost var claims: seq<nat>
    ghost var requests: set<nat>
    ghost var holder: map<nat, nat>  // the worker awaiting the reply for an index

    ghost predicate Valid()
      reads this, enriched
    {
      && enriched.Length == |works|
      && nextIndex <= |works|
      && (works == [] || workers != []) && |workers| <= MAX_WORKERS
      && (forall w | 0 <= w < |workers| && workers[w].Done? :: nextIndex == |works|)
      && claims == seq(nextIndex, i => i)
      && requests == Asked(provider, works, nextIndex, isPublic)
      && Holds(works, workers, holder)
      && holder.Keys <= requests
      && forall i | 0 <= i < |works| :: enriched[i] == Current(i)
    }

    ghost function Current(i: nat): Work
      requires i < |works|
      reads this
    {
      if i < nextIndex && i !in holder then Enriched(provider, works[i], isPublic, detail(i)) else works[i]
    }

    constructor (provider: Provider, works: seq<Work>, isPublic: string -> bool, detail: nat -> Option<Work>)
      ensures Valid() && fresh(enriched)
      ensures this.provider == provider && this.works == works && this.isPublic == isPublic && this.detail == detail
    {
      this.provider, this.works, this.isPublic, this.detail := provider, works, isPublic, detail;
      enriched := new Work[|works|](i requires 0 <= i < |works| => works[i]);
      nextIndex := 0;
      workers := seq(if |works| < MAX_WORKERS then |works| else MAX_WORKERS, i => Ready);
      claims, requests, holder := [], {}, map[];
    }

    /** A worker runs one round of its loop up to the request, if it makes one. */
    method Advance(w: nat)
      requires Valid() && w < |workers| && workers[w].Ready?
      modifies this
      ensures Valid()
      ensures nextIndex > old(nextIndex) || (nextIndex == old(nextIndex) && Pending(workers) < old(Pending(workers)))
    {
      if nextIndex < enriched.Length {
        var index := nextIndex;
        nextIndex := nextIndex + 1;
        claims := claims + [index];
        var work := enriched[index];
        AskedNext(provider, works, index, isPublic);
        if HasCoreMetric(provider, work) || work.sourceUrl.None? || !isPublic(work.sourceUrl.value) {
          return;
        }
        requests := requests + {index};
        HoldsOneMore(works, workers, holder, w, index);
        workers := workers[w := Awaiting(index, work)];
        holder := holder[index := w];
      } else {
        PendingDrops(workers, w, Done);
        workers := workers[w := Done];
      }
    }

    /** The reply to a waiting worker's request arrives, or the request fails. */
    method Settle(w: nat)
      requires Valid() && w < |workers| && workers[w].Awaiting?
      modifies this, enriched
      ensures Valid()
      ensures nextIndex == old(nextIndex) && Pending(workers) < old(Pending(workers))
    {
      var Awaiting(index, work) := workers[w];
      var reply := detail(index);
      if reply.Some? && reply.value.id != "" && reply.value.id == work.id {
        enriched[index] := reply.value;
      }
      PendingDrops(workers, w, Ready);
      HoldsOneLess(works, workers, holder, w);
      workers := workers[w := Ready];
      holder := holder - {index};
      assert forall i | 0 <= i < |works| && i != index :: enriched[i] == old(enriched[i]) && Current(i) == old(Current(i));
      assert enriched[index] == Current(index);
    }
  }

  /** The worker pool. Which worker resumes next is left open at every step, so the contract
      speaks of every interleaving. The pool ends; its array equals the sequential map;
      indices are claimed once each, in order; and the requests made are for exactly the
      works that need one. */
  method EnrichHistoryMetrics(provider: Provider, works: seq<Work>, isPublic: string -> bool, detail: nat -> Option<Work>)
    returns (enriched: seq<Work>, ghost claims: seq<nat>, ghost requests: set<nat>)
    ensures enriched == Sequential(provider, works, isPublic, detail)
    ensures provider.Xhs? || provider.Bili? ==>
              claims == seq(|works|, i => i) && requests == Asked(provider, works, |works|, isPublic)
    ensures !(provider.Xhs? || provider.Bili?) ==> requests == {}
  {
    if !provider.Xhs? && !provider.Bili? {
      return works, [], {};
    }
    var pool := new WorkerPool(provider, works, isPublic, detail);
    while exists w :: 0 <= w < |pool.workers| && !pool.workers[w].Done?
      invariant pool.Valid() && fresh(pool) && fresh(pool.enriched)
      decreases |works| - pool.nextIndex, Pending(pool.workers)
    {
      var w :| 0 <= w < |pool.workers| && !pool.workers[w].Done?;
      if pool.workers[w].Ready? {
        pool.Advance(w);
      } else {
        pool.Settle(w);
      }
    }
    AllSettled(works, pool.workers, pool.holder);
    assert works != [] ==> pool.workers[0].Done?;
    enriched, claims, requests := pool.enriched[..], pool.claims, pool.requests;
    assert forall i | 0 <= i < |works| :: enriched[i] == pool.Current(i);
  }

  lemma AllSettled(works: seq<Work>, workers: seq<Worker>, holder: map<nat, nat>)
    requires Holds(works, workers, holder) && forall w | 0 <= w < |workers| :: workers[w].Done?
    ensures holder == map[]
  {
    assert holder.Keys == {};
  }

  function Asked(provider: Provider, works: seq<Work>, n: nat, isPublic: string -> bool): set<nat>
    requires n <= |works|
  {
    set i | 0 <= i < n && NeedsDetail(provider, works[i], isPublic)
  }

  lemma AskedNext(provider: Provider, works: seq<Work>, n: nat, isPublic: string -> bool)
    requires n < |works|
    ensures Asked(provider, works, n + 1, isPublic)
              == Asked(provider, works, n, isPublic) + if NeedsDetail(provider, works[n], isPublic) then {n} else {}
  {
  }

  lemma HoldsOneMore(works: seq<Work>, workers: seq<Worker>, holder: map<nat, nat>, w: nat, i: nat)
    requires Holds(works, workers, holder) && w < |workers| && workers[w].Ready? && i < |works| && i !in holder
    ensures Holds(works, workers[w := Awaiting(i, works[i])], holder[i := w])
  {
  }

  lemma HoldsOneLess(works: seq<Work>, workers: seq<Worker>, holder: map<nat, nat>, w: nat)
    requires Holds(works, workers, holder) && w < |workers| && workers[w].Awaiting?
    ensures Holds(works, workers[w := Ready], holder - {workers[w].index})
  {
  }

  /** `holder` is the inverse of the indices the workers wait for. */
  ghost predicate Holds(works: seq<Work>, workers: seq<Worker>, holder: map<nat, nat>) {
    && (forall i | i in holder ::
          i < |works| && holder[i] < |workers| && workers[holder[i]] == Awaiting(i, works[i]))
    && (forall w | 0 <= w < |workers| && workers[w].Awaiting? ::
          workers[w].index in holder && holder[workers[w].index] == w)
  }

  function Sequential(provider: Provider, works: seq<Work>, isPublic: string -> bool, detail: nat -> Option<Work>): seq<Work> {
    if provider.Xhs? || provider.Bili? then
      seq(|works|, i requires 0 <= i < |works| => Enriched(provider, works[i], isPublic, detail(i)))
    else works
  }

  ghost function Pending(workers: seq<Worker>): nat {
    if workers == [] then 0
    else Pending(workers[..|workers| - 1]) +
         match workers[|workers| - 1] case Done => 0 case Ready => 1 case Awaiting(_, _) => 2
  }

  lemma {:induction false} PendingDrops(workers: seq<Worker>, w: nat, to: Worker)
    requires w < |workers|
    requires (workers[w].Ready? && to.Done?) || (workers[w].Awaiting? && to.Ready?)
    ensures Pending(workers[w := to]) + 1 == Pending(workers)
  {
    var after := workers[w := to];
    if w == |workers| - 1 {
      assert after[..w] == workers[..w];
    } else {
      PendingDrops(workers[..|workers| - 1], w, to);
      assert after[..|workers| - 1] == workers[..|workers| - 1][w := to];
    }
  }

  /** The work lacks what its provider is asked for: a like count, and of Xiaohongshu the count
      of favourites too; and it has a public address to ask for it at. */
  ghost predicate Incomplete(provider: Provider, work: Work, isPublic: string -> bool) {
    && ((provider.Bili? && work.likes.None?) || (provider.Xhs? && (work.likes.None? || work.favorites.None?)))
    && work.sourceUrl.Some? && isPublic(work.sourceUrl.value)
  }

  /** Which works are asked for and which are replaced, said of the works and replies alone. */
  lemma EnrichedIff(provider: Provider, works: seq<Work>, isPublic: string -> bool, detail: nat -> Option<Work>, i: nat)
    requires i < |works|
    ensures |Sequential(provider, works, isPublic, detail)| == |works|
    ensures Sequential(provider, works, isPublic, detail)[i] ==
              if Incomplete(provider, works[i], isPublic) && detail(i).Some? && works[i].id != "" && detail(i).value.id == works[i].id
              then detail(i).value else works[i]
    ensures provider.Xhs? || provider.Bili? ==>
              (i in Asked(provider, works, |works|, isPublic) <==> Incomplete(provider, works[i], isPublic))
  {
    if provider.Xhs? || provider.Bili? {
      assert NeedsDetail(provider, works[i], isPublic) <==> Incomplete(provider, works[i], isPublic);
      assert Sequential(provider, works, isPublic, detail)[i] == Enriched(provider, works[i], isPublic, detail(i));
    } else {
      assert !Incomplete(provider, works[i], isPublic);
    }
  }

  /** Enrichment keeps the ids, so the history stays free of duplicates and of the target. */
  lemma EnrichmentKeepsIds(provider: Provider, works: seq<Work>, isPublic: string -> bool, detail: nat -> Option<Work>)
    ensures var r := Sequential(provider, works, isPublic, detail);
            |r| == |works| && forall i | 0 <= i < |works| :: r[i].id == works[i].id
  {
    if provider.Xhs? || provider.Bili? {
      forall i | 0 <= i < |works| ensures Sequential(provider, works, isPublic, detail)[i].id == works[i].id {
        var d := detail(i);
        assert Enriched(provider, works[i], isPublic, d).id == works[i].id;
      }
    }
  }
}
