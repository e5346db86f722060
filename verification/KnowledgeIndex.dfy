/** `KnowledgeIndex` and the gateway's `knowledge_search`: a versioned store of vectors with
    transactional upserts, and the search that takes the best by vector score and then the
    best of those by rerank score.

    The embedding and scoring models are parameters, scores are reals, and SQLite is a set of
    named databases whose transactions may fail to commit. */
module KnowledgeIndex {
  import opened StableSort
  import opened Wrappers

  type Vector = seq<real>

  datatype Chunk = Chunk(text: string, metadata: string, accessScope: string, vector: Vector)

  datatype Meta = Meta(indexVersion: string, chunkVersion: string, modelRevision: string, dimensions: nat)

  datatype Index = Index(meta: Option<Meta>, chunks: map<string, Chunk>)

  const EMPTY := Index(None, map[])

  datatype Document = Document(id: string, text: string, metadata: Option<string>, accessScope: string)

  /** The foreign functions: `str.strip`, `normalized` (none for a zero vector), the embedding
      model and the reranking model's verdict on one query and document. */
  datatype Engine = Engine(
    strip: string -> string,
    normalise: Vector -> Option<Vector>,
    embed: string -> Vector,
    relevance: (string, string) -> real)
  {
    /** Normalising keeps the dimension. */
    ghost predicate Lawful() {
      forall v :: normalise(v).Some? ==> |normalise(v).value| == |v|
    }
  }

  const MAX_DOCUMENTS := 128
  const DEFAULT_SCOPE := "local-private"

  datatype UpsertError =
    | LengthMismatch | DocumentCount | BadDimensions | BadIdentifier | MetadataMismatch
    | EmptyText | BadMetadata | ZeroVector | CommitFailed

  datatype Request = Request(
    name: string,
    indexVersion: string,
    chunkVersion: string,
    modelRevision: string,
    documents: seq<Document>,
    vectors: seq<Vector>,
    replace: bool)

  predicate IsIdentifierChar(c: char) {
    'A' <= c <= 'Z' || 'a' <= c <= 'z' || '0' <= c <= '9' || c == '.' || c == '_' || c == '-'
  }

  /** `required_identifier` */
  function Identifier(e: Engine, value: string): Option<string> {
    var candidate := e.strip(value);
    if 1 <= |candidate| <= 120 && forall i | 0 <= i < |candidate| :: IsIdentifierChar(candidate[i])
    then Some(candidate) else None
  }

  /** 1 to 120 letters, digits, dots, underscores and dashes, once stripped. */
  ghost predicate IsName(e: Engine, value: string) {
    && 1 <= |e.strip(value)| <= 120
    && forall c | c in e.strip(value) :: 'A' <= c <= 'Z' || 'a' <= c <= 'z' || '0' <= c <= '9' || c in {'.', '_', '-'}
  }

  lemma IdentifierIff(e: Engine, value: string)
    ensures Identifier(e, value) == if IsName(e, value) then Some(e.strip(value)) else None
  {
    var name := e.strip(value);
    forall i | 0 <= i < |name| ensures name[i] in name {
    }
    forall c ensures IsIdentifierChar(c) <==> 'A' <= c <= 'Z' || 'a' <= c <= 'z' || '0' <= c <= '9' || c in {'.', '_', '-'} {
    }
  }

  // ----- upsert -----

  predicate SameDimensions(vectors: seq<Vector>) {
    forall i | 0 <= i < |vectors| :: |vectors[i]| == |vectors[0]|
  }

  /** The checks made before the database is opened. */
  function Refusal(e: Engine, r: Request): Option<UpsertError> {
    if |r.documents| != |r.vectors| then Some(LengthMismatch)
    else if r.documents == [] || |r.documents| > MAX_DOCUMENTS then Some(DocumentCount)
    else if r.vectors[0] == [] || !SameDimensions(r.vectors) then Some(BadDimensions)
    else if Identifier(e, r.name).None? then Some(BadIdentifier)
    else None
  }

  datatype Entry = Entry(id: string, chunk: Chunk)

  /** One document as it is stored. */
  function EntryOf(e: Engine, d: Document, v: Vector): Result<Entry, UpsertError> {
    var id := Identifier(e, d.id);
    var text := e.strip(d.text);
    if id.None? then Err(BadIdentifier)
    else if text == "" then Err(EmptyText)
    else if d.metadata.None? then Err(BadMetadata)
    else if e.normalise(v).None? then Err(ZeroVector)
    else Ok(Entry(id.value, Chunk(Take(text, 100000), d.metadata.value,
                                  Take(if d.accessScope == "" then DEFAULT_SCOPE else d.accessScope, 200),
                                  e.normalise(v).value)))
  }

  type Chunks = map<string, Chunk>

  /** The chunks after storing the remaining documents, or the first error. */
  function Store(e: Engine, documents: seq<Document>, vectors: seq<Vector>, chunks: Chunks): Result<Chunks, UpsertError>
    requires |documents| == |vectors|
  {
    if documents == [] then Ok(chunks)
    else
      var entry := EntryOf(e, documents[0], vectors[0]);
      if entry.Err? then Err(entry.error)
      else Store(e, documents[1..], vectors[1..], chunks[entry.value.id := entry.value.chunk])
  }

  function Expected(e: Engine, r: Request): Option<Meta>
    requires r.vectors != []
  {
    var index, chunk := Identifier(e, r.indexVersion), Identifier(e, r.chunkVersion);
    if index.None? || chunk.None? then None
    else Some(Meta(index.value, chunk.value, r.modelRevision, |r.vectors[0]|))
  }

  /** The transaction, from the index it finds. */
  function Transaction(e: Engine, r: Request, found: Index): Result<Index, UpsertError>
    requires Refusal(e, r).None?
  {
    var expected := Expected(e, r);
    if expected.None? then Err(BadIdentifier)
    else if found.meta.Some? && found.meta != expected then Err(MetadataMismatch)
    else
      var chunks := Store(e, r.documents, r.vectors, found.chunks);
      if chunks.Err? then Err(chunks.error) else Ok(Index(expected, chunks.value))
  }

  type Files = map<string, Index>

  /** What an index holds; a database that does not exist holds nothing. */
  function Contents(files: Files, name: string): Index {
    if name in files then files[name] else EMPTY
  }

  /** `upsert`, with `commits` saying whether SQLite commits. Opening creates the database,
      and `replace` has deleted the old one before the transaction begins. */
  function Upserted(e: Engine, r: Request, files: Files, commits: bool): Outcome {
    if Refusal(e, r).Some? then Outcome(files, Err(Refusal(e, r).value))
    else
      var name := Identifier(e, r.name).value;
      var found := Found(e, r, files);
      var draft := Transaction(e, r, found);
      if draft.Err? then Outcome(files[name := found], Err(draft.error))
      else if !commits then Outcome(files[name := found], Err(CommitFailed))
      else Outcome(files[name := draft.value], Ok(|draft.value.chunks|))
  }

  datatype Outcome = Outcome(files: Files, result: Result<nat, UpsertError>)

  /** The index the transaction finds. */
  function Found(e: Engine, r: Request, files: Files): Index
    requires Refusal(e, r).None?
  {
    if r.replace then EMPTY else Contents(files, Identifier(e, r.name).value)
  }

  // ----- candidates and knowledge_search -----

  datatype Hit = Hit(id: string, text: string, metadata: string, accessScope: string, vectorScore: real, rerankScore: Option<real>)

  datatype SearchError = UnknownIndex | VersionMismatch | WrongDimensions | Unnormalisable | InvalidName

  function Dot(a: Vector, b: Vector): real {
    if a == [] || b == [] then 0.0 else a[0] * b[0] + Dot(a[1..], b[1..])
  }

  /** No scopes at all means no restriction. */
  predicate InScope(scopes: seq<string>, chunk: Chunk) {
    scopes == [] || chunk.accessScope in scopes
  }

  /** The rows a query may return: the chunks in scope, each once, in any order. */
  ghost predicate Selected(rows: seq<string>, chunks: Chunks, scopes: seq<string>) {
    && (forall i, j | 0 <= i < j < |rows| :: rows[i] != rows[j])
    && (forall id :: id in rows <==> id in chunks && InScope(scopes, chunks[id]))
  }

  function HitOf(e: Engine, id: string, chunk: Chunk, query: Vector): Hit
    requires e.normalise(chunk.vector).Some?
  {
    Hit(id, chunk.text, chunk.metadata, chunk.accessScope, Dot(query, e.normalise(chunk.vector).value), None)
  }

  ghost predicate Scorable(e: Engine, chunks: Chunks, rows: seq<string>) {
    forall i | 0 <= i < |rows| :: rows[i] in chunks && e.normalise(chunks[rows[i]].vector).Some?
  }

  ghost function Hits(e: Engine, chunks: Chunks, rows: seq<string>, query: Vector): seq<Hit>
    requires Scorable(e, chunks, rows)
  {
    seq(|rows|, i requires 0 <= i < |rows| => HitOf(e, rows[i], chunks[rows[i]], query))
  }

  /** Higher scores first. */
  const byVector := (a: Hit, b: Hit) => a.vectorScore >= b.vectorScore

  function RerankScore(h: Hit): real {
    if h.rerankScore.Some? then h.rerankScore.value else 0.0
  }

  const byRerank := (a: Hit, b: Hit) => RerankScore(a) >= RerankScore(b)

  /** What stops a search of an index before any row is scored. */
  function SearchRefusal(e: Engine, files: Files, name: string, version: string, query: Vector): Option<SearchError> {
    var id := Identifier(e, name);
    if id.None? then Some(InvalidName)
    else if id.value !in files then Some(UnknownIndex)
    else if files[id.value].meta.None? || files[id.value].meta.value.indexVersion != version then Some(VersionMismatch)
    else if files[id.value].meta.value.dimensions != |query| then Some(WrongDimensions)
    else None
  }

  /** `candidates`, for the rows the database returned. */
  ghost function Retrieved(e: Engine, files: Files, name: string, version: string, query: Vector, rows: seq<string>, topK: nat)
    : Result<seq<Hit>, SearchError>
  {
    if SearchRefusal(e, files, name, version, query).Some? then Err(SearchRefusal(e, files, name, version, query).value)
    else
      var chunks := files[Identifier(e, name).value].chunks;
      if e.normalise(query).None? || !Scorable(e, chunks, rows) then Err(Unnormalisable)
      else Ok(Take(Sort(Hits(e, chunks, rows, e.normalise(query).value), byVector), topK))
  }

  /** The hits with the reranking model's verdict on each. */
  function Judged(e: Engine, query: string, hits: seq<Hit>): (r: seq<Hit>)
    ensures |r| == |hits|
  {
    seq(|hits|, i requires 0 <= i < |hits| => hits[i].(rerankScore := Some(e.relevance(query, hits[i].text))))
  }

  function Clamp(low: int, value: int, high: int): int {
    if (if value < high then value else high) < low then low else if value < high then value else high
  }

  datatype Verdict = Verdict(index: nat, score: real)

  const byVerdict := (a: Verdict, b: Verdict) => a.score >= b.score

  function Verdicts(e: Engine, query: string, texts: seq<string>): (r: seq<Verdict>)
    ensures |r| == |texts|
  {
    seq(|texts|, i requires 0 <= i < |texts| => Verdict(i, e.relevance(query, texts[i])))
  }

  function Texts(hits: seq<Hit>): (r: seq<string>)
    ensures |r| == |hits|
  {
    seq(|hits|, i requires 0 <= i < |hits| => hits[i].text)
  }

  /** The sorted verdicts name every position, and only positions, with that position's score. */
  lemma VerdictsCover(e: Engine, query: string, hits: seq<Hit>)
    ensures var sorted := Sort(Verdicts(e, query, Texts(hits)), byVerdict);
            && (forall k | 0 <= k < |sorted| ::
                  sorted[k].index < |hits| && sorted[k].score == e.relevance(query, hits[sorted[k].index].text))
            && (forall i | 0 <= i < |hits| :: Verdict(i, e.relevance(query, hits[i].text)) in sorted)
  {
    var all := Verdicts(e, query, Texts(hits));
    var sorted := Sort(all, byVerdict);
    SortSorted(all, byVerdict);
    forall k | 0 <= k < |sorted|
      ensures sorted[k].index < |hits| && sorted[k].score == e.relevance(query, hits[sorted[k].index].text)
    {
      assert sorted[k] in multiset(sorted);
      assert sorted[k] in multiset(all);
    }
    forall i | 0 <= i < |hits| ensures Verdict(i, e.relevance(query, hits[i].text)) in sorted {
      assert all[i] in multiset(all);
      assert all[i] in multiset(sorted);
    }
  }

  /** `payload.get("accessScopes") or ["local-private"]` */
  function Scopes(scopes: Option<seq<string>>): seq<string> {
    if scopes.None? || scopes.value == [] then [DEFAULT_SCOPE] else scopes.value
  }

  /** What the request asks to see: the scopes it names, or the private one when it names none. */
  predicate Wanted(scopes: Option<seq<string>>, accessScope: string) {
    if scopes.Some? && scopes.value != [] then accessScope in scopes.value else accessScope == "local-private"
  }

  /** The rows are the chunks the request asks to see, each once, in any order. */
  ghost predicate Answers(rows: seq<string>, chunks: Chunks, scopes: Option<seq<string>>) {
    && (forall i, j | 0 <= i < j < |rows| :: rows[i] != rows[j])
    && (forall id :: id in rows <==> id in chunks && Wanted(scopes, chunks[id].accessScope))
  }

  lemma AnswersSelect(rows: seq<string>, chunks: Chunks, scopes: Option<seq<string>>)
    requires Answers(rows, chunks, scopes)
    ensures Selected(rows, chunks, Scopes(scopes))
  {
    forall scope: string ensures scope in [DEFAULT_SCOPE] <==> scope == "local-private" {
    }
  }

  ghost function Searched(e: Engine, files: Files, query: string, name: string, version: string, rows: seq<string>, topK: int, rerankTopK: int)
    : Result<seq<Hit>, SearchError>
  {
    var top := Clamp(1, topK, 50);
    var found := Retrieved(e, files, name, version, e.embed(query), rows, top);
    if found.Err? then found
    else Ok(Take(Sort(Judged(e, query, found.value), byRerank), Clamp(1, rerankTopK, top)))
  }

  class KnowledgeIndex {
    var files: Files
    const engine: Engine

    constructor (engine: Engine)
      ensures files == map[] && this.engine == engine
    {
      files, this.engine := map[], engine;
    }

    method Upsert(r: Request, commits: bool) returns (result: Result<nat, UpsertError>)
      modifies this
      ensures Outcome(files, result) == Upserted(engine, r, old(files), commits)
    {
      if |r.documents| != |r.vectors| {
        return Err(LengthMismatch);
      }
      if |r.documents| == 0 || |r.documents| > MAX_DOCUMENTS {
        return Err(DocumentCount);
      }
      var dimensions := |r.vectors[0]|;
      if dimensions == 0 || !SameDimensions(r.vectors) {
        return Err(BadDimensions);
      }
      var id := Identifier(engine, r.name);
      if id.None? {
        return Err(BadIdentifier);
      }
      var name := id.value;
      var current := Open(name, r.replace);
      var expected := Expected(engine, r);
      if expected.None? {
        return Err(BadIdentifier);
      }
      if current.meta.Some? && current.meta != expected {
        return Err(MetadataMismatch);
      }
      var draft := StoreAll(r.documents, r.vectors, current.chunks);
      if draft.Err? {
        return Err(draft.error);
      }
      if !commits {
        return Err(CommitFailed);
      }
      files := files[name := Index(expected, draft.value)];
      result := Ok(|draft.value|);
    }

    /** Delete the old database if asked to, then connect, which creates a missing one. */
    method Open(name: string, replace: bool) returns (current: Index)
      modifies this
      ensures current == if replace then EMPTY else Contents(old(files), name)
      ensures files == old(files)[name := current]
    {
      if replace && name in files {
        files := files - {name};
      }
      if name !in files {
        files := files[name := EMPTY];
      }
      current := files[name];
    }

    /** The loop of the transaction, on its working copy. */
    method StoreAll(documents: seq<Document>, vectors: seq<Vector>, chunks: Chunks)
      returns (r: Result<Chunks, UpsertError>)
      requires |documents| == |vectors|
      ensures r == Store(engine, documents, vectors, chunks)
    {
      var draft := chunks;
      for n := 0 to |documents|
        invariant Store(engine, documents[n..], vectors[n..], draft) == Store(engine, documents, vectors, chunks)
      {
        assert documents[n..][1..] == documents[n + 1..] && vectors[n..][1..] == vectors[n + 1..];
        var entry := EntryOf(engine, documents[n], vectors[n]);
        if entry.Err? {
          return Err(entry.error);
        }
        draft := draft[entry.value.id := entry.value.chunk];
      }
      r := Ok(draft);
    }

    /** `candidates`: score the rows one by one, sort, keep the first `topK`. */
    method Candidates(name: string, version: string, queryVector: Vector, scopes: seq<string>, rows: seq<string>, topK: nat)
      returns (r: Result<seq<Hit>, SearchError>)
      requires SearchRefusal(engine, files, name, version, queryVector).None? ==>
                 Selected(rows, files[Identifier(engine, name).value].chunks, scopes)
      ensures r == Retrieved(engine, files, name, version, queryVector, rows, topK)
    {
      var id := Identifier(engine, name);
      if id.None? {
        return Err(InvalidName);
      }
      if id.value !in files {
        return Err(UnknownIndex);
      }
      var current := files[id.value];
      if current.meta.None? || current.meta.value.indexVersion != version {
        return Err(VersionMismatch);
      }
      if current.meta.value.dimensions != |queryVector| {
        return Err(WrongDimensions);
      }
      var query := engine.normalise(queryVector);
      if query.None? {
        return Err(Unnormalisable);
      }
      var scored := ScoreRows(current.chunks, rows, query.value);
      if scored.None? {
        return Err(Unnormalisable);
      }
      r := Ok(Take(Sort(scored.value, byVector), topK));
    }

    method ScoreRows(chunks: Chunks, rows: seq<string>, query: Vector) returns (r: Option<seq<Hit>>)
      requires forall i | 0 <= i < |rows| :: rows[i] in chunks
      ensures r == if Scorable(engine, chunks, rows) then Some(Hits(engine, chunks, rows, query)) else None
    {
      var scored: seq<Hit> := [];
      for n := 0 to |rows|
        invariant |scored| == n
        invariant forall i | 0 <= i < n :: engine.normalise(chunks[rows[i]].vector).Some? && scored[i] == HitOf(engine, rows[i], chunks[rows[i]], query)
      {
        if engine.normalise(chunks[rows[n]].vector).None? {
          return None;
        }
        scored := scored + [HitOf(engine, rows[n], chunks[rows[n]], query)];
      }
      assert scored == Hits(engine, chunks, rows, query);
      r := Some(scored);
    }

    /** `knowledge_search` after its parameters are read: the vector search, then the rerank of
        what it found, each verdict written into the candidate its index names. */
    method Search(query: string, name: string, version: string, scopes: Option<seq<string>>, rows: seq<string>, topK: int, rerankTopK: int)
      returns (r: Result<seq<Hit>, SearchError>)
      requires SearchRefusal(engine, files, name, version, engine.embed(query)).None? ==>
                 Answers(rows, files[Identifier(engine, name).value].chunks, scopes)
      ensures r == Searched(engine, files, query, name, version, rows, topK, rerankTopK)
    {
      if SearchRefusal(engine, files, name, version, engine.embed(query)).None? {
        AnswersSelect(rows, files[Identifier(engine, name).value].chunks, scopes);
      }
      var top := Clamp(1, topK, 50);
      var rerankTop := Clamp(1, rerankTopK, top);
      var found := Candidates(name, version, engine.embed(query), Scopes(scopes), rows, top);
      if found.Err? {
        return Err(found.error);
      }
      var candidates := found.value;
      if candidates != [] {
        var reranked := Sort(Verdicts(engine, query, Texts(candidates)), byVerdict);
        candidates := Assign(query, candidates, reranked);
        candidates := Sort(candidates, byRerank);
      }
      r := Ok(Take(candidates, rerankTop));
    }

    method Assign(query: string, hits: seq<Hit>, reranked: seq<Verdict>) returns (candidates: seq<Hit>)
      requires reranked == Sort(Verdicts(engine, query, Texts(hits)), byVerdict)
      ensures candidates == Judged(engine, query, hits)
    {
      VerdictsCover(engine, query, hits);
      candidates := hits;
      ghost var judged := Judged(engine, query, hits);
      for k := 0 to |reranked|
        invariant |candidates| == |hits|
        invariant forall i | 0 <= i < |hits| :: candidates[i] == hits[i] || candidates[i] == judged[i]
        invariant forall j | 0 <= j < k :: candidates[reranked[j].index] == judged[reranked[j].index]
      {
        var score := reranked[k];
        candidates := candidates[score.index := candidates[score.index].(rerankScore := Some(score.score))];
      }
      forall i | 0 <= i < |hits| ensures candidates[i] == judged[i] {
        var j :| 0 <= j < |reranked| && reranked[j] == Verdict(i, engine.relevance(query, hits[i].text));
      }
    }
  }

  // ----- The dimension invariant and what a failure changes -----

  ghost predicate Uniform(index: Index) {
    && (index.meta.None? ==> index.chunks == map[])
    && (index.meta.Some? ==> index.meta.value.dimensions > 0)
    && forall id | id in index.chunks :: |index.chunks[id].vector| == index.meta.value.dimensions
  }

  ghost predicate Inv(files: Files) {
    forall name | name in files :: Uniform(files[name])
  }

  ghost predicate AllOf(chunks: Chunks, dimensions: nat) {
    forall id | id in chunks :: |chunks[id].vector| == dimensions
  }

  lemma {:induction false} StoreUniform(e: Engine, documents: seq<Document>, vectors: seq<Vector>, chunks: Chunks, dimensions: nat)
    requires e.Lawful() && |documents| == |vectors|
    requires forall i | 0 <= i < |vectors| :: |vectors[i]| == dimensions
    requires AllOf(chunks, dimensions)
    ensures Store(e, documents, vectors, chunks).Ok? ==> AllOf(Store(e, documents, vectors, chunks).value, dimensions)
  {
    if documents != [] {
      var entry := EntryOf(e, documents[0], vectors[0]);
      if entry.Ok? {
        assert |e.normalise(vectors[0]).value| == |vectors[0]|;
        StoreUniform(e, documents[1..], vectors[1..], chunks[entry.value.id := entry.value.chunk], dimensions);
      }
    }
  }

  lemma UpsertKeeps(e: Engine, r: Request, files: Files, commits: bool)
    requires e.Lawful() && Inv(files)
    ensures Inv(Upserted(e, r, files, commits).files)
  {
    if Refusal(e, r).None? {
      var found := Found(e, r, files);
      var dimensions := |r.vectors[0]|;
      assert r.vectors[0] != [];
      assert Uniform(found);
      if Transaction(e, r, found).Ok? {
        assert AllOf(found.chunks, dimensions);
        StoreUniform(e, r.documents, r.vectors, found.chunks, dimensions);
      }
    }
  }

  function AfterUpserts(e: Engine, files: Files, requests: seq<(Request, bool)>): Files
    decreases |requests|
  {
    if requests == [] then files
    else AfterUpserts(e, Upserted(e, requests[0].0, files, requests[0].1).files, requests[1..])
  }

  /** In every index reachable by any upserts, succeeding or failing, replacing or not, all
      stored vectors have the dimension the metadata records. */
  lemma {:induction false} VectorsHaveIndexDimension(e: Engine, files: Files, requests: seq<(Request, bool)>)
    requires e.Lawful() && Inv(files)
    ensures Inv(AfterUpserts(e, files, requests))
    decreases |requests|
  {
    if requests != [] {
      UpsertKeeps(e, requests[0].0, files, requests[0].1);
      VectorsHaveIndexDimension(e, Upserted(e, requests[0].0, files, requests[0].1).files, requests[1..]);
    }
  }

  /** A failing upsert changes nothing exactly when it was refused before the database was
      opened, or the database existed and, if it was to be replaced, was empty. Otherwise it
      leaves an empty database behind. */
  lemma FailureChangesNothingIff(e: Engine, r: Request, files: Files, commits: bool)
    requires Upserted(e, r, files, commits).result.Err?
    ensures Upserted(e, r, files, commits).files == files <==>
              || Refusal(e, r).Some?
              || (var name := Identifier(e, r.name).value; name in files && (r.replace ==> files[name] == EMPTY))
  {
    if Refusal(e, r).None? {
      var name := Identifier(e, r.name).value;
      var after := Upserted(e, r, files, commits).files;
      assert name in after && after[name] == Found(e, r, files);
      if name in files && files[name] == Found(e, r, files) {
        assert after == files;
      }
    }
  }

  /** The empty database left behind for a new name shows: searches of it are refused for
      another reason than before. */
  lemma FailedUpsertChangesAnswer(e: Engine, r: Request, files: Files, commits: bool, version: string, query: Vector)
    requires Refusal(e, r).None? && Upserted(e, r, files, commits).result.Err?
    requires Identifier(e, r.name).value !in files
    ensures SearchRefusal(e, files, r.name, version, query) == Some(UnknownIndex)
    ensures SearchRefusal(e, Upserted(e, r, files, commits).files, r.name, version, query) == Some(VersionMismatch)
  {
  }

  /** What the indexes hold is the same exactly when the upsert did not replace, or was refused
      before the database was opened, or had nothing to lose. */
  lemma FailureKeepsContentsIff(e: Engine, r: Request, files: Files, commits: bool)
    requires Upserted(e, r, files, commits).result.Err?
    ensures var after := Upserted(e, r, files, commits).files;
            (forall name :: Contents(after, name) == Contents(files, name)) <==>
              (r.replace && Refusal(e, r).None? ==> Contents(files, Identifier(e, r.name).value) == EMPTY)
  {
    var after := Upserted(e, r, files, commits).files;
    if Refusal(e, r).None? {
      var id := Identifier(e, r.name).value;
      assert Contents(after, id) == if r.replace then EMPTY else Contents(files, id);
      assert forall name | name != id :: Contents(after, name) == Contents(files, name);
    }
  }

  /** A replacement whose commit fails: the index that was there is gone. */
  lemma FailedReplacementEmptiesIndex(e: Engine, r: Request, files: Files)
    requires Refusal(e, r).None? && r.replace
    ensures Upserted(e, r, files, false).result.Err?
    ensures Contents(Upserted(e, r, files, false).files, Identifier(e, r.name).value) == EMPTY
  {
  }

  /** The last document with the id. */
  function LastWith(e: Engine, documents: seq<Document>, id: string): (r: Option<nat>)
    ensures r.Some? ==> r.value < |documents| && Identifier(e, documents[r.value].id) == Some(id)
    ensures forall j | (if r.Some? then r.value + 1 else 0) <= j < |documents| :: Identifier(e, documents[j].id) != Some(id)
  {
    if documents == [] then None
    else
      var later := LastWith(e, documents[1..], id);
      assert forall j | 0 < j < |documents| :: documents[j] == documents[1..][j - 1];
      if later.Some? then Some(later.value + 1)
      else if Identifier(e, documents[0].id) == Some(id) then Some(0)
      else None
  }

  /** The document's trimmed text and its scope, both cut to length, its metadata, and its
      vector normalised. */
  ghost predicate IsChunkOf(e: Engine, d: Document, v: Vector, chunk: Chunk) {
    && e.strip(d.text) != "" && chunk.text == Take(e.strip(d.text), 100000)
    && Some(chunk.metadata) == d.metadata
    && chunk.accessScope == Take(if d.accessScope == "" then "local-private" else d.accessScope, 200)
    && Some(chunk.vector) == e.normalise(v)
  }

  /** Where the chunk under an id comes from: the last document with that id, or, when there
      is none, what was there before. */
  ghost predicate Holds(e: Engine, documents: seq<Document>, vectors: seq<Vector>, before: Chunks, after: Chunks, id: string)
    requires |documents| == |vectors|
  {
    var last := LastWith(e, documents, id);
    if last.Some? then id in after && IsChunkOf(e, documents[last.value], vectors[last.value], after[id])
    else (id in after <==> id in before) && (id in before ==> after[id] == before[id])
  }

  lemma {:induction false} StoreHolds(e: Engine, documents: seq<Document>, vectors: seq<Vector>, chunks: Chunks, id: string)
    requires |documents| == |vectors| && Store(e, documents, vectors, chunks).Ok?
    ensures Holds(e, documents, vectors, chunks, Store(e, documents, vectors, chunks).value, id)
  {
    if documents != [] {
      var entry := EntryOf(e, documents[0], vectors[0]).value;
      StoreHolds(e, documents[1..], vectors[1..], chunks[entry.id := entry.chunk], id);
    }
  }

  /** What a successful upsert stores, and that it touches no other index. */
  lemma SuccessStores(e: Engine, r: Request, files: Files, id: string)
    requires Upserted(e, r, files, true).result.Ok?
    ensures var name := Identifier(e, r.name).value;
            var after := Upserted(e, r, files, true).files;
            && (forall other | other != name :: Contents(after, other) == Contents(files, other))
            && Contents(after, name).meta.Some?
            && Contents(after, name).meta.value.modelRevision == r.modelRevision
            && Some(Contents(after, name).meta.value.indexVersion) == Identifier(e, r.indexVersion)
            && Some(Contents(after, name).meta.value.chunkVersion) == Identifier(e, r.chunkVersion)
            && (forall v | v in r.vectors :: |v| == Contents(after, name).meta.value.dimensions > 0)
            && Upserted(e, r, files, true).result == Ok(|Contents(after, name).chunks|)
            && Holds(e, r.documents, r.vectors, Found(e, r, files).chunks, Contents(after, name).chunks, id)
  {
    StoreHolds(e, r.documents, r.vectors, Found(e, r, files).chunks, id);
  }

  ghost predicate Uneven(vectors: seq<Vector>) {
    exists v, w | v in vectors && w in vectors :: |v| == 0 || |v| != |w|
  }

  ghost predicate SomeUnnamed(e: Engine, documents: seq<Document>) {
    exists d | d in documents :: !IsName(e, d.id)
  }

  ghost predicate SomeEmpty(e: Engine, documents: seq<Document>) {
    exists d | d in documents :: e.strip(d.text) == ""
  }

  ghost predicate SomeUndescribed(documents: seq<Document>) {
    exists d | d in documents :: d.metadata.None?
  }

  ghost predicate SomeZero(e: Engine, vectors: seq<Vector>) {
    exists v | v in vectors :: e.normalise(v).None?
  }

  /** The index was made for other versions, another model or other dimensions. */
  ghost predicate MadeOtherwise(e: Engine, r: Request, meta: Meta) {
    || meta.indexVersion != e.strip(r.indexVersion)
    || meta.chunkVersion != e.strip(r.chunkVersion)
    || meta.modelRevision != r.modelRevision
    || exists v | v in r.vectors :: |v| != meta.dimensions
  }

  /** What an upsert says is wrong is so. */
  ghost predicate UpsertFault(e: Engine, r: Request, files: Files, commits: bool, error: UpsertError) {
    match error
    case LengthMismatch => |r.documents| != |r.vectors|
    case DocumentCount => !(1 <= |r.documents| <= 128)
    case BadDimensions => Uneven(r.vectors)
    case BadIdentifier =>
      || !IsName(e, r.name) || !IsName(e, r.indexVersion) || !IsName(e, r.chunkVersion)
      || SomeUnnamed(e, r.documents)
    case MetadataMismatch =>
      && !r.replace && e.strip(r.name) in files
      && files[e.strip(r.name)].meta.Some?
      && MadeOtherwise(e, r, files[e.strip(r.name)].meta.value)
    case EmptyText => SomeEmpty(e, r.documents)
    case BadMetadata => SomeUndescribed(r.documents)
    case ZeroVector => SomeZero(e, r.vectors)
    case CommitFailed => !commits
  }

  lemma {:induction false} StoreOkIff(e: Engine, documents: seq<Document>, vectors: seq<Vector>, chunks: Chunks)
    requires |documents| == |vectors|
    ensures var r := Store(e, documents, vectors, chunks);
            && (r.Ok? <==> forall i | 0 <= i < |documents| :: EntryOf(e, documents[i], vectors[i]).Ok?)
            && (r.Err? ==> exists i | 0 <= i < |documents| :: EntryOf(e, documents[i], vectors[i]) == Err(r.error))
  {
    if documents != [] {
      var entry := EntryOf(e, documents[0], vectors[0]);
      assert forall i | 0 <= i < |documents| - 1 :: documents[1..][i] == documents[i + 1] && vectors[1..][i] == vectors[i + 1];
      if entry.Ok? {
        StoreOkIff(e, documents[1..], vectors[1..], chunks[entry.value.id := entry.value.chunk]);
        var r := Store(e, documents[1..], vectors[1..], chunks[entry.value.id := entry.value.chunk]);
        if r.Err? {
          var i :| 0 <= i < |documents[1..]| && EntryOf(e, documents[1..][i], vectors[1..][i]) == Err(r.error);
          assert EntryOf(e, documents[i + 1], vectors[i + 1]) == Err(r.error);
        }
      }
    }
  }

  lemma RefusalTells(e: Engine, r: Request, files: Files, commits: bool)
    ensures Refusal(e, r).Some? ==> UpsertFault(e, r, files, commits, Refusal(e, r).value)
    ensures Refusal(e, r).None? ==>
              IsName(e, r.name) && |r.documents| == |r.vectors| && 1 <= |r.documents| <= 128 && !Uneven(r.vectors)
  {
    IdentifierIff(e, r.name);
    if |r.vectors| > 0 {
      assert r.vectors[0] in r.vectors;
      if !SameDimensions(r.vectors) {
        var i :| 0 <= i < |r.vectors| && |r.vectors[i]| != |r.vectors[0]|;
        assert r.vectors[i] in r.vectors;
      }
    }
  }

  lemma ExpectedTells(e: Engine, r: Request, meta: Meta)
    requires Refusal(e, r).None? && Expected(e, r).Some?
    ensures Some(meta) != Expected(e, r) <==> MadeOtherwise(e, r, meta)
  {
    IdentifierIff(e, r.indexVersion);
    IdentifierIff(e, r.chunkVersion);
    assert r.vectors[0] in r.vectors;
    forall v | v in r.vectors ensures |v| == |r.vectors[0]| {
    }
  }

  lemma EntryTells(e: Engine, r: Request, files: Files, commits: bool, i: nat)
    requires |r.documents| == |r.vectors| && i < |r.documents|
    ensures var entry := EntryOf(e, r.documents[i], r.vectors[i]);
            && (entry.Err? ==> UpsertFault(e, r, files, commits, entry.error))
            && (entry.Ok? <==>
                  && IsName(e, r.documents[i].id) && e.strip(r.documents[i].text) != ""
                  && r.documents[i].metadata.Some? && e.normalise(r.vectors[i]).Some?)
  {
    IdentifierIff(e, r.documents[i].id);
    assert r.documents[i] in r.documents && r.vectors[i] in r.vectors;
  }

  lemma StoreTells(e: Engine, r: Request, files: Files, commits: bool, chunks: Chunks)
    requires |r.documents| == |r.vectors|
    ensures var t := Store(e, r.documents, r.vectors, chunks);
            && (t.Err? ==> UpsertFault(e, r, files, commits, t.error))
            && (t.Ok? ==>
                  && !SomeUnnamed(e, r.documents)
                  && !SomeEmpty(e, r.documents)
                  && !SomeUndescribed(r.documents)
                  && !SomeZero(e, r.vectors))
  {
    StoreOkIff(e, r.documents, r.vectors, chunks);
    forall i | 0 <= i < |r.documents|
      ensures var entry := EntryOf(e, r.documents[i], r.vectors[i]);
              && (entry.Err? ==> UpsertFault(e, r, files, commits, entry.error))
              && (entry.Ok? <==>
                    && IsName(e, r.documents[i].id) && e.strip(r.documents[i].text) != ""
                    && r.documents[i].metadata.Some? && e.normalise(r.vectors[i]).Some?)
    {
      EntryTells(e, r, files, commits, i);
    }
  }

  /** An upsert succeeds exactly when nothing is wrong with it, and otherwise names one thing that is. */
  lemma UpsertSucceedsIff(e: Engine, r: Request, files: Files, commits: bool)
    ensures var result := Upserted(e, r, files, commits).result;
            && (result.Ok? <==> forall error :: !UpsertFault(e, r, files, commits, error))
            && (result.Err? ==> UpsertFault(e, r, files, commits, result.error))
  {
    var result := Upserted(e, r, files, commits).result;
    RefusalTells(e, r, files, commits);
    IdentifierIff(e, r.name);
    IdentifierIff(e, r.indexVersion);
    IdentifierIff(e, r.chunkVersion);
    if Refusal(e, r).None? {
      var found := Found(e, r, files);
      if found.meta.Some? && Expected(e, r).Some? {
        ExpectedTells(e, r, found.meta.value);
      }
      StoreTells(e, r, files, commits, found.chunks);
    }
    if result.Err? {
      assert UpsertFault(e, r, files, commits, result.error);
    }
  }

  // ----- What a search returns -----

  lemma OrdersAreTotal()
    ensures TotalPreorder(byVector) && TotalPreorder(byRerank)
  {
  }

  /** The hit reports a chunk of the index as it is stored. */
  ghost predicate Reports(e: Engine, chunks: Chunks, query: string, h: Hit) {
    && h.id in chunks
    && var c := chunks[h.id];
       && h.text == c.text && h.metadata == c.metadata && h.accessScope == c.accessScope
       && e.normalise(c.vector).Some? && e.normalise(e.embed(query)).Some?
       && h.vectorScore == Dot(e.normalise(e.embed(query)).value, e.normalise(c.vector).value)
       && h.rerankScore == Some(e.relevance(query, c.text))
  }

  function HitId(h: Hit): string {
    h.id
  }

  lemma HitsDistinct(e: Engine, chunks: Chunks, rows: seq<string>, scopes: seq<string>, query: Vector)
    requires Selected(rows, chunks, scopes) && Scorable(e, chunks, rows)
    ensures DistinctBy(Hits(e, chunks, rows, query), HitId)
  {
  }

  lemma HitsReport(e: Engine, chunks: Chunks, rows: seq<string>, scopes: seq<string>, query: string, pool: seq<Hit>)
    requires Selected(rows, chunks, scopes) && Scorable(e, chunks, rows) && e.normalise(e.embed(query)).Some?
    requires multiset(pool) <= multiset(Hits(e, chunks, rows, e.normalise(e.embed(query)).value))
    ensures forall h | h in Judged(e, query, pool) :: Reports(e, chunks, query, h) && InScope(scopes, chunks[h.id])
  {
    var hits := Hits(e, chunks, rows, e.normalise(e.embed(query)).value);
    var judged := Judged(e, query, pool);
    forall h | h in judged ensures Reports(e, chunks, query, h) && InScope(scopes, chunks[h.id]) {
      var i :| 0 <= i < |judged| && judged[i] == h;
      assert pool[i] in multiset(pool) && pool[i] in multiset(hits);
      var k :| 0 <= k < |hits| && hits[k] == pool[i];
      assert rows[k] in rows;
    }
  }

  /** `cut` is `asked`, or the nearer of the bounds. */
  predicate CutTo(cut: nat, asked: int, high: nat) {
    && (asked < 1 ==> cut == 1)
    && (1 <= asked <= high ==> cut == asked)
    && (1 <= high < asked ==> cut == high)
  }

  /** A search that succeeds first takes the best by vector score of exactly the chunks the
      request asks to see, `topK` of them but no fewer than 1 and no more than 50; then the best
      of those by the reranking model, `rerankTopK` but no fewer than 1 and no more than before;
      and reports stored chunks it was asked for only, each at most once. */
  lemma SearchFindsTheBest(e: Engine, files: Files, query: string, name: string, version: string,
                           scopes: Option<seq<string>>, rows: seq<string>, topK: int, rerankTopK: int)
    returns (top: nat, rerankTop: nat)
    requires var id := Identifier(e, name); id.Some? && id.value in files && Answers(rows, files[id.value].chunks, scopes)
    requires Searched(e, files, query, name, version, rows, topK, rerankTopK).Ok?
    ensures CutTo(top, topK, 50) && CutTo(rerankTop, rerankTopK, top)
    ensures var chunks := files[Identifier(e, name).value].chunks;
            var pool := Retrieved(e, files, name, version, e.embed(query), rows, top).value;
            var results := Searched(e, files, query, name, version, rows, topK, rerankTopK).value;
            && Scorable(e, chunks, rows)
            && Best(pool, top, multiset(Hits(e, chunks, rows, e.normalise(e.embed(query)).value)), byVector)
            && Best(results, rerankTop, multiset(Judged(e, query, pool)), byRerank)
            && (forall h | h in results :: Reports(e, chunks, query, h) && Wanted(scopes, chunks[h.id].accessScope))
            && DistinctBy(results, HitId)
  {
    var chunks := files[Identifier(e, name).value].chunks;
    var hits := Hits(e, chunks, rows, e.normalise(e.embed(query)).value);
    top := Clamp(1, topK, 50);
    rerankTop := Clamp(1, rerankTopK, top);
    AnswersSelect(rows, chunks, scopes);
    HitsDistinct(e, chunks, rows, Scopes(scopes), e.normalise(e.embed(query)).value);
    BothStages(e, query, hits, top, rerankTop);
    var pool := Take(Sort(hits, byVector), top);
    HitsReport(e, chunks, rows, Scopes(scopes), query, pool);
    ResultsReport(e, chunks, query, scopes, Judged(e, query, pool), Take(Sort(Judged(e, query, pool), byRerank), rerankTop));
  }

  /** The two stages, on any hits. */
  lemma BothStages(e: Engine, query: string, hits: seq<Hit>, top: nat, rerankTop: nat)
    requires DistinctBy(hits, HitId)
    ensures var pool := Take(Sort(hits, byVector), top);
            var judged := Judged(e, query, pool);
            var results := Take(Sort(judged, byRerank), rerankTop);
            && Best(pool, top, multiset(hits), byVector)
            && Best(results, rerankTop, multiset(judged), byRerank)
            && DistinctBy(results, HitId)
  {
    OrdersAreTotal();
    var pool := Take(Sort(hits, byVector), top);
    var judged := Judged(e, query, pool);
    FirstAreBest(hits, top, byVector);
    FirstAreBest(judged, rerankTop, byRerank);
    SubDistinct(pool, hits, HitId);
    assert DistinctBy(judged, HitId);
    SubDistinct(Take(Sort(judged, byRerank), rerankTop), judged, HitId);
  }

  lemma ResultsReport(e: Engine, chunks: Chunks, query: string, scopes: Option<seq<string>>, judged: seq<Hit>, results: seq<Hit>)
    requires multiset(results) <= multiset(judged)
    requires forall h | h in judged :: Reports(e, chunks, query, h) && InScope(Scopes(scopes), chunks[h.id])
    ensures forall h | h in results :: Reports(e, chunks, query, h) && Wanted(scopes, chunks[h.id].accessScope)
  {
    forall h | h in results ensures h in judged && Wanted(scopes, chunks[h.id].accessScope) {
      assert h in multiset(results) && h in multiset(judged);
    }
  }

  /** What the search says is wrong is so. */
  ghost predicate SearchFault(e: Engine, files: Files, query: string, name: string, version: string, scopes: Option<seq<string>>, error: SearchError) {
    if !IsName(e, name) then error == InvalidName
    else if e.strip(name) !in files then error == UnknownIndex
    else
      var index := files[e.strip(name)];
      match error
      case VersionMismatch => index.meta.None? || index.meta.value.indexVersion != version
      case WrongDimensions => index.meta.Some? && index.meta.value.dimensions != |e.embed(query)|
      case Unnormalisable =>
        || e.normalise(e.embed(query)).None?
        || exists row | row in index.chunks && Wanted(scopes, index.chunks[row].accessScope) :: e.normalise(index.chunks[row].vector).None?
      case _ => false
  }

  /** A search succeeds exactly when nothing is wrong with it, and otherwise names one thing that is. */
  lemma SearchSucceedsIff(e: Engine, files: Files, query: string, name: string, version: string,
                          scopes: Option<seq<string>>, rows: seq<string>, topK: int, rerankTopK: int)
    requires IsName(e, name) && e.strip(name) in files ==> Answers(rows, files[e.strip(name)].chunks, scopes)
    ensures var r := Searched(e, files, query, name, version, rows, topK, rerankTopK);
            && (r.Ok? <==> forall error :: !SearchFault(e, files, query, name, version, scopes, error))
            && (r.Err? ==> SearchFault(e, files, query, name, version, scopes, r.error))
  {
    var r := Searched(e, files, query, name, version, rows, topK, rerankTopK);
    IdentifierIff(e, name);
    if IsName(e, name) && e.strip(name) in files {
      ScorableIff(e, files[e.strip(name)].chunks, scopes, rows);
    }
    if r.Err? {
      assert SearchFault(e, files, query, name, version, scopes, r.error);
    }
  }

  lemma ScorableIff(e: Engine, chunks: Chunks, scopes: Option<seq<string>>, rows: seq<string>)
    requires Answers(rows, chunks, scopes)
    ensures Scorable(e, chunks, rows) <==>
              forall row | row in chunks && Wanted(scopes, chunks[row].accessScope) :: e.normalise(chunks[row].vector).Some?
  {
    forall i | 0 <= i < |rows| ensures rows[i] in chunks && Wanted(scopes, chunks[rows[i]].accessScope) {
      assert rows[i] in rows;
    }
  }
}
