/**
 The ingestion pipeline: up to three transactions a task, interleaved with other
 tasks, failures and deletions. A transaction either commits as a whole or changes
 nothing.
 */
module Ingestion {
  import opened Wrappers
  import Budget
  import Chunking

  type DocId = nat
  type TaskId = nat

  datatype Status = Pending | Processing | Ready | Failed

  datatype Document = Document(storageKey: string, status: Status, error: Option<string>)

  /** Unique per document and index. */
  datatype RowKey = RowKey(doc: DocId, index: nat)

  datatype ChunkRow = ChunkRow(content: string, tokenCount: nat, embedding: seq<real>)

  type Rows = map<RowKey, ChunkRow>

  datatype EmbeddingEvent = EmbeddingEvent(doc: Option<DocId>, inputTokens: nat, stored: nat)

  datatype Db = Db(docs: map<DocId, Document>, rows: Rows, usage: seq<EmbeddingEvent>)

  datatype Provider = Provider(name: string, model: string)

  const MAX_ERROR := 1024

  function Truncated(error: string): string {
    if |error| > MAX_ERROR then error[..MAX_ERROR] else error
  }

  function TokenSum(chunks: seq<string>): nat {
    if chunks == [] then 0
    else TokenSum(chunks[..|chunks| - 1]) + Chunking.EstimateTokens(chunks[|chunks| - 1])
  }

  function Row(content: string, embedding: seq<real>): ChunkRow {
    ChunkRow(content, Chunking.EstimateTokens(content), embedding)
  }

  // ---- What the transactions do ----

  function SetStatus(db: Db, id: DocId, status: Status, error: Option<string>): Db {
    if id in db.docs then db.(docs := db.docs[id := db.docs[id].(status := status, error := error)]) else db
  }

  function Cleared(rows: Rows, id: DocId): Rows {
    map k | k in rows && k.doc != id :: rows[k]
  }

  function Inserted(rows: Rows, id: DocId, chunks: seq<string>, vectors: seq<seq<real>>, n: nat): Rows
    requires n <= |chunks| && n <= |vectors|
  {
    if n == 0 then rows
    else Inserted(rows, id, chunks, vectors, n - 1)[RowKey(id, n - 1) := Row(chunks[n - 1], vectors[n - 1])]
  }

  /** Chunks and usage refer to the document, so they cannot be stored without it. */
  predicate CanStore(db: Db, id: DocId, chunks: seq<string>, vectors: seq<seq<real>>) {
    |chunks| == |vectors| && (chunks != [] ==> id in db.docs)
  }

  function UsageOf(id: DocId, chunks: seq<string>, provider: Provider): seq<EmbeddingEvent> {
    if chunks == [] then []
    else
      var total := TokenSum(chunks);
      [EmbeddingEvent(Some(id), total, Budget.Rounded(Budget.EmbeddingCost(provider.name, provider.model, total)))]
  }

  function Stored(db: Db, id: DocId, chunks: seq<string>, vectors: seq<seq<real>>, provider: Provider): Db
    requires |chunks| == |vectors|
  {
    SetStatus(Db(db.docs, Inserted(Cleared(db.rows, id), id, chunks, vectors, |chunks|),
                 db.usage + UsageOf(id, chunks, provider)),
              id, Ready, None)
  }

  /** Deleting a document deletes its chunks and detaches its usage events. */
  function Deleted(db: Db, id: DocId): Db {
    Db(db.docs - {id}, Cleared(db.rows, id), Detached(db.usage, id))
  }

  function Detached(usage: seq<EmbeddingEvent>, id: DocId): (r: seq<EmbeddingEvent>)
    ensures |r| == |usage|
    ensures forall i | 0 <= i < |usage| :: r[i].inputTokens == usage[i].inputTokens && r[i].stored == usage[i].stored
  {
    seq(|usage|, i requires 0 <= i < |usage| =>
      if usage[i].doc == Some(id) then usage[i].(doc := None) else usage[i])
  }

  datatype Started = NotFound | NoStorageKey | Begun(storageKey: string)

  function StartOf(db: Db, id: DocId): Started {
    if id !in db.docs then NotFound
    else if db.docs[id].storageKey == "" then NoStorageKey
    else Begun(db.docs[id].storageKey)
  }

  /** The text of an error that is stored: all of it, or its first 1024 characters. */
  lemma TruncatedExact(error: string)
    ensures Truncated(error) <= error && |Truncated(error)| <= 1024
    ensures |Truncated(error)| < |error| ==> |Truncated(error)| == 1024
  {
  }

  // ---- The program ----

  /** What happens outside the database: the text of the document, or why there is none, and the vectors. */
  datatype Outside = Outside(text: Result<string>, vectors: Result<seq<seq<real>>>, dbFails: bool)

  class Database {
    var docs: map<DocId, Document>
    var rows: Rows
    var usage: seq<EmbeddingEvent>

    function State(): Db
      reads this
    {
      Db(docs, rows, usage)
    }

    constructor ()
      ensures State() == Db(map[], map[], [])
    {
      docs, rows, usage := map[], map[], [];
    }

    /** First transaction: read the storage key and mark the document as being processed. */
    method Start(id: DocId) returns (r: Started)
      modifies this
      ensures r == StartOf(old(State()), id)
      ensures r.NotFound? <==> id !in old(docs)
      ensures r.NoStorageKey? <==> id in old(docs) && old(docs)[id].storageKey == ""
      ensures r.Begun? ==>
                && r.storageKey == old(docs)[id].storageKey
                && docs == old(docs)[id := Document(r.storageKey, Processing, None)]
      ensures State() == if r.Begun? then SetStatus(old(State()), id, Processing, None) else old(State())
    {
      if id !in docs {
        return NotFound;
      }
      if docs[id].storageKey == "" {
        return NoStorageKey;
      }
      r := Begun(docs[id].storageKey);
      docs := docs[id := docs[id].(status := Processing, error := None)];
    }

    /** Second transaction: replace the chunks, record the usage and mark the document as ready. */
    method Store(id: DocId, chunks: seq<string>, vectors: seq<seq<real>>, provider: Provider, dbFails: bool)
      returns (committed: bool)
      modifies this
      ensures committed == (!dbFails && CanStore(old(State()), id, chunks, vectors))
      ensures committed <==> !dbFails && |chunks| == |vectors| && (chunks == [] || id in old(docs))
      ensures State() == if committed then Stored(old(State()), id, chunks, vectors, provider) else old(State())
      ensures committed && id in docs ==>
                docs == old(docs)[id := Document(old(docs)[id].storageKey, Ready, None)]
      ensures committed ==>
                var cost := Budget.EmbeddingCost(provider.name, provider.model, TokenSum(chunks));
                usage == old(usage)
                  + if chunks == [] then [] else [EmbeddingEvent(Some(id), TokenSum(chunks), Budget.Rounded(cost))]
    {
      var savedRows := rows;
      rows := map k | k in rows && k.doc != id :: rows[k];
      var index := 0;
      while index < |chunks| && index < |vectors|
        invariant 0 <= index <= |chunks| && index <= |vectors|
        invariant rows == Inserted(Cleared(savedRows, id), id, chunks, vectors, index)
        invariant docs == old(docs) && usage == old(usage)
      {
        rows := rows[RowKey(id, index) := Row(chunks[index], vectors[index])];
        index := index + 1;
      }
      if dbFails || |chunks| != |vectors| || (chunks != [] && id !in docs) {
        rows := savedRows;
        return false;
      }
      if chunks != [] {
        var total := SumTokens(chunks);
        var cost := Budget.EmbeddingCost(provider.name, provider.model, total);
        usage := usage + [EmbeddingEvent(Some(id), total, Budget.Rounded(cost))];
      }
      if id in docs {
        docs := docs[id := docs[id].(status := Ready, error := None)];
      }
      return true;
    }

    /** Third transaction, after a failure. */
    method Fail(id: DocId, error: string)
      modifies this
      ensures State() == SetStatus(old(State()), id, Failed, Some(Truncated(error)))
    {
      if id in docs {
        docs := docs[id := docs[id].(status := Failed, error := Some(Truncated(error)))];
      }
    }

    method Delete(id: DocId)
      modifies this
      ensures State() == Deleted(old(State()), id)
    {
      docs := docs - {id};
      rows := map k | k in rows && k.doc != id :: rows[k];
      usage := Detached(usage, id);
    }
  }

  method SumTokens(chunks: seq<string>) returns (total: nat)
    ensures total == TokenSum(chunks)
  {
    total := 0;
    for i := 0 to |chunks|
      invariant total == TokenSum(chunks[..i])
    {
      assert chunks[..i + 1][..i] == chunks[..i];
      total := total + Chunking.EstimateTokens(chunks[i]);
    }
    assert chunks[..|chunks|] == chunks;
  }

  /** The embeddings arrive, one for each chunk, and the database accepts the transaction. */
  ghost predicate Delivers(outside: Outside, chunks: seq<string>) {
    !outside.dbFails && (chunks != [] ==> outside.vectors.Success? && |outside.vectors.value| == |chunks|)
  }

  function VectorsFor(outside: Outside, chunks: seq<string>): seq<seq<real>>
    requires chunks != [] ==> outside.vectors.Success?
  {
    if chunks == [] then [] else outside.vectors.value
  }

  /** What a task does to a document that it began to process. */
  ghost predicate Outcome(before: Db, after: Db, id: DocId, size: int, overlap: int, provider: Provider,
                          outside: Outside, r: Result<nat>)
  {
    && (r.Failure? ==> after == SetStatus(before, id, Failed, Some(Truncated(r.error))))
    && (outside.text.Failure? ==> r == Failure(outside.text.error))
    && (outside.text.Success? && !(0 <= overlap < size) ==> r == Failure(SizeError(size)))
    && (outside.text.Success? && 0 <= overlap < size ==>
          exists chunks :: Chunking.ChunkedAs(outside.text.value, size, overlap, chunks)
                           && OutcomeFor(before, after, id, provider, outside, chunks, r))
  }

  ghost predicate OutcomeFor(before: Db, after: Db, id: DocId, provider: Provider,
                             outside: Outside, chunks: seq<string>, r: Result<nat>)
  {
    if Delivers(outside, chunks) then
      && r == Success(|chunks|)
      && after == Stored(SetStatus(before, id, Processing, None), id, chunks, VectorsFor(outside, chunks), provider)
    else if chunks != [] && outside.vectors.Failure? then r == Failure(outside.vectors.error)
    else r == Failure(STORE_FAILED)
  }

  /** The error of chunking for sizes that are not possible. */
  function SizeError(size: int): string {
    if size <= 0 then "size must be positive" else "overlap must satisfy 0 <= overlap < size"
  }

  /** Stands for the text of whatever the second transaction raises. */
  const STORE_FAILED := "store failed"

  /**
   One task that nothing interferes with. A failure after the first transaction
   marks the document as failed and is raised again.
   */
  method RunIngestion(db: Database, id: DocId, size: int, overlap: int, provider: Provider, outside: Outside)
    returns (r: Result<nat>)
    modifies db
    ensures match StartOf(old(db.State()), id)
            case NotFound => r == Success(0) && db.State() == old(db.State())
            case NoStorageKey => r.Failure? && db.State() == old(db.State())
            case Begun(_) => Outcome(old(db.State()), db.State(), id, size, overlap, provider, outside, r)
  {
    var started := db.Start(id);
    match started
    case NotFound => return Success(0);
    case NoStorageKey => return Failure("document has no storage_key");
    case Begun(_) =>
      var error := if outside.text.Failure? then outside.text.error else "";
      if outside.text.Success? {
        var chunked := Chunking.ChunkText(outside.text.value, size, overlap);
        if chunked.Failure? {
          error := chunked.error;
        } else {
          var chunks := chunked.value;
          if chunks != [] && outside.vectors.Failure? {
            error := outside.vectors.error;
          } else {
            var committed := db.Store(id, chunks, VectorsFor(outside, chunks), provider, outside.dbFails);
            if committed {
              return Success(|chunks|);
            }
            error := STORE_FAILED;
          }
        }
      }
      db.Fail(id, error);
      return Failure(error);
  }

  // ---- All interleavings ----

  /** A committed store transaction. */
  datatype Commit = Commit(task: TaskId, doc: DocId, chunks: seq<string>, vectors: seq<seq<real>>)

  datatype Task = Waiting(doc: DocId) | Working(doc: DocId) | Failing(doc: DocId, error: string)
                | Finished(doc: DocId) | Raised(doc: DocId)

  /** `used` are the ids that documents have had; they are never given out again. */
  datatype World = World(db: Db, used: set<DocId>, tasks: map<TaskId, Task>, commits: seq<Commit>)

  datatype Step =
    | Create(doc: DocId, storageKey: string)
    | Delete(doc: DocId)
    | Enqueue(task: TaskId, doc: DocId)
    | Begin(task: TaskId)
    | WorkFails(task: TaskId, error: string)
    | Store(task: TaskId, chunks: seq<string>, vectors: seq<seq<real>>, provider: Provider, dbFails: bool)
    | MarkFailed(task: TaskId)

  /** A step that is not possible changes nothing. */
  function Next(w: World, step: Step): World {
    match step
    case Create(doc, key) =>
      if doc in w.used then w
      else w.(used := w.used + {doc}, db := w.db.(docs := w.db.docs[doc := Document(key, Pending, None)]))
    case Delete(doc) => w.(db := Deleted(w.db, doc))
    case Enqueue(task, doc) => if task in w.tasks then w else w.(tasks := w.tasks[task := Waiting(doc)])
    case Begin(task) =>
      if task !in w.tasks || !w.tasks[task].Waiting? then w
      else
        var doc := w.tasks[task].doc;
        (match StartOf(w.db, doc)
         case NotFound => w.(tasks := w.tasks[task := Finished(doc)])
         case NoStorageKey => w.(tasks := w.tasks[task := Raised(doc)])
         case Begun(_) => w.(db := SetStatus(w.db, doc, Processing, None), tasks := w.tasks[task := Working(doc)]))
    case WorkFails(task, error) =>
      if task !in w.tasks || !w.tasks[task].Working? then w
      else w.(tasks := w.tasks[task := Failing(w.tasks[task].doc, error)])
    case Store(task, chunks, vectors, provider, dbFails) =>
      if task !in w.tasks || !w.tasks[task].Working? then w
      else
        var doc := w.tasks[task].doc;
        if !dbFails && CanStore(w.db, doc, chunks, vectors) then
          World(Stored(w.db, doc, chunks, vectors, provider), w.used, w.tasks[task := Finished(doc)],
                w.commits + [Commit(task, doc, chunks, vectors)])
        else w.(tasks := w.tasks[task := Failing(doc, STORE_FAILED)])
    case MarkFailed(task) =>
      if task !in w.tasks || !w.tasks[task].Failing? then w
      else
        var doc := w.tasks[task].doc;
        w.(db := SetStatus(w.db, doc, Failed, Some(Truncated(w.tasks[task].error))),
           tasks := w.tasks[task := Raised(doc)])
  }

  const EMPTY := World(Db(map[], map[], []), {}, map[], [])

  function Run(steps: seq<Step>): World {
    if steps == [] then EMPTY else Next(Run(steps[..|steps| - 1]), steps[|steps| - 1])
  }

  // ---- Chunks ----

  /** The most recent committed store transaction of the document. */
  function LastCommit(commits: seq<Commit>, doc: DocId): Option<Commit> {
    if commits == [] then None
    else if commits[|commits| - 1].doc == doc then Some(commits[|commits| - 1])
    else LastCommit(commits[..|commits| - 1], doc)
  }

  /** The document has exactly the chunks 0, ..., n - 1 with these contents and vectors. */
  ghost predicate HasChunks(rows: Rows, doc: DocId, chunks: seq<string>, vectors: seq<seq<real>>) {
    && |chunks| == |vectors|
    && forall i: nat ::
         if i < |chunks| then RowKey(doc, i) in rows && rows[RowKey(doc, i)] == Row(chunks[i], vectors[i])
         else RowKey(doc, i) !in rows
  }

  /** Chunks and vectors of the last commit, or none. */
  function LastStored(commits: seq<Commit>, doc: DocId): (seq<string>, seq<seq<real>>) {
    if LastCommit(commits, doc).None? then ([], [])
    else (LastCommit(commits, doc).value.chunks, LastCommit(commits, doc).value.vectors)
  }

  ghost predicate ChunksOfLastCommit(w: World, doc: DocId) {
    var stored := LastStored(w.commits, doc);
    HasChunks(w.db.rows, doc, stored.0, stored.1)
  }

  ghost predicate ChunkInv(w: World) {
    && w.db.docs.Keys <= w.used
    && (forall c | c in w.commits :: c.doc in w.used)
    && (forall task | task in w.tasks && w.tasks[task].Working? :: w.tasks[task].doc in w.used)
    && (forall doc | doc in w.db.docs :: ChunksOfLastCommit(w, doc))
    && (forall k | k in w.db.rows :: k.doc in w.db.docs)
  }

  lemma {:induction false} InsertedRows(rows: Rows, id: DocId, chunks: seq<string>,
                                       vectors: seq<seq<real>>, n: nat, k: RowKey)
    requires n <= |chunks| && n <= |vectors|
    ensures var r := Inserted(Cleared(rows, id), id, chunks, vectors, n);
            if k.doc == id then
              (k in r <==> k.index < n) && (k.index < n ==> r[k] == Row(chunks[k.index], vectors[k.index]))
            else (k in r <==> k in rows) && (k in rows ==> r[k] == rows[k])
  {
    if n > 0 {
      InsertedRows(rows, id, chunks, vectors, n - 1, k);
    }
  }

  lemma StoredChunks(db: Db, id: DocId, chunks: seq<string>, vectors: seq<seq<real>>, provider: Provider)
    requires |chunks| == |vectors|
    ensures var rows := Stored(db, id, chunks, vectors, provider).rows;
            && HasChunks(rows, id, chunks, vectors)
            && (forall k: RowKey | k.doc != id :: (k in rows <==> k in db.rows)
                  && (k in rows ==> rows[k] == db.rows[k]))
            && (forall k: RowKey | k in rows && k.doc == id :: chunks != [])
  {
    var rows := Stored(db, id, chunks, vectors, provider).rows;
    forall k: RowKey
      ensures if k.doc == id then
                (k in rows <==> k.index < |chunks|)
                && (k.index < |chunks| ==> rows[k] == Row(chunks[k.index], vectors[k.index]))
              else (k in rows <==> k in db.rows) && (k in rows ==> rows[k] == db.rows[k])
    {
      InsertedRows(db.rows, id, chunks, vectors, |chunks|, k);
    }
  }

  /** The most recent commit for a document is one of its commits, if it has any. */
  lemma {:induction false} LastCommitIn(commits: seq<Commit>, doc: DocId)
    ensures match LastCommit(commits, doc)
            case None => forall c | c in commits :: c.doc != doc
            case Some(c) => c in commits && c.doc == doc
  {
    if commits != [] {
      LastCommitIn(commits[..|commits| - 1], doc);
      assert commits == commits[..|commits| - 1] + [commits[|commits| - 1]];
    }
  }

  lemma LastCommitSnoc(commits: seq<Commit>, c: Commit, doc: DocId)
    ensures LastCommit(commits + [c], doc) == if c.doc == doc then Some(c) else LastCommit(commits, doc)
  {
    assert (commits + [c])[..|commits|] == commits;
  }

  lemma NewChunks(w: World, doc: DocId, c: Commit)
    requires LastCommit(w.commits, doc) == Some(c) && HasChunks(w.db.rows, doc, c.chunks, c.vectors)
    ensures ChunksOfLastCommit(w, doc)
  {
  }

  lemma SameRowsKeepChunks(w: World, w': World, doc: DocId)
    requires ChunksOfLastCommit(w, doc) && LastStored(w'.commits, doc) == LastStored(w.commits, doc)
    requires forall k: RowKey | k.doc == doc ::
               (k in w'.db.rows <==> k in w.db.rows) && (k in w.db.rows ==> w'.db.rows[k] == w.db.rows[k])
    ensures ChunksOfLastCommit(w', doc)
  {
  }

  lemma CreateKeepsChunks(w: World, doc: DocId, key: string)
    requires ChunkInv(w)
    ensures ChunkInv(Next(w, Create(doc, key)))
  {
    var w' := Next(w, Create(doc, key));
    if doc !in w.used {
      LastCommitIn(w.commits, doc);
      forall d | d in w'.db.docs ensures ChunksOfLastCommit(w', d) {
        if d in w.db.docs {
          SameRowsKeepChunks(w, w', d);
        } else {
          assert forall i: nat :: RowKey(doc, i) !in w.db.rows;
        }
      }
    }
  }

  lemma DeleteKeepsChunks(w: World, doc: DocId)
    requires ChunkInv(w)
    ensures ChunkInv(Next(w, Delete(doc)))
  {
    var w' := Next(w, Delete(doc));
    forall d | d in w'.db.docs ensures ChunksOfLastCommit(w', d) {
      SameRowsKeepChunks(w, w', d);
    }
  }

  lemma StoreKeepsChunks(w: World, task: TaskId, chunks: seq<string>, vectors: seq<seq<real>>,
                         provider: Provider, dbFails: bool)
    requires ChunkInv(w)
    ensures ChunkInv(Next(w, Store(task, chunks, vectors, provider, dbFails)))
  {
    var w' := Next(w, Store(task, chunks, vectors, provider, dbFails));
    if w'.commits != w.commits {
      var doc := w.tasks[task].doc;
      StoredChunks(w.db, doc, chunks, vectors, provider);
      var c := Commit(task, doc, chunks, vectors);
      assert w'.commits == w.commits + [c];
      forall d | d in w'.db.docs ensures ChunksOfLastCommit(w', d) {
        LastCommitSnoc(w.commits, c, d);
        if d == doc {
          NewChunks(w', d, c);
        } else {
          SameRowsKeepChunks(w, w', d);
        }
      }
    } else {
      OtherStepsKeepChunks(w, w');
    }
  }

  lemma OtherStepsKeepChunks(w: World, w': World)
    requires ChunkInv(w) && w'.used == w.used && w'.commits == w.commits
    requires w'.db.rows == w.db.rows && w'.db.docs.Keys == w.db.docs.Keys
    requires forall task | task in w'.tasks && w'.tasks[task].Working? :: w'.tasks[task].doc in w.used
    ensures ChunkInv(w')
  {
    forall d | d in w'.db.docs ensures ChunksOfLastCommit(w', d) {
      assert d in w.db.docs.Keys;
      SameRowsKeepChunks(w, w', d);
    }
  }

  /**
   Over every interleaving: a live document has exactly the chunks of its most recent
   committed store transaction, numbered from zero, or none if there was no such
   transaction; and a deleted document has no chunks.
   */
  lemma {:induction false} ChunksAreAtomic(steps: seq<Step>)
    ensures ChunkInv(Run(steps))
  {
    if steps != [] {
      var before, step := steps[..|steps| - 1], steps[|steps| - 1];
      ChunksAreAtomic(before);
      var w := Run(before);
      match step
      case Create(doc, key) => CreateKeepsChunks(w, doc, key);
      case Delete(doc) => DeleteKeepsChunks(w, doc);
      case Store(task, chunks, vectors, provider, dbFails) =>
        StoreKeepsChunks(w, task, chunks, vectors, provider, dbFails);
      case _ => OtherStepsKeepChunks(w, Next(w, step));
    }
  }

  /**
   In every run a document that is still there has the contents and vectors of its last commit
   at their indices, with the estimates of the contents as token counts, and nothing else.
   */
  lemma StoredContents(steps: seq<Step>, doc: DocId, i: nat)
    requires doc in Run(steps).db.docs && LastCommit(Run(steps).commits, doc).Some?
    ensures var c, rows := LastCommit(Run(steps).commits, doc).value, Run(steps).db.rows;
            && c.doc == doc && |c.vectors| == |c.chunks|
            && (RowKey(doc, i) in rows <==> i < |c.chunks|)
            && (i < |c.chunks| ==>
                  && rows[RowKey(doc, i)].content == c.chunks[i]
                  && rows[RowKey(doc, i)].embedding == c.vectors[i]
                  && rows[RowKey(doc, i)].tokenCount == Chunking.EstimateTokens(c.chunks[i]))
  {
    ChunksAreAtomic(steps);
    LastCommitIn(Run(steps).commits, doc);
    assert ChunksOfLastCommit(Run(steps), doc);
  }

  // ---- Status ----

  predicate Unfinished(t: Task) {
    t.Working? || t.Failing?
  }

  ghost predicate BeingProcessed(w: World, doc: DocId) {
    exists task :: task in w.tasks && Unfinished(w.tasks[task]) && w.tasks[task].doc == doc
  }

  /** A ready document has been stored, and one that is processing has a task that will finish it. */
  ghost predicate StatusInv(w: World) {
    forall doc | doc in w.db.docs ::
      && (w.db.docs[doc].status == Ready ==> LastCommit(w.commits, doc).Some?)
      && (w.db.docs[doc].status == Processing ==> BeingProcessed(w, doc))
  }

  lemma StepKeepsStatus(w: World, step: Step)
    requires StatusInv(w)
    ensures StatusInv(Next(w, step))
  {
    var w' := Next(w, step);
    if w'.commits != w.commits {
      assert w'.commits[..|w.commits|] == w.commits;
    }
    forall doc | doc in w'.db.docs
      ensures w'.db.docs[doc].status == Ready ==> LastCommit(w'.commits, doc).Some?
      ensures w'.db.docs[doc].status == Processing ==> BeingProcessed(w', doc)
    {
      if step.Begin? && w'.db.docs[doc].status == Processing && w.db.docs[doc].status != Processing {
        assert step.task in w'.tasks && Unfinished(w'.tasks[step.task]);
      } else if w'.db.docs[doc].status == Processing {
        var task :| task in w.tasks && Unfinished(w.tasks[task]) && w.tasks[task].doc == doc;
        assert task in w'.tasks && w'.tasks[task].doc == doc;
      }
    }
  }

  /**
   Over every interleaving a document is ready only after a store transaction, and is
   never left processing once its tasks have ended.
   */
  lemma {:induction false} StatusIsTruthful(steps: seq<Step>)
    ensures StatusInv(Run(steps))
  {
    if steps != [] {
      StatusIsTruthful(steps[..|steps| - 1]);
      StepKeepsStatus(Run(steps[..|steps| - 1]), steps[|steps| - 1]);
    }
  }

  /** What each step does to a document that is there before and after it. */
  lemma StatusAfterStep(w: World, step: Step, doc: DocId)
    requires doc in w.db.docs && doc in Next(w, step).db.docs
    requires w.db.docs.Keys <= w.used
    ensures var w' := Next(w, step);
            var d, d' := w.db.docs[doc], w'.db.docs[doc];
            && d'.storageKey == d.storageKey
            && if step.Begin? && step.task in w.tasks && w.tasks[step.task] == Waiting(doc) && d.storageKey != "" then
                 d'.status == Processing && d'.error == None && w'.tasks[step.task] == Working(doc)
               else if |w'.commits| > |w.commits| && w'.commits[|w.commits|].doc == doc then
                 d'.status == Ready && d'.error == None
               else if step.MarkFailed? && step.task in w.tasks && w.tasks[step.task].Failing?
                       && w.tasks[step.task].doc == doc then
                 && d'.status == Failed && d'.error.Some? && w'.tasks[step.task] == Raised(doc)
                 && d'.error.value <= w.tasks[step.task].error && |d'.error.value| <= 1024
                 && (d'.error.value == w.tasks[step.task].error || |d'.error.value| == 1024)
               else d' == d
  {
  }

  ghost predicate ErrorsInv(w: World) {
    forall doc | doc in w.db.docs ::
      && (w.db.docs[doc].error.Some? <==> w.db.docs[doc].status == Failed)
      && (w.db.docs[doc].error.Some? ==> |w.db.docs[doc].error.value| <= 1024)
  }

  lemma StepKeepsErrors(w: World, step: Step)
    requires ErrorsInv(w)
    ensures ErrorsInv(Next(w, step))
  {
    match step
    case MarkFailed(task) => if task in w.tasks && w.tasks[task].Failing? { TruncatedExact(w.tasks[task].error); }
    case _ =>
  }

  /** Over every interleaving exactly the failed documents have an error, of at most 1024 characters. */
  lemma {:induction false} ErrorExactlyWhenFailed(steps: seq<Step>)
    ensures ErrorsInv(Run(steps))
  {
    if steps != [] {
      ErrorExactlyWhenFailed(steps[..|steps| - 1]);
      StepKeepsErrors(Run(steps[..|steps| - 1]), steps[|steps| - 1]);
    }
  }

  /** A store transaction that the database accepts makes a live document ready, and ends its task. */
  lemma StoreMakesReady(w: World, task: TaskId, chunks: seq<string>, vectors: seq<seq<real>>, provider: Provider)
    requires task in w.tasks && w.tasks[task].Working? && w.tasks[task].doc in w.db.docs && |vectors| == |chunks|
    ensures var doc, w' := w.tasks[task].doc, Next(w, Store(task, chunks, vectors, provider, false));
            && w'.db.docs[doc].status == Ready && w'.db.docs[doc].error == None
            && w'.tasks[task] == Finished(doc)
            && w'.commits == w.commits + [Commit(task, doc, chunks, vectors)]
  {
  }

  /** Deleting takes the document and its rows, and leaves the other ones and the record of its usage. */
  lemma DeleteExact(w: World, doc: DocId)
    ensures var w' := Next(w, Delete(doc));
            && doc !in w'.db.docs
            && (forall d | d != doc :: d in w'.db.docs <==> d in w.db.docs)
            && (forall d | d in w'.db.docs :: w'.db.docs[d] == w.db.docs[d])
            && (forall k: RowKey :: k in w'.db.rows <==> k in w.db.rows && k.doc != doc)
            && (forall k | k in w'.db.rows :: w'.db.rows[k] == w.db.rows[k])
            && |w'.db.usage| == |w.db.usage|
            && (forall i | 0 <= i < |w.db.usage| ::
                  && w'.db.usage[i].inputTokens == w.db.usage[i].inputTokens
                  && w'.db.usage[i].stored == w.db.usage[i].stored
                  && w'.db.usage[i].doc == if w.db.usage[i].doc == Some(doc) then None else w.db.usage[i].doc)
  {
  }

  /** When a store transaction commits; without chunks it does so even if the document has been deleted. */
  lemma StoreCommitsExactly(w: World, task: TaskId, chunks: seq<string>, vectors: seq<seq<real>>,
                            provider: Provider, dbFails: bool)
    requires task in w.tasks && w.tasks[task].Working?
    ensures var doc, w' := w.tasks[task].doc, Next(w, Store(task, chunks, vectors, provider, dbFails));
            if !dbFails && |chunks| == |vectors| && (chunks == [] || doc in w.db.docs) then
              w'.commits == w.commits + [Commit(task, doc, chunks, vectors)] && w'.tasks[task] == Finished(doc)
            else
              w'.commits == w.commits && w'.db == w.db && w'.tasks[task].Failing?
  {
  }

  lemma Extend(steps: seq<Step>, step: Step) returns (longer: seq<Step>)
    ensures longer == steps + [step] && Run(longer) == Next(Run(steps), step)
  {
    longer := steps + [step];
    assert longer[..|steps|] == steps;
  }

  /** A task of a new document with a storage key has begun to work. */
  lemma WorkBegins(before: seq<Step>, doc: DocId, key: string, task: TaskId) returns (steps: seq<Step>)
    requires doc !in Run(before).used && task !in Run(before).tasks && key != ""
    ensures steps == before + [Create(doc, key)] + [Enqueue(task, doc)] + [Begin(task)]
    ensures var w := Run(steps);
            && doc in w.db.docs && w.db.docs[doc] == Document(key, Processing, None)
            && task in w.tasks && w.tasks[task] == Working(doc) && w.commits == Run(before).commits
  {
    steps := Extend(before, Create(doc, key));
    steps := Extend(steps, Enqueue(task, doc));
    steps := Extend(steps, Begin(task));
  }

  /** After every run a new document can be ingested, and ends ready with its chunks. */
  lemma IngestionCompletes(before: seq<Step>, doc: DocId, key: string, task: TaskId,
                           chunks: seq<string>, vectors: seq<seq<real>>, provider: Provider)
    returns (steps: seq<Step>)
    requires doc !in Run(before).used && task !in Run(before).tasks && key != "" && |vectors| == |chunks|
    ensures before <= steps
    ensures var w := Run(steps);
            && doc in w.db.docs && w.db.docs[doc] == Document(key, Ready, None)
            && LastCommit(w.commits, doc) == Some(Commit(task, doc, chunks, vectors))
            && forall i: nat :: RowKey(doc, i) in w.db.rows <==> i < |chunks|
  {
    steps := WorkBegins(before, doc, key, task);
    var w := Run(steps);
    StoreMakesReady(w, task, chunks, vectors, provider);
    steps := Extend(steps, Store(task, chunks, vectors, provider, false));
    LastCommitSnoc(w.commits, Commit(task, doc, chunks, vectors), doc);
    forall i: nat ensures RowKey(doc, i) in Run(steps).db.rows <==> i < |chunks| {
      StoredContents(steps, doc, i);
    }
  }

  /** After every run the work on a new document can fail, and it ends failed with that error and without rows. */
  lemma IngestionFails(before: seq<Step>, doc: DocId, key: string, task: TaskId, error: string)
    returns (steps: seq<Step>)
    requires doc !in Run(before).used && task !in Run(before).tasks && key != "" && |error| <= 1024
    ensures before <= steps
    ensures var w := Run(steps);
            && doc in w.db.docs && w.db.docs[doc] == Document(key, Failed, Some(error))
            && task in w.tasks && w.tasks[task] == Raised(doc)
  {
    steps := WorkBegins(before, doc, key, task);
    steps := Extend(steps, WorkFails(task, error));
    steps := Extend(steps, MarkFailed(task));
    TruncatedExact(error);
  }

  // ---- Failures ----

  ghost predicate FailuresStoreNothing(w: World) {
    forall c | c in w.commits :: c.task in w.tasks && w.tasks[c.task] == Finished(c.doc)
  }

  /** A task that fails has committed no chunks, in whatever transaction it failed. */
  lemma {:induction false} FailedTasksStoreNothing(steps: seq<Step>)
    ensures FailuresStoreNothing(Run(steps))
  {
    if steps != [] {
      FailedTasksStoreNothing(steps[..|steps| - 1]);
    }
  }

  /** Only a committed store transaction or a deletion changes the chunks of a document. */
  lemma {:induction false} ChunksChangeOnlyByCommit(w: World, step: Step, k: RowKey)
    requires ChunkInv(w)
    ensures var w' := Next(w, step);
            (k in w'.db.rows) != (k in w.db.rows) || (k in w.db.rows && w'.db.rows[k] != w.db.rows[k])
            ==> step == Delete(k.doc) || (w'.commits == w.commits + [w'.commits[|w'.commits| - 1]]
                                          && w'.commits[|w'.commits| - 1].doc == k.doc)
  {
    var w' := Next(w, step);
    if step.Store? && w'.commits != w.commits {
      StoredChunks(w.db, w.tasks[step.task].doc, step.chunks, step.vectors, step.provider);
    }
  }

  // ---- Usage ----

  /** The token sums of the commits that stored chunks, in order. */
  function StoredTokens(commits: seq<Commit>): seq<nat> {
    if commits == [] then []
    else
      var c := commits[|commits| - 1];
      StoredTokens(commits[..|commits| - 1]) + if c.chunks == [] then [] else [TokenSum(c.chunks)]
  }

  function RecordedTokens(usage: seq<EmbeddingEvent>): (r: seq<nat>)
    ensures |r| == |usage| && forall i | 0 <= i < |usage| :: r[i] == usage[i].inputTokens
  {
    seq(|usage|, i requires 0 <= i < |usage| => usage[i].inputTokens)
  }

  ghost predicate UsageInv(w: World) {
    RecordedTokens(w.db.usage) == StoredTokens(w.commits)
  }

  lemma CommitRecords(w: World, w': World, c: Commit, id: DocId, provider: Provider)
    requires UsageInv(w) && w'.commits == w.commits + [c]
    requires w'.db.usage == w.db.usage + UsageOf(id, c.chunks, provider)
    ensures UsageInv(w')
  {
    assert w'.commits[..|w.commits|] == w.commits;
    var recorded := RecordedTokens(UsageOf(id, c.chunks, provider));
    assert RecordedTokens(w'.db.usage) == RecordedTokens(w.db.usage) + recorded;
    assert recorded == if c.chunks == [] then [] else [TokenSum(c.chunks)];
  }

  lemma OtherStepsRecordNothing(w: World, step: Step)
    requires UsageInv(w) && !step.Store?
    ensures UsageInv(Next(w, step))
  {
    assert RecordedTokens(Next(w, step).db.usage) == RecordedTokens(w.db.usage);
  }

  /**
   Every commit that stored chunks has recorded one embedding event with the sum of
   their token counts, and nothing else records one; deletions keep them.
   */
  lemma {:induction false} UsageMatchesCommits(steps: seq<Step>)
    ensures RecordedTokens(Run(steps).db.usage) == StoredTokens(Run(steps).commits)
  {
    if steps != [] {
      UsageMatchesCommits(steps[..|steps| - 1]);
      var w, step := Run(steps[..|steps| - 1]), steps[|steps| - 1];
      if !step.Store? {
        OtherStepsRecordNothing(w, step);
      } else if Next(w, step).commits != w.commits {
        var commits := Next(w, step).commits;
        CommitRecords(w, Next(w, step), commits[|commits| - 1], w.tasks[step.task].doc, step.provider);
      }
    }
  }

  /** The commits that stored chunks, in order. */
  function StoringCommits(commits: seq<Commit>): seq<Commit> {
    if commits == [] then []
    else
      var before, c := StoringCommits(commits[..|commits| - 1]), commits[|commits| - 1];
      if c.chunks == [] then before else before + [c]
  }

  ghost predicate OwnerOf(e: EmbeddingEvent, c: Commit, docs: map<DocId, Document>) {
    e.doc == if c.doc in docs then Some(c.doc) else None
  }

  ghost predicate OwnersInv(w: World) {
    && |w.db.usage| == |StoringCommits(w.commits)|
    && forall i | 0 <= i < |w.db.usage| :: OwnerOf(w.db.usage[i], StoringCommits(w.commits)[i], w.db.docs)
  }

  lemma {:induction false} StoringCommitsIn(commits: seq<Commit>)
    ensures forall c | c in StoringCommits(commits) :: c in commits
  {
    if commits != [] {
      StoringCommitsIn(commits[..|commits| - 1]);
    }
  }

  lemma StoreKeepsOwners(w: World, step: Step)
    requires OwnersInv(w) && step.Store?
    ensures OwnersInv(Next(w, step))
  {
    var w' := Next(w, step);
    if w'.commits != w.commits {
      assert w'.commits[..|w.commits|] == w.commits;
    }
  }

  lemma OtherStepsKeepOwners(w: World, step: Step)
    requires ChunkInv(w) && OwnersInv(w) && !step.Store?
    ensures OwnersInv(Next(w, step))
  {
    var w', stored := Next(w, step), StoringCommits(w.commits);
    StoringCommitsIn(w.commits);
    forall i | 0 <= i < |w'.db.usage| ensures OwnerOf(w'.db.usage[i], stored[i], w'.db.docs) {
      assert OwnerOf(w.db.usage[i], stored[i], w.db.docs) && stored[i] in w.commits;
    }
  }

  /** The embedding events of every run belong to the documents of their commits until those are deleted. */
  lemma {:induction false} UsageHasOwners(steps: seq<Step>)
    ensures OwnersInv(Run(steps))
  {
    if steps != [] {
      var w, step := Run(steps[..|steps| - 1]), steps[|steps| - 1];
      UsageHasOwners(steps[..|steps| - 1]);
      ChunksAreAtomic(steps[..|steps| - 1]);
      if step.Store? {
        StoreKeepsOwners(w, step);
      } else {
        OtherStepsKeepOwners(w, step);
      }
    }
  }

  function RowTokens(rows: Rows, doc: DocId, n: nat): nat {
    if n == 0 then 0
    else RowTokens(rows, doc, n - 1) + if RowKey(doc, n - 1) in rows then rows[RowKey(doc, n - 1)].tokenCount else 0
  }

  /** The recorded tokens are those of the rows: right after a commit they are the sum of the token counts. */
  lemma {:induction false} TokensOfRows(rows: Rows, doc: DocId, chunks: seq<string>, vectors: seq<seq<real>>, n: nat)
    requires HasChunks(rows, doc, chunks, vectors) && n <= |chunks|
    ensures RowTokens(rows, doc, n) == TokenSum(chunks[..n])
  {
    if n > 0 {
      TokensOfRows(rows, doc, chunks, vectors, n - 1);
      assert chunks[..n][..n - 1] == chunks[..n - 1];
    }
  }
}
