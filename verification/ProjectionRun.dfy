/**
 * One projector run over a quiet database: the loops of the run itself, against the documents it
 * reads and rewrites. Writers are quiet and nothing fails; other runs may hold documents. Each method
 * also says which steps of the protocol it takes.
 */
module ProjectionRun {
  import opened Wrappers
  import opened ProjectionModel
  import opened ProjectionProtocol
  import opened ProjectionRefinement
  import opened ProjectionCounts

  datatype Progress = Progress(settled: nat, deferred: nat, pages: nat, written: nat, remaining: bool)

  datatype Pass = Pass(pages: nat, written: nat, finished: bool)

  ghost predicate DocsOk(env: Env, docs: map<DocId, Doc>) {
    forall d :: d in docs ==> DocOk(env, d, docs[d])
  }

  function MarkedIn(docs: map<DocId, Doc>): set<DocId> {
    set d | d in docs && docs[d].mark.Some?
  }

  /** Nothing but projection rows and marks has changed. */
  ghost predicate SameDocuments(before: map<DocId, Doc>, after: map<DocId, Doc>) {
    && after.Keys == before.Keys
    && forall d :: d in before ==> after[d].source == before[d].source && after[d].chunks == before[d].chunks
  }

  /** Every chunk up to the cursor is current in the projection being rewritten. */
  ghost predicate CurrentUpTo(env: Env, d: DocId, doc: Doc, p: Projection, after: int) {
    forall c :: c in doc.chunks && doc.chunks[c].index <= after ==> Current(env, d, doc, p, c)
  }

  ghost predicate ProjectionCurrent(env: Env, d: DocId, doc: Doc, p: Projection) {
    forall c :: c in doc.chunks ==> Current(env, d, doc, p, c)
  }

  ghost predicate OthersKept(env: Env, d: DocId, before: Doc, after: Doc, p: Projection) {
    && before.chunks == after.chunks && before.source == after.source && before.mark == after.mark
    && forall q, c :: q != p && c in before.chunks && Current(env, d, before, q, c) ==> Current(env, d, after, q, c)
  }

  /** One page moves the cursor on, leaves other projections alone, and keeps what the mark promises. */
  lemma PageAdvances(env: Env, d: DocId, doc: Doc, p: Projection, content: bool, page: map<ChunkId, Chunk>, after: int,
                     size: nat, next: int)
    requires DocOk(env, d, doc) && doc.mark.Some? && doc.mark.value.content == content
    requires p in Projections(env) && IsPage(doc.chunks, after, size, page) && CurrentUpTo(env, d, doc, p, after)
    requires |page| == size ==> IsLast(page, next)
    ensures var doc' := doc.(rows := PageRows(env, d, p, content, page, doc.source, doc.rows));
            && DocOk(env, d, doc') && OthersKept(env, d, doc, doc', p)
            && (|page| < size ==> ProjectionCurrent(env, d, doc', p))
            && (|page| == size ==> CurrentUpTo(env, d, doc', p, next))
  {
    var doc' := doc.(rows := PageRows(env, d, p, content, page, doc.source, doc.rows));
    PageKeepsConsistent(env, d, doc, p, content, page, doc.source);
    forall q, c | c in doc.chunks
      ensures q != p && Current(env, d, doc, q, c) ==> Current(env, d, doc', q, c)
      ensures q == p && (doc.chunks[c].index <= after || c in page) ==> Current(env, d, doc', p, c)
      ensures !content && q in Projections(env) ==> ContentCurrent(env, d, doc', q, c)
    {
      PageTouches(env, d, doc, p, content, page, after, q, c);
    }
    hide Current, PageRows, DocOk, ContentCurrent;
    forall c | c in doc.chunks && (|page| == size ==> doc.chunks[c].index <= next) ensures Current(env, d, doc', p, c) {
      if doc.chunks[c].index > after { PassedIsInPage(doc.chunks, after, size, page, next, c); }
    }
    assert DocOk(env, d, doc') by {
      MarkedDocOk(env, d, doc');
    }
  }

  /** Everything one page transaction does to its document, and what it tells its caller. */
  ghost predicate PageDone(env: Env, d: DocId, before: Doc, after: Doc, p: Projection, cursor: int, size: nat,
                           scanned: nat, written: nat, lastChunk: Option<int>)
  {
    && OthersKept(env, d, before, after, p)
    && (lastChunk.None? || scanned < size ==> ProjectionCurrent(env, d, after, p))
    && (lastChunk.Some? && scanned >= size ==>
          && CurrentUpTo(env, d, after, p, lastChunk.value)
          && ChunksPast(after.chunks, lastChunk.value) < ChunksPast(after.chunks, cursor))
    && (ProjectionCurrent(env, d, before, p) ==> after == before && written == 0)
  }

  lemma UniqueIndexes(env: Env, d: DocId, doc: Doc)
    requires DocOk(env, d, doc)
    ensures forall a, b :: a in doc.chunks && b in doc.chunks && doc.chunks[a].index == doc.chunks[b].index ==> a == b
  {
  }

  lemma PageIsDone(env: Env, d: DocId, doc: Doc, p: Projection, content: bool, page: map<ChunkId, Chunk>, cursor: int,
                   size: nat, lastChunk: Option<int>)
    requires DocOk(env, d, doc) && doc.mark.Some? && doc.mark.value.content == content
    requires p in Projections(env) && IsPage(doc.chunks, cursor, size, page) && CurrentUpTo(env, d, doc, p, cursor) && size > 0
    requires lastChunk.None? <==> page == map[]
    requires lastChunk.Some? ==> IsLast(page, lastChunk.value)
    ensures var rows := PageRows(env, d, p, content, page, doc.source, doc.rows);
            && DocOk(env, d, doc.(rows := rows))
            && PageDone(env, d, doc, doc.(rows := rows), p, cursor, size, |page|, |RowsWritten(p, page, doc.rows, rows)|, lastChunk)
  {
    PageSize(doc.chunks, cursor, size, page);
    PageAdvances(env, d, doc, p, content, page, cursor, size, if lastChunk.Some? then lastChunk.value else cursor);
    if |page| == size { FullPageAdvances(doc.chunks, cursor, size, page, lastChunk.value); }
    if ProjectionCurrent(env, d, doc, p) {
      PageChunks(doc.chunks, cursor, size, page);
      assert Consistent(doc);
      hide Current;
      PageOfCurrentIsNoop(env, d, doc, p, content, page);
    }
    hide OthersKept, ProjectionCurrent, CurrentUpTo, ChunksPast, PageRows, RowsWritten, DocOk, IsPage, IsLast;
  }

  lemma PageSize(chunks: map<ChunkId, Chunk>, after: int, size: nat, page: map<ChunkId, Chunk>)
    requires IsPage(chunks, after, size, page) && size > 0
    ensures |page| <= size && (page == map[] ==> |page| < size)
  {
  }

  lemma PageChunks(chunks: map<ChunkId, Chunk>, after: int, size: nat, page: map<ChunkId, Chunk>)
    requires IsPage(chunks, after, size, page)
    ensures forall c :: c in page ==> c in chunks && page[c] == chunks[c]
  {
  }

  lemma MarkedDocOk(env: Env, d: DocId, doc: Doc)
    requires Consistent(doc) && doc.mark.Some?
    requires !doc.mark.value.content ==> forall q, c :: c in doc.chunks && q in Projections(env) ==> ContentCurrent(env, d, doc, q, c)
    ensures DocOk(env, d, doc)
  {
  }

  lemma PassedIsInPage(chunks: map<ChunkId, Chunk>, after: int, size: nat, page: map<ChunkId, Chunk>, next: int, c: ChunkId)
    requires IsPage(chunks, after, size, page) && c in chunks && chunks[c].index > after
    requires |page| == size ==> IsLast(page, next) && chunks[c].index <= next
    ensures c in page
  {
    PageCovers(chunks, after, size, page, c) by {
      if |page| == size {
        var e :| e in page && page[e].index == next;
      }
      assert Covers(page, |page| == size, after, chunks[c]);
    }
  }

  lemma PageTouches(env: Env, d: DocId, doc: Doc, p: Projection, content: bool, page: map<ChunkId, Chunk>, after: int,
                    q: Projection, c: ChunkId)
    requires DocOk(env, d, doc) && doc.mark.Some? && doc.mark.value.content == content && c in doc.chunks
    requires p in Projections(env) && CurrentUpTo(env, d, doc, p, after)
    requires forall e :: e in page ==> e in doc.chunks && page[e] == doc.chunks[e]
    ensures var doc' := doc.(rows := PageRows(env, d, p, content, page, doc.source, doc.rows));
            && (q != p && Current(env, d, doc, q, c) ==> Current(env, d, doc', q, c))
            && (q == p && (doc.chunks[c].index <= after || c in page) ==> Current(env, d, doc', p, c))
            && (!content && q in Projections(env) ==> ContentCurrent(env, d, doc', q, c))
  {
    if !content { SourcePageKeepsContent(env, d, doc, p, page, doc.source, q, c); }
    if q == p && c in page {
      PageMakesCurrent(env, d, doc, p, content, page, c);
    } else {
      PageLeavesOthers(env, d, doc, p, content, page, doc.source, q, c);
    }
  }

  /** A page over rows that are already current writes nothing. */
  lemma PageOfCurrentIsNoop(env: Env, d: DocId, doc: Doc, p: Projection, content: bool, page: map<ChunkId, Chunk>)
    requires forall c :: c in page ==> c in doc.chunks && page[c] == doc.chunks[c] && Current(env, d, doc, p, c)
    requires Consistent(doc)
    ensures PageRows(env, d, p, content, page, doc.source, doc.rows) == doc.rows
    ensures RowsWritten(p, page, doc.rows, doc.rows) == {}
  {
    var rows' := PageRows(env, d, p, content, page, doc.source, doc.rows);
    forall key ensures key in rows' <==> key in doc.rows {
      if key.projection == p && key.chunk in page {
        assert key == RowKey(p, key.chunk) && Current(env, d, doc, p, key.chunk);
        assert key in (set c | c in page :: RowKey(p, c));
      }
    }
    forall key | key in doc.rows ensures rows'[key] == doc.rows[key] {
      if key.projection == p && key.chunk in page {
        assert Current(env, d, doc, p, key.chunk);
      }
    }
  }

  lemma AddToSet<T>(s: seq<T>, x: T)
    requires x !in s
    ensures |SetOf(s + [x])| == |SetOf(s)| + 1 && SetOf(s + [x]) == SetOf(s) + {x}
  {
  }

  ghost function SetOf<T>(s: seq<T>): set<T> {
    set x | x in s
  }

  /** The page a statement read, and what it says of its size and its end. */
  ghost predicate PageRead(doc: Doc, after: int, size: nat, page: map<ChunkId, Chunk>, scanned: nat, lastChunk: Option<int>) {
    && IsPage(doc.chunks, after, size, page) && scanned == |page|
    && (lastChunk.None? <==> page == map[]) && (lastChunk.Some? ==> IsLast(page, lastChunk.value))
  }

  lemma PageReadIs(doc: Doc, after: int, size: nat, page: map<ChunkId, Chunk>, lastChunk: Option<int>)
    requires IsPage(doc.chunks, after, size, page)
    requires (lastChunk.None? <==> page == map[]) && (lastChunk.Some? ==> IsLast(page, lastChunk.value))
    ensures PageRead(doc, after, size, page, |page|, lastChunk)
  {
  }

  /** Whether a page that came back so long, ending there, may have another after it. */
  predicate More(scanned: nat, size: nat, lastChunk: Option<int>) {
    lastChunk.Some? && scanned >= size
  }

  /** Where a page that may have another after it ended. */
  function Ended(scanned: nat, size: nat, lastChunk: Option<int>): Option<int> {
    if More(scanned, size, lastChunk) then lastChunk else None
  }

  lemma PageReadCounts(env: Env, d: DocId, doc: Doc, p: Projection, content: bool, after: int, size: nat,
                       page: map<ChunkId, Chunk>, scanned: nat, lastChunk: Option<int>)
    requires size > 0 && PageRead(doc, after, size, page, scanned, lastChunk)
    ensures var rows := PageRows(env, d, p, content, page, doc.source, doc.rows);
            PageCounted(p, doc, doc.(rows := rows), after, size, Ended(scanned, size, lastChunk), |RowsWritten(p, page, doc.rows, rows)|)
  {
    PageSize(doc.chunks, after, size, page);
    PageIsCounted(env, d, doc, p, content, page, after, size, if lastChunk.Some? then lastChunk.value else 0);
    hide PageCounted, IsPage, IsLast, PageRows, RowsWritten;
  }

  function PagedTo(run: Run, scanned: nat, size: nat, lastChunk: Option<int>): Run
    requires run.at.Projecting? && run.at.todo != []
  {
    Paged(run, More(scanned, size, lastChunk), if lastChunk.Some? then lastChunk.value else 0)
  }

  lemma PageReadSteps(env: Env, a: Around, docs: map<DocId, Doc>, run: Run, d: DocId, p: Projection, content: bool, after: int,
                      size: nat, page: map<ChunkId, Chunk>, scanned: nat, lastChunk: Option<int>, docs': map<DocId, Doc>)
    requires Passing(run, d, content, p, after) && d in docs && size > 0 && PageRead(docs[d], after, size, page, scanned, lastChunk)
    requires docs' == docs[d := docs[d].(rows := PageRows(env, d, p, content, page, docs[d].source, docs[d].rows))]
    ensures Reaches(env, Whole(a, docs, run, Some(d)), Whole(a, docs', PagedTo(run, scanned, size, lastChunk), Some(d)))
  {
    PageSize(docs[d].chunks, after, size, page);
    PageSteps(env, a, docs, run, d, p, content, after, size, page, if lastChunk.Some? then lastChunk.value else 0);
    hide Reaches, IsPage, IsLast, PageRows, Whole;
  }

  /** The page statement: reads a page of the document's chunks and returns it with their rows rewritten. */
  method RewritePageOf(env: Env, d: DocId, doc: Doc, p: Projection, content: bool, after: int, pageSize: nat)
    returns (doc': Doc, scanned: nat, written: nat, lastChunk: Option<int>, ghost page: map<ChunkId, Chunk>)
    requires DocOk(env, d, doc) && doc.mark.Some? && doc.mark.value.content == content
    requires p in Projections(env) && pageSize > 0 && CurrentUpTo(env, d, doc, p, after)
    ensures DocOk(env, d, doc') && doc' == doc.(rows := doc'.rows)
    ensures PageDone(env, d, doc, doc', p, after, pageSize, scanned, written, lastChunk)
    ensures doc' == doc.(rows := PageRows(env, d, p, content, page, doc.source, doc.rows))
    ensures PageRead(doc, after, pageSize, page, scanned, lastChunk)
    ensures PageCounted(p, doc, doc', after, pageSize, Ended(scanned, pageSize, lastChunk), written)
  {
    hide *;
    UniqueIndexes(env, d, doc);
    var page' := ReadNextPage(doc.chunks, after, pageSize);
    page := page';
    lastChunk := LastIndex(page');
    PageReadIs(doc, after, pageSize, page, lastChunk);
    PageIsDone(env, d, doc, p, content, page, after, pageSize, lastChunk);
    PageReadCounts(env, d, doc, p, content, after, pageSize, page, |page'|, lastChunk);
    var rows := PageRows(env, d, p, content, page', doc.source, doc.rows);
    doc' := doc.(rows := rows);
    scanned, written := |page'|, |RowsWritten(p, page', doc.rows, rows)|;
  }

  /**
   * What a run leaves of the documents it started from: the marks it settled are gone, every unmarked document is
   * current, and nothing remaining means nothing marked. In time, only what another run holds stays marked.
   */
  ghost predicate Converged(env: Env, held: set<DocId>, inTime: bool, start: map<DocId, Doc>, docs: map<DocId, Doc>,
                            r: Progress)
  {
    && SameDocuments(start, docs)
    && MarkedIn(docs) <= MarkedIn(start) && r.settled + |MarkedIn(docs)| == |MarkedIn(start)|
    && (forall d :: d in docs && d !in MarkedIn(docs) ==> AllCurrent(env, d, docs[d]))
    && (!r.remaining ==> MarkedIn(docs) == {})
    && (inTime ==> MarkedIn(docs) == MarkedIn(start) * held)
    && (inTime ==> r.deferred == |MarkedIn(docs)| && (r.remaining <==> MarkedIn(docs) != {}))
  }

  /** And what it counts: the rows that changed, and in time the pages of every document it settled. */
  ghost predicate Tallied(env: Env, inTime: bool, start: map<DocId, Doc>, docs: map<DocId, Doc>, size: nat, r: Progress) {
    && size > 0 && r.written == |ChangedRows(start, docs)|
    && (inTime ==> r.pages == Total(MarkedIn(start) - MarkedIn(docs), Cost(env, start, size)))
  }

  /** The marks of `eligible` in the order they were made, oldest first, up to a batch. */
  ghost predicate IsClaim(eligible: set<DocId>, markedAt: map<DocId, int>, claimed: seq<DocId>)
    requires eligible <= markedAt.Keys
  {
    && |claimed| <= CLAIM_BATCH_SIZE
    && (forall k :: 0 <= k < |claimed| ==> claimed[k] in eligible)
    && (forall j, k :: 0 <= j < k < |claimed| ==> claimed[j] != claimed[k] && markedAt[claimed[j]] <= markedAt[claimed[k]])
    && (forall c, d :: c in claimed && d in eligible && d !in claimed ==> markedAt[c] <= markedAt[d])
    && (|claimed| < CLAIM_BATCH_SIZE ==> forall d :: d in eligible ==> d in claimed)
  }

  /** What the pages of one projection have done so far. */
  ghost predicate RowsSoFar(env: Env, d: DocId, p: Projection, start: Doc, doc: Doc, after: int, size: nat, pages: nat, written: nat) {
    && OthersKept(env, d, start, doc, p) && CurrentUpTo(env, d, doc, p, after) && CountedTo(p, start, doc, after, size, pages, written)
    && (ProjectionCurrent(env, d, start, p) ==> written == 0 && doc == start)
  }

  lemma RowsBegin(env: Env, d: DocId, p: Projection, doc: Doc, size: nat)
    ensures RowsSoFar(env, d, p, doc, doc, -1, size, 0, 0)
  {
    CountingStarts(p, doc, size);
  }

  lemma RowsAre(env: Env, d: DocId, p: Projection, start: Doc, doc: Doc, after: int, size: nat, pages: nat, written: nat)
    requires RowsSoFar(env, d, p, start, doc, after, size, pages, written)
    ensures OthersKept(env, d, start, doc, p) && CurrentUpTo(env, d, doc, p, after)
    ensures ProjectionCurrent(env, d, start, p) ==> written == 0 && doc == start
    ensures written == |Changed(start.rows, doc.rows)| && OtherRows(start.rows, doc.rows, p)
  {
  }

  /** A page takes the pass on, or ends it. */
  lemma RowsAdvance(env: Env, d: DocId, p: Projection, start: Doc, before: Doc, doc: Doc, after: int, size: nat, pages: nat, written: nat,
                    scanned: nat, changed: nat, lastChunk: Option<int>)
    requires RowsSoFar(env, d, p, start, before, after, size, pages, written) && DocOk(env, d, before) && DocOk(env, d, doc) && size > 0
    requires PageDone(env, d, before, doc, p, after, size, scanned, changed, lastChunk)
    requires PageCounted(p, before, doc, after, size, Ended(scanned, size, lastChunk), changed)
    ensures lastChunk.Some? && scanned >= size ==>
              && RowsSoFar(env, d, p, start, doc, lastChunk.value, size, pages + 1, written + changed)
              && ChunksPast(doc.chunks, lastChunk.value) < ChunksPast(before.chunks, after)
    ensures lastChunk.None? || scanned < size ==>
              && ProjectionCurrent(env, d, doc, p) && OthersKept(env, d, start, doc, p) && pages + 1 == |doc.chunks| / size + 1
              && written + changed == |Changed(start.rows, doc.rows)| && OtherRows(start.rows, doc.rows, p)
              && (ProjectionCurrent(env, d, start, p) ==> written + changed == 0 && doc == start)
    ensures doc.mark == before.mark
  {
    OthersKeptTransitive(env, d, start, before, doc, p);
    ConsistentOf(env, d, before);
    ConsistentOf(env, d, doc);
    PageAdds(p, start, before, doc, after, size, Ended(scanned, size, lastChunk), pages, written, changed);
    hide DocOk, Current, CurrentUpTo, CountedTo, PageCounted, Changed, OtherRows, ChunksPast, ProjectionCurrent;
    if lastChunk.None? || scanned < size { PagesOf(|doc.chunks|, size, pages); }
  }

  lemma LetGoIs(run: Run, d: DocId, content: bool, p: Projection, after: int)
    requires Passing(run, d, content, p, after)
    ensures RowsDone(run, d, false) == WithOutcome(run, d, Deferred)
  {
  }

  lemma PagedIs(run: Run, d: DocId, content: bool, p: Projection, after: int, scanned: nat, size: nat, lastChunk: Option<int>)
    requires Passing(run, d, content, p, after)
    ensures var next := PagedTo(run, scanned, size, lastChunk);
            if lastChunk.None? || scanned < size then next == RowsDone(run, d, true)
            else Passing(next, d, content, p, lastChunk.value) && RowsDone(next, d, true) == RowsDone(run, d, true)
                 && RowsDone(next, d, false) == RowsDone(run, d, false)
  {
  }

  /**
   * The pages settling a document takes: as many full ones as there are, and a short one, for each projection; Tin if it is
   * installed, and the keyword projection only for a content mark.
   */
  function PagesFor(env: Env, doc: Doc, size: nat): nat
    requires size > 0
  {
    if doc.mark.None? then 0
    else (1 + (if env.tin then 1 else 0) + (if doc.mark.value.content then 1 else 0)) * (|doc.chunks| / size + 1)
  }

  /** Only rows of the plan's first projections have changed, so many of them. */
  ghost predicate PlanCounted(start: map<RowKey, Row>, now: map<RowKey, Row>, plan: seq<Projection>, k: nat, written: nat) {
    && k <= |plan| && written == |Changed(start, now)|
    && forall key: RowKey :: (forall j :: 0 <= j < k ==> plan[j] != key.projection) ==> SameRow(start, now, key)
  }

  lemma PlanAdds(start: map<RowKey, Row>, before: map<RowKey, Row>, now: map<RowKey, Row>, plan: seq<Projection>, k: nat,
                 written: nat, changed: nat)
    requires k < |plan| && (forall j :: 0 <= j < k ==> plan[j] != plan[k]) && PlanCounted(start, before, plan, k, written)
    requires changed == |Changed(before, now)| && OtherRows(before, now, plan[k])
    ensures PlanCounted(start, now, plan, k + 1, written + changed)
  {
    forall key | key in Changed(before, now) ensures SameRow(start, before, key) {
      assert key.projection == plan[k];
    }
    forall key | key in Changed(start, before) ensures SameRow(before, now, key) {
      assert !SameRow(start, before, key);
    }
    forall key | key in now && key !in Changed(start, before) && key !in Changed(before, now)
      ensures key in start && start[key] == now[key]
    {
      UnchangedIsSame(start, before, now, key);
    }
    hide Changed;
    ChangesAdd(start, before, now);
    forall key: RowKey | forall j :: 0 <= j < k + 1 ==> plan[j] != key.projection ensures SameRow(start, now, key) {
      assert plan[k] != key.projection;
      assert SameRow(start, before, key) && SameRow(before, now, key);
    }
  }

  /**
   * What projecting one document comes to: one held elsewhere or no longer marked is left alone; another is settled, with
   * all its pages read and every row current, unless the deadline is past, and the rows written are those that changed.
   */
  ghost predicate Projected(env: Env, held: set<DocId>, late: bool, d: DocId, before: map<DocId, Doc>, after: map<DocId, Doc>,
                            size: nat, outcome: Outcome, pages: nat, written: nat)
  {
    && size > 0 && SameDocuments(before, after) && (forall e :: e in after && e != d ==> after[e] == before[e])
    && (d in held ==> outcome == Deferred && after == before && pages == 0 && written == 0)
    && (d !in held && d !in MarkedIn(before) ==> outcome == Gone && after == before && pages == 0 && written == 0)
    && (d !in held && d in MarkedIn(before) ==>
          && written == |Changed(before[d].rows, after[d].rows)|
          && if outcome == Settled then
               after[d].mark == None && AllCurrent(env, d, after[d]) && pages == PagesFor(env, before[d], size)
             else outcome == Deferred && late && after[d].mark == before[d].mark)
  }

  lemma LeftAlone(env: Env, held: set<DocId>, late: bool, d: DocId, docs: map<DocId, Doc>, size: nat, outcome: Outcome)
    requires size > 0
    requires if d in held then outcome == Deferred else outcome == Gone && !(d in docs && docs[d].mark.Some?)
    ensures Projected(env, held, late, d, docs, docs, size, outcome, 0, 0)
  {
  }

  lemma CutShort(env: Env, held: set<DocId>, d: DocId, before: map<DocId, Doc>, after: map<DocId, Doc>, size: nat, pages: nat, written: nat)
    requires d !in held && d in before && before[d].mark.Some? && size > 0
    requires d in after && after == before[d := after[d]] && after[d] == before[d].(rows := after[d].rows)
    requires written == |Changed(before[d].rows, after[d].rows)|
    ensures Projected(env, held, true, d, before, after, size, Deferred, pages, written)
  {
  }

  lemma SettledDocument(env: Env, held: set<DocId>, late: bool, d: DocId, before: map<DocId, Doc>, rewritten: map<DocId, Doc>,
                        after: map<DocId, Doc>, size: nat, pages: nat, written: nat)
    requires d !in held && d in before && before[d].mark.Some? && size > 0
    requires d in rewritten && rewritten == before[d := rewritten[d]] && rewritten[d] == before[d].(rows := rewritten[d].rows)
    requires after == rewritten[d := rewritten[d].(mark := None)] && AllCurrent(env, d, after[d])
    requires written == |Changed(before[d].rows, rewritten[d].rows)| && pages == PagesFor(env, before[d], size)
    ensures Projected(env, held, late, d, before, after, size, Settled, pages, written)
  {
  }

  /** What a pass has done to a document once it is through with the first projections of its plan. */
  ghost predicate PlanPassed(env: Env, d: DocId, start: Doc, doc: Doc, plan: seq<Projection>, k: nat, size: nat, pages: nat, written: nat) {
    && k <= |plan| && size > 0 && doc == start.(rows := doc.rows)
    && (forall j :: 0 <= j < k ==> ProjectionCurrent(env, d, doc, plan[j]))
    && pages == k * (|start.chunks| / size + 1)
    && PlanCounted(start.rows, doc.rows, plan, k, written)
  }

  lemma PlanBegins(env: Env, d: DocId, start: Doc, plan: seq<Projection>, size: nat)
    requires size > 0
    ensures PlanPassed(env, d, start, start, plan, 0, size, 0, 0)
  {
    NoneChanged(start.rows);
  }

  lemma PlanPasses(env: Env, d: DocId, start: Doc, before: Doc, doc: Doc, plan: seq<Projection>, k: nat, size: nat, pages: nat,
                   written: nat, pass: Pass)
    requires PlanPassed(env, d, start, before, plan, k, size, pages, written) && k < |plan|
    requires (forall j :: 0 <= j < k ==> plan[j] != plan[k]) && OthersKept(env, d, before, doc, plan[k])
    requires pass.written == |Changed(before.rows, doc.rows)| && OtherRows(before.rows, doc.rows, plan[k])
    requires pass.finished ==> ProjectionCurrent(env, d, doc, plan[k]) && pass.pages == |doc.chunks| / size + 1
    ensures written + pass.written == |Changed(start.rows, doc.rows)| && doc == start.(rows := doc.rows)
    ensures pass.finished ==> PlanPassed(env, d, start, doc, plan, k + 1, size, pages + pass.pages, written + pass.written)
  {
    PlanAdds(start.rows, before.rows, doc.rows, plan, k, written, pass.written);
    EarlierStayCurrent(env, d, before, doc, plan, k);
    hide OthersKept, ProjectionCurrent, Changed, OtherRows;
    var n := |start.chunks| / size + 1;
    assert (k + 1) * n == k * n + n;
  }

  lemma PlanEnds(env: Env, d: DocId, start: Doc, doc: Doc, plan: seq<Projection>, size: nat, pages: nat, written: nat)
    requires DocOk(env, d, doc) && doc.mark.Some? && plan == Plan(env, doc.mark.value.content)
    requires PlanPassed(env, d, start, doc, plan, |plan|, size, pages, written)
    ensures AllCurrent(env, d, doc) && written == |Changed(start.rows, doc.rows)| && pages == PagesFor(env, start, size)
    ensures doc == start.(rows := doc.rows) && |plan| > 0
  {
    PlanDoneIsCurrent(env, d, doc, plan);
  }

  /** The run in its pass over `d`, with the plan from `k` on left. */
  function OnPlanAt(run: Run, d: DocId, mark: Mark, plan: seq<Projection>, k: nat): Run
    requires k <= |plan|
  {
    run.(at := Projecting(d, mark.generation, mark.content, plan[k..], -1, None))
  }

  lemma PlanMovesOn(run: Run, d: DocId, mark: Mark, plan: seq<Projection>, k: nat)
    requires k < |plan|
    ensures Passing(OnPlanAt(run, d, mark, plan, k), d, mark.content, plan[k], -1)
    ensures RowsDone(OnPlanAt(run, d, mark, plan, k), d, true) == OnPlanAt(run, d, mark, plan, k + 1)
    ensures RowsDone(OnPlanAt(run, d, mark, plan, k), d, false) == WithOutcome(OnPlanAt(run, d, mark, plan, k), d, Deferred)
    ensures run.(at := OnPlanAt(run, d, mark, plan, k).at) == OnPlanAt(run, d, mark, plan, k)
    ensures run.(at := OnPlanAt(run, d, mark, plan, k + 1).at) == OnPlanAt(run, d, mark, plan, k + 1)
  {
  }

  lemma PlanIsOver(run: Run, d: DocId, mark: Mark, plan: seq<Projection>)
    ensures var here := OnPlanAt(run, d, mark, plan, |plan|);
            && here.at.Projecting? && here.at.d == d && here.at.todo == [] && here.at.generation == mark.generation
            && run.(at := here.at) == here
  {
  }

  /** Taking the lock and reading the mark; without a mark the document is let go at once. */
  lemma BeginsDocument(env: Env, a: Around, docs: map<DocId, Doc>, run: Run, d: DocId, found: Option<Mark>)
    requires run.at.Looping? && run.claimed != [] && run.claimed[0] == d && d !in a.locks
    requires found == if d in docs then docs[d].mark else None
    ensures found.Some? ==> Reaches(env, Whole(a, docs, run, None), Whole(a, docs, Begun(env, run, d, found), Some(d)))
    ensures found.Some? ==> Begun(env, run, d, found) == OnPlanAt(run, d, found.value, Plan(env, found.value.content), 0)
    ensures found.None? ==> Reaches(env, Whole(a, docs, run, None), Whole(a, docs, AfterOutcome(run, d, Gone), None))
  {
    LockStep(env, a, docs, run, d);
    ReadMarkStep(env, a, docs, run, d);
    UnlockStep(env, a, docs, run, d, Gone);
    hide Reaches, Whole, Plan, AfterOutcome;
    var begun := Whole(a, docs, Begun(env, run, d, found), Some(d));
    ReachesOn(env, Whole(a, docs, run, None), Whole(a, docs, run.(at := Holding(d)), Some(d)), begun);
    if found.None? {
      ReachesOn(env, Whole(a, docs, run, None), begun, Whole(a, docs, AfterOutcome(run, d, Gone), None));
    }
  }

  /** However a pass ended, the lock is let go and the run goes on to its next document. */
  lemma LetsGo(env: Env, a: Around, docs: map<DocId, Doc>, run: Run, here: Run, d: DocId, outcome: Outcome, start: State)
    requires here == run.(at := here.at) && d !in a.locks
    requires Reaches(env, start, Whole(a, docs, WithOutcome(here, d, outcome), Some(d)))
    ensures Reaches(env, start, Whole(a, docs, AfterOutcome(run, d, outcome), None))
  {
    UnlockStep(env, a, docs, here, d, outcome);
    assert AfterOutcome(here, d, outcome) == AfterOutcome(run, d, outcome);
    hide Reaches, Whole, AfterOutcome;
    ReachesOn(env, start, Whole(a, docs, WithOutcome(here, d, outcome), Some(d)), Whole(a, docs, AfterOutcome(run, d, outcome), None));
  }

  /** Where rewriting a projection leaves the run: at the next one, or letting the document go. */
  function RowsDone(run: Run, d: DocId, finished: bool): Run
    requires run.at.Projecting? && run.at.todo != []
  {
    if finished then NextProjection(run) else WithOutcome(run, d, Deferred)
  }

  /** The deadline has passed. */
  predicate Late(deadline: Option<int>, clock: int) {
    deadline.Some? && clock >= deadline.value
  }

  class Database {
    const env: Env
    /** This run, and the other ones with the locks they hold for as long as it lasts. */
    const around: Around
    var docs: map<DocId, Doc>
    var markedAt: map<DocId, int>
    var clock: int

    lemma HeldIs()
      ensures forall d :: d in HeldElsewhere() <==> d in around.locks
    {
    }

    ghost predicate Valid()
      reads this
    {
      DocsOk(env, docs) && MarkedIn(docs) <= markedAt.Keys
    }

    lemma ValidDoc(d: DocId)
      requires Valid() && d in docs
      ensures DocOk(env, d, docs[d])
    {
    }

    /** The documents whose advisory lock another run holds. */
    function HeldElsewhere(): set<DocId> {
      around.locks.Keys
    }

    constructor (env: Env, around: Around, docs: map<DocId, Doc>, markedAt: map<DocId, int>)
      requires DocsOk(env, docs) && MarkedIn(docs) <= markedAt.Keys
      ensures Valid() && this.env == env && this.around == around && this.docs == docs
    {
      this.env := env;
      this.around := around;
      this.docs := docs;
      this.markedAt := markedAt;
      clock := 0;
    }

    /** Whether the deadline has passed. The clock may have moved by any amount, but not back. */
    method Expired(deadline: Option<int>) returns (b: bool)
      requires Valid()
      modifies this`clock
      ensures Valid() && clock >= old(clock)
      ensures b <==> Late(deadline, clock)
    {
      var now: int :| now >= clock;
      clock := now;
      b := Late(deadline, clock);
    }

    /** The oldest marks not passed over, at most a batch of them. */
    method ClaimMarks(skipped: set<DocId>) returns (claimed: seq<DocId>)
      requires Valid()
      ensures IsClaim(MarkedIn(docs) - skipped, markedAt, claimed)
    {
      claimed := [];
      var left := MarkedIn(docs) - skipped;
      while |claimed| < CLAIM_BATCH_SIZE && left != {}
        invariant |claimed| <= CLAIM_BATCH_SIZE && left <= MarkedIn(docs) - skipped
        invariant forall k :: 0 <= k < |claimed| ==> claimed[k] in MarkedIn(docs) - skipped && claimed[k] !in left
        invariant forall j, k :: 0 <= j < k < |claimed| ==> claimed[j] != claimed[k] && markedAt[claimed[j]] <= markedAt[claimed[k]]
        invariant forall d :: d in MarkedIn(docs) - skipped ==> d in left || d in claimed
        invariant forall c, d :: c in claimed && d in left ==> markedAt[c] <= markedAt[d]
        decreases left
      {
        var next := Oldest(left);
        claimed := claimed + [next];
        left := left - {next};
      }
    }

    method Oldest(among: set<DocId>) returns (oldest: DocId)
      requires among != {} && among <= markedAt.Keys
      ensures oldest in among && forall d :: d in among ==> markedAt[oldest] <= markedAt[d]
    {
      oldest := Pick(among);
      var rest := among - {oldest};
      while rest != {}
        invariant rest <= among && oldest in among
        invariant forall d :: d in among && d !in rest ==> markedAt[oldest] <= markedAt[d]
        decreases rest
      {
        var d := Pick(rest);
        rest := rest - {d};
        if markedAt[d] < markedAt[oldest] { oldest := d; }
      }
    }

    method ReadMark(d: DocId) returns (mark: Option<Mark>)
      ensures mark == if d in docs then docs[d].mark else None
    {
      mark := if d in docs then docs[d].mark else None;
    }

    /** Removes the mark if it still carries the generation the pass read. */
    method SettleMark(d: DocId, generation: nat, ghost run: Run) returns (outcome: Outcome)
      requires Valid()
      requires run.at.Projecting? && run.at.d == d && run.at.todo == [] && run.at.generation == generation
      requires d in docs && docs[d].mark.Some? && docs[d].mark.value.generation == generation ==> AllCurrent(env, d, docs[d])
      modifies this`docs
      ensures Valid()
      ensures d in old(docs) && old(docs[d].mark).Some? && old(docs[d].mark).value.generation == generation ==>
                outcome == Settled && docs == old(docs)[d := old(docs[d]).(mark := None)] && AllCurrent(env, d, docs[d])
      ensures !(d in old(docs) && old(docs[d].mark).Some? && old(docs[d].mark).value.generation == generation) ==>
                docs == old(docs) && outcome == if d in MarkedIn(docs) then Deferred else Gone
      ensures Reaches(env, Whole(around, old(docs), run, Some(d)), Whole(around, docs, WithOutcome(run, d, outcome), Some(d)))
    {
      hide Reaches, Whole, WithOutcome, AllCurrent;
      SettlingStep(env, around, docs, run, d);
      if d in docs && docs[d].mark.Some? && docs[d].mark.value.generation == generation {
        UnmarkKeepsCurrent(env, d, docs[d]);
        docs := docs[d := docs[d].(mark := None)];
        outcome := Settled;
      } else {
        outcome := if d in docs && docs[d].mark.Some? then Deferred else Gone;
      }
    }

    /** One page transaction: reads the next chunks past the cursor and rewrites their rows. */
    method RewritePage(d: DocId, p: Projection, content: bool, after: int, pageSize: nat, ghost run: Run)
      returns (scanned: nat, written: nat, lastChunk: Option<int>)
      requires Passing(run, d, content, p, after)
      requires Valid() && d in docs && docs[d].mark.Some? && docs[d].mark.value.content == content
      requires p in Projections(env) && pageSize > 0 && CurrentUpTo(env, d, docs[d], p, after)
      modifies this`docs
      ensures Valid() && d in docs && docs == old(docs)[d := docs[d]]
      ensures PageDone(env, d, old(docs[d]), docs[d], p, after, pageSize, scanned, written, lastChunk)
      ensures PageCounted(p, old(docs[d]), docs[d], after, pageSize, Ended(scanned, pageSize, lastChunk), written)
      ensures Reaches(env, Whole(around, old(docs), run, Some(d)), Whole(around, docs, PagedTo(run, scanned, pageSize, lastChunk), Some(d)))
    {
      hide DocOk, CurrentUpTo, PageDone, Reaches, PageRead, Whole, PagedTo, PageRows, PageCounted;
      var doc;
      ghost var page, before := map[], docs;
      doc, scanned, written, lastChunk, page := RewritePageOf(env, d, docs[d], p, content, after, pageSize);
      docs := docs[d := doc];
      PageReadSteps(env, around, before, run, d, p, content, after, pageSize, page, scanned, lastChunk, docs);
    }

    /**
     * Rewrites one projection of a document page by page. Unless the deadline cuts it short every
     * row of the projection is current; rows already current are not written.
     */
    method ProjectDocumentRows(d: DocId, p: Projection, mark: Mark, pageSize: nat, deadline: Option<int>, ghost run: Run)
      returns (pass: Pass)
      requires Passing(run, d, mark.content, p, -1)
      requires Valid() && d in docs && docs[d].mark == Some(mark) && p in Projections(env) && pageSize > 0
      modifies this`docs, this`clock
      ensures Valid() && clock >= old(clock)
      ensures d in docs && docs == old(docs)[d := docs[d]] && OthersKept(env, d, old(docs[d]), docs[d], p)
      ensures pass.finished ==> ProjectionCurrent(env, d, docs[d], p)
      ensures pass.finished || Late(deadline, clock)
      ensures Late(deadline, old(clock)) ==> pass == Pass(0, 0, false) && docs == old(docs)
      ensures pass.written == |Changed(old(docs[d]).rows, docs[d].rows)| && OtherRows(old(docs[d]).rows, docs[d].rows, p)
      ensures pass.finished ==> pass.pages == |docs[d].chunks| / pageSize + 1
      ensures old(ProjectionCurrent(env, d, docs[d], p)) ==> pass.written == 0 && docs == old(docs)
      ensures Reaches(env, Whole(around, old(docs), run, Some(d)), Whole(around, docs, RowsDone(run, d, pass.finished), Some(d)))
    {
      hide RowsSoFar, PageDone, PageCounted, DocOk, ChunksPast, Reaches, Whole, CurrentUpTo, ProjectionCurrent, Changed, OtherRows;
      hide OthersKept, RowsDone, PagedTo, Late, WithOutcome, DocsOk, MarkedIn;
      var after := -1;
      var pages: nat, written: nat := 0, 0;
      ghost var start, clock0 := docs[d], clock;
      ghost var here := run;
      Stays(env, Whole(around, docs, run, Some(d)));
      RowsBegin(env, d, p, start, pageSize);
      while true
        invariant Passing(here, d, mark.content, p, after) && RowsDone(here, d, true) == RowsDone(run, d, true)
        invariant RowsDone(here, d, false) == RowsDone(run, d, false)
        invariant Reaches(env, Whole(around, old(docs), run, Some(d)), Whole(around, docs, here, Some(d)))
        invariant Valid() && clock >= old(clock)
        invariant d in docs && docs == old(docs)[d := docs[d]] && docs[d].mark == Some(mark)
        invariant RowsSoFar(env, d, p, start, docs[d], after, pageSize, pages, written)
        invariant Late(deadline, old(clock)) ==> pages == 0 && written == 0 && docs == old(docs)
        decreases ChunksPast(docs[d].chunks, after)
      {
        RowsAre(env, d, p, start, docs[d], after, pageSize, pages, written);
        var expired := Expired(deadline);
        LateStays(deadline, clock0, clock);
        if expired {
          PassBudgetStep(env, around, docs, here, d, mark.content, p, after);
          LetGoIs(here, d, mark.content, p, after);
          ReachesOn(env, Whole(around, old(docs), run, Some(d)), Whole(around, docs, here, Some(d)),
                    Whole(around, docs, RowsDone(run, d, false), Some(d)));
          return Pass(pages, written, false);
        }
        ghost var before, stood := docs[d], Whole(around, docs, here, Some(d));
        ValidDoc(d);
        var scanned, changed, lastChunk := RewritePage(d, p, mark.content, after, pageSize, here);
        ValidDoc(d);
        RowsAdvance(env, d, p, start, before, docs[d], after, pageSize, pages, written, scanned, changed, lastChunk);
        PagedIs(here, d, mark.content, p, after, scanned, pageSize, lastChunk);
        here := PagedTo(here, scanned, pageSize, lastChunk);
        ReachesOn(env, Whole(around, old(docs), run, Some(d)), stood, Whole(around, docs, here, Some(d)));
        pages := pages + 1;
        written := written + changed;
        if lastChunk.None? || scanned < pageSize {
          break;
        }
        after := lastChunk.value;
      }
      return Pass(pages, written, true);
    }

    /**
     * Projects one marked document and settles the mark it read, unless another run holds it or
     * the deadline cuts it short; then the mark stays.
     */
    method ProjectMarkedDocument(d: DocId, pageSize: nat, deadline: Option<int>, ghost run: Run)
      returns (outcome: Outcome, pages: nat, written: nat)
      requires Valid() && pageSize > 0
      requires run.at.Looping? && run.claimed != [] && run.claimed[0] == d
      modifies this`docs, this`clock
      ensures Valid() && clock >= old(clock)
      ensures Projected(env, HeldElsewhere(), Late(deadline, clock), d, old(docs), docs, pageSize, outcome, pages, written)
      ensures Late(deadline, old(clock)) ==> outcome != Settled && pages == 0 && docs == old(docs)
      ensures Reaches(env, Whole(around, old(docs), run, None), Whole(around, docs, AfterOutcome(run, d, outcome), None))
    {
      hide *;
      ghost var clock0 := clock;
      pages, written := 0, 0;
      HeldIs();
      if d in around.locks {
        LockedElsewhereStep(env, around, docs, run, d);
        LeftAlone(env, HeldElsewhere(), Late(deadline, clock), d, docs, pageSize, Deferred);
        return Deferred, 0, 0;
      }
      var found := ReadMark(d);
      BeginsDocument(env, around, docs, run, d, found);
      if found.None? {
        LeftAlone(env, HeldElsewhere(), Late(deadline, clock), d, docs, pageSize, Gone);
        return Gone, 0, 0;
      }
      var mark := found.value;
      var plan := Plan(env, mark.content);
      ghost var start := docs[d];
      ghost var here := Begun(env, run, d, found);
      PlanBegins(env, d, start, plan, pageSize);
      for k := 0 to |plan|
        invariant here == OnPlanAt(run, d, mark, plan, k)
        invariant Reaches(env, Whole(around, old(docs), run, None), Whole(around, docs, here, Some(d)))
        invariant Valid() && clock >= old(clock)
        invariant d in docs && docs == old(docs)[d := docs[d]] && docs[d].mark == Some(mark)
        invariant PlanPassed(env, d, start, docs[d], plan, k, pageSize, pages, written)
        invariant Late(deadline, old(clock)) ==> k == 0 && pages == 0 && docs == old(docs)
      {
        ghost var before, stood := docs[d], Whole(around, docs, here, Some(d));
        LateStays(deadline, clock0, clock);
        PlanStep(env, mark.content, k);
        PlanMovesOn(run, d, mark, plan, k);
        var pass := ProjectDocumentRows(d, plan[k], mark, pageSize, deadline, here);
        ReachesOn(env, Whole(around, old(docs), run, None), stood, Whole(around, docs, RowsDone(here, d, pass.finished), Some(d)));
        PlanPasses(env, d, start, before, docs[d], plan, k, pageSize, pages, written, pass);
        pages := pages + pass.pages;
        written := written + pass.written;
        if !pass.finished {
          LetsGo(env, around, docs, run, OnPlanAt(run, d, mark, plan, k), d, Deferred, Whole(around, old(docs), run, None));
          CutShort(env, HeldElsewhere(), d, old(docs), docs, pageSize, pages, written);
          return Deferred, pages, written;
        }
        here := RowsDone(here, d, true);
      }
      PlanIsOver(run, d, mark, plan);
      ValidDoc(d);
      PlanEnds(env, d, start, docs[d], plan, pageSize, pages, written);
      ghost var stood, rewritten := Whole(around, docs, here, Some(d)), docs;
      outcome := SettleMark(d, mark.generation, here);
      SettledDocument(env, HeldElsewhere(), Late(deadline, clock), d, old(docs), rewritten, docs, pageSize, pages, written);
      ReachesOn(env, Whole(around, old(docs), run, None), stood, Whole(around, docs, WithOutcome(here, d, outcome), Some(d)));
      LetsGo(env, around, docs, run, here, d, outcome, Whole(around, old(docs), run, None));
    }

    /**
     * Converges every marked document, oldest mark first. Without a deadline it terminates having
     * settled every mark but those of documents held elsewhere; whenever it reports nothing
     * remaining, no mark is left and every row is current.
     */
    method RunKnowledgeProjection(pageSize: nat, deadline: Option<int>) returns (r: Progress, ghost run: Run)
      requires Valid() && pageSize > 0 && around.self !in around.runs
      modifies this`docs, this`clock
      ensures Valid() && Converged(env, HeldElsewhere(), !Late(deadline, clock), old(docs), docs, r)
      ensures Tallied(env, !Late(deadline, clock), old(docs), docs, pageSize, r)
      ensures Late(deadline, old(clock)) ==> r == Progress(0, 0, 0, 0, true) && docs == old(docs)
      ensures run.at == Stopped(r.remaining) && Reaches(env, State(old(docs), around.locks, around.runs), Whole(around, docs, run, None))
    {
      var settled: nat, pages: nat, written: nat := 0, 0, 0;
      var skipped: seq<DocId> := [];
      ghost var start := docs;
      hide *;
      RunStarts(HeldElsewhere(), docs);
      ghost var begin := State(docs, around.locks, around.runs);
      run := Run({}, [], 0, Looping);
      StartsLooping(env, around, docs, run, skipped);
      ghost var clock0 := clock;
      var expired := Expired(deadline);
      LateStays(deadline, clock0, clock);
      CountingBegins(env, !expired, docs, pageSize);
      while !expired
        invariant Valid() && Running(HeldElsewhere(), !expired, start, docs, skipped, settled)
        invariant run.at.Looping? && (!expired ==> IsLooping(run, [], skipped, settled))
        invariant Reaches(env, begin, Whole(around, docs, run, None))
        invariant expired <==> Late(deadline, clock)
        invariant Counted(env, !expired, start, docs, skipped, pageSize, pages, written)
        invariant Late(deadline, clock0) ==> expired && docs == start && settled == 0 && pages == 0 && written == 0 && skipped == []
        decreases |Eligible(docs, skipped)|, !expired
      {
        var claimed := ClaimMarks(SeqSet(skipped));
        ClaimedAreEligible(docs, markedAt, skipped, claimed);
        ClaimSteps(env, around, docs, markedAt, skipped, settled, claimed, run, begin);
        run := Claimed(run, claimed);
        if |claimed| == 0 {
          r := Progress(settled, |skipped|, pages, written, |skipped| > 0);
          RunEnds(env, HeldElsewhere(), true, start, docs, skipped, r);
          RunTallies(env, true, start, docs, skipped, pageSize, r);
          return;
        }
        ghost var stood := Whole(around, docs, run, None);
        settled, pages, written, skipped, expired, run :=
          ProjectClaimed(claimed, pageSize, deadline, start, settled, pages, written, skipped, run);
        ReachesOn(env, begin, stood, Whole(around, docs, run, None));
        ghost var earlier := clock;
        expired := Expired(deadline);
        RunningLater(HeldElsewhere(), deadline, !Late(deadline, earlier), earlier, clock, start, docs, skipped, settled);
        LateStays(deadline, earlier, clock);
        CountedLater(env, !Late(deadline, earlier), !expired, start, docs, skipped, pageSize, pages, written);
      }
      r := Progress(settled, |skipped|, pages, written, true);
      RunStops(env, HeldElsewhere(), start, docs, skipped, r);
      RunTallies(env, false, start, docs, skipped, pageSize, r);
      LoopBudgetStep(env, around, docs, run);
      ReachesOn(env, begin, Whole(around, docs, run, None), Whole(around, docs, run.(at := Stopped(true)), None));
      run := run.(at := Stopped(true));
    }

    /** The batch loop: each claimed document in turn, until the deadline. */
    method ProjectClaimed(claimed: seq<DocId>, pageSize: nat, deadline: Option<int>, ghost start: map<DocId, Doc>,
                          settled0: nat, pages0: nat, written0: nat, skipped0: seq<DocId>, ghost run0: Run)
      returns (settled: nat, pages: nat, written: nat, skipped: seq<DocId>, expired: bool, ghost run: Run)
      requires IsLooping(run0, claimed, skipped0, settled0)
      requires Valid() && pageSize > 0 && |claimed| > 0
      requires Running(HeldElsewhere(), true, start, docs, skipped0, settled0)
      requires Counted(env, true, start, docs, skipped0, pageSize, pages0, written0)
      requires forall j, k :: 0 <= j < k < |claimed| ==> claimed[j] != claimed[k]
      requires forall k :: 0 <= k < |claimed| ==> claimed[k] in Eligible(docs, skipped0)
      modifies this`docs, this`clock
      ensures Valid() && clock >= old(clock)
      ensures Running(HeldElsewhere(), !Late(deadline, clock), start, docs, skipped, settled)
      ensures Counted(env, !Late(deadline, clock), start, docs, skipped, pageSize, pages, written)
      ensures |Eligible(docs, skipped)| <= |old(Eligible(docs, skipped0))|
      ensures expired ==> Late(deadline, clock)
      ensures !expired ==> |Eligible(docs, skipped)| < |old(Eligible(docs, skipped0))|
      ensures run.at.Looping? && (!expired ==> IsLooping(run, [], skipped, settled))
      ensures Reaches(env, Whole(around, old(docs), run0, None), Whole(around, docs, run, None))
    {
      hide *;
      run := run0;
      Stays(env, Whole(around, docs, run, None));
      settled, pages, written, skipped, expired := settled0, pages0, written0, skipped0, false;
      ghost var eligible := Eligible(docs, skipped);
      BatchBegins(run, claimed, skipped, settled, eligible);
      RunningLater(HeldElsewhere(), deadline, true, clock, clock, start, docs, skipped, settled);
      CountedLater(env, true, !Late(deadline, clock), start, docs, skipped, pageSize, pages, written);
      for k := 0 to |claimed|
        invariant Valid() && clock >= old(clock) && !expired
        invariant Running(HeldElsewhere(), !Late(deadline, clock), start, docs, skipped, settled)
        invariant Counted(env, !Late(deadline, clock), start, docs, skipped, pageSize, pages, written)
        invariant IsLooping(run, claimed[k..], skipped, settled)
        invariant Reaches(env, Whole(around, old(docs), run0, None), Whole(around, docs, run, None))
        invariant LeftOf(claimed, k, Eligible(docs, skipped), eligible)
      {
        LoopingIs(run, claimed[k..], skipped, settled);
        LeftIs(claimed, k, Eligible(docs, skipped), eligible);
        ghost var earlier := clock;
        expired := Expired(deadline);
        RunningLater(HeldElsewhere(), deadline, !Late(deadline, earlier), earlier, clock, start, docs, skipped, settled);
        LateStays(deadline, earlier, clock);
        CountedLater(env, !Late(deadline, earlier), !Late(deadline, clock), start, docs, skipped, pageSize, pages, written);
        if expired {
          return;
        }
        earlier := clock;
        ghost var before, stood := docs, Whole(around, docs, run, None);
        EligibleIsMarked(docs, skipped, claimed[k]);
        var outcome, p, w := ProjectMarkedDocument(claimed[k], pageSize, deadline, run);
        ReachesOn(env, Whole(around, old(docs), run0, None), stood, Whole(around, docs, AfterOutcome(run, claimed[k], outcome), None));
        LateStays(deadline, earlier, clock);
        RunningLater(HeldElsewhere(), deadline, !Late(deadline, earlier), earlier, clock, start, before, skipped, settled);
        CountedLater(env, !Late(deadline, earlier), !Late(deadline, clock), start, before, skipped, pageSize, pages, written);
        DocumentDone(env, HeldElsewhere(), Late(deadline, clock), start, before, docs, skipped, settled, claimed, k, eligible, run,
                     outcome, pageSize, pages, written, p, w);
        run := AfterOutcome(run, claimed[k], outcome);
        pages := pages + p;
        written := written + w;
        if outcome == Settled {
          settled := settled + 1;
        } else if outcome == Deferred {
          skipped := skipped + [claimed[k]];
        }
      }
      BatchEnds(run, claimed, skipped, settled, Eligible(docs, skipped), eligible);
    }
  }

  /** Of the marks a batch began with, those of its documents from `k` on are left, among others. */
  ghost predicate LeftOf(claimed: seq<DocId>, k: nat, now: set<DocId>, eligible: set<DocId>) {
    && k <= |claimed| && now <= eligible && (k > 0 ==> claimed[0] in eligible && claimed[0] !in now)
    && (forall j :: k <= j < |claimed| ==> claimed[j] in now)
    && (forall i, j :: 0 <= i < j < |claimed| ==> claimed[i] != claimed[j])
  }

  lemma LeftIs(claimed: seq<DocId>, k: nat, now: set<DocId>, eligible: set<DocId>)
    requires LeftOf(claimed, k, now, eligible)
    ensures k < |claimed| ==> claimed[k] in now && claimed[k..] != [] && claimed[k..][0] == claimed[k]
    ensures |now| <= |eligible|
  {
    Fewer(now, eligible);
  }

  lemma BatchBegins(run: Run, claimed: seq<DocId>, skipped: seq<DocId>, settled: nat, eligible: set<DocId>)
    requires IsLooping(run, claimed, skipped, settled)
    requires forall j, k :: 0 <= j < k < |claimed| ==> claimed[j] != claimed[k]
    requires forall k :: 0 <= k < |claimed| ==> claimed[k] in eligible
    ensures LeftOf(claimed, 0, eligible, eligible) && IsLooping(run, claimed[0..], skipped, settled)
  {
    assert claimed[0..] == claimed;
  }

  lemma BatchEnds(run: Run, claimed: seq<DocId>, skipped: seq<DocId>, settled: nat, now: set<DocId>, eligible: set<DocId>)
    requires |claimed| > 0 && LeftOf(claimed, |claimed|, now, eligible) && IsLooping(run, claimed[|claimed|..], skipped, settled)
    ensures |now| < |eligible| && IsLooping(run, [], skipped, settled) && run.at.Looping?
  {
    Fewer(now, eligible);
    assert claimed[|claimed|..] == [];
  }

  lemma DocumentDone(env: Env, held: set<DocId>, late: bool, start: map<DocId, Doc>, before: map<DocId, Doc>, after: map<DocId, Doc>,
                     skipped: seq<DocId>, settled: nat, claimed: seq<DocId>, k: nat, eligible: set<DocId>, run: Run, outcome: Outcome,
                     size: nat, pages: nat, written: nat, p: nat, w: nat)
    requires k < |claimed| && LeftOf(claimed, k, Eligible(before, skipped), eligible) && IsLooping(run, claimed[k..], skipped, settled)
    requires Running(held, !late, start, before, skipped, settled) && claimed[k] in Eligible(before, skipped)
    requires Projected(env, held, late, claimed[k], before, after, size, outcome, p, w)
    requires Counted(env, !late, start, before, skipped, size, pages, written)
    ensures var skipped' := if outcome == Deferred then skipped + [claimed[k]] else skipped;
            var settled' := if outcome == Settled then settled + 1 else settled;
            && Running(held, !late, start, after, skipped', settled')
            && LeftOf(claimed, k + 1, Eligible(after, skipped'), eligible)
            && IsLooping(AfterOutcome(run, claimed[k], outcome), claimed[k + 1..], skipped', settled')
            && Counted(env, !late, start, after, skipped', size, pages + p, written + w)
  {
    var d := claimed[k];
    EligibleIsMarked(before, skipped, d);
    MarksOnlyGo(held, !late, start, before, skipped, settled);
    DocumentCounted(env, held, late, start, before, after, skipped, d, size, pages, written, outcome, p, w);
    ProjectedMarks(env, held, late, d, before, after, size, outcome, p, w);
    hide Projected, Counted;
    OutcomeKeepsRunning(held, !late, start, before, after, skipped, settled, d, outcome);
    NextDocument(run, claimed, k, skipped, settled, outcome);
    hide Eligible, Running, SameDocuments, IsLooping, AfterOutcome;
  }

  lemma MarksOnlyGo(held: set<DocId>, inTime: bool, start: map<DocId, Doc>, docs: map<DocId, Doc>, skipped: seq<DocId>, settled: nat)
    requires Running(held, inTime, start, docs, skipped, settled)
    ensures MarkedIn(docs) <= MarkedIn(start)
  {
  }

  lemma ProjectedMarks(env: Env, held: set<DocId>, late: bool, d: DocId, before: map<DocId, Doc>, after: map<DocId, Doc>,
                       size: nat, outcome: Outcome, pages: nat, written: nat)
    requires Projected(env, held, late, d, before, after, size, outcome, pages, written) && d in MarkedIn(before)
    ensures SameDocuments(before, after) && d in after && d in before
    ensures forall e :: e in after && e != d ==> e in before && after[e].mark == before[e].mark
    ensures outcome == Settled ==> after[d].mark == None && d !in held
    ensures outcome != Settled ==> outcome == Deferred && after[d].mark == before[d].mark && (!late ==> d in held)
  {
  }

  lemma {:induction false} Fewer<T>(a: set<T>, b: set<T>)
    requires a <= b
    ensures |a| <= |b| && (a != b ==> |a| < |b|)
  {
    assert b == a + (b - a);
  }

  /** The run between documents, with these claimed documents to go. */
  ghost predicate IsLooping(run: Run, claimed: seq<DocId>, skipped: seq<DocId>, settled: nat) {
    run == Run(SetOf(skipped), claimed, settled, Looping)
  }

  lemma LoopingIs(run: Run, claimed: seq<DocId>, skipped: seq<DocId>, settled: nat)
    requires IsLooping(run, claimed, skipped, settled)
    ensures run.at.Looping? && run.claimed == claimed
  {
  }

  lemma NextDocument(run: Run, claimed: seq<DocId>, k: nat, skipped: seq<DocId>, settled: nat, outcome: Outcome)
    requires k < |claimed| && IsLooping(run, claimed[k..], skipped, settled)
    ensures outcome == Settled ==> IsLooping(AfterOutcome(run, claimed[k], outcome), claimed[k + 1..], skipped, settled + 1)
    ensures outcome == Deferred ==> IsLooping(AfterOutcome(run, claimed[k], outcome), claimed[k + 1..], skipped + [claimed[k]], settled)
    ensures AfterOutcome(run, claimed[k], outcome).at.Looping?
  {
    assert claimed[k..][1..] == claimed[k + 1..];
    SameSet(SetOf(skipped + [claimed[k]]), SetOf(skipped) + {claimed[k]});
  }

  lemma StartsLooping(env: Env, a: Around, docs: map<DocId, Doc>, run: Run, skipped: seq<DocId>)
    requires a.self !in a.runs && run == Run({}, [], 0, Looping) && skipped == []
    ensures IsLooping(run, [], skipped, 0) && Reaches(env, State(docs, a.locks, a.runs), Whole(a, docs, run, None))
  {
    StartStep(env, a, docs);
    assert SetOf(skipped) == {};
  }

  lemma NoneEligible(docs: map<DocId, Doc>, skipped: seq<DocId>)
    requires Eligible(docs, skipped) == {}
    ensures forall d :: d in docs && docs[d].mark.Some? ==> d in SetOf(skipped)
  {
    forall d | d in docs && docs[d].mark.Some? ensures d in SetOf(skipped) {
      assert d in MarkedIn(docs) && d !in Eligible(docs, skipped);
    }
  }

  lemma ClaimSteps(env: Env, a: Around, docs: map<DocId, Doc>, markedAt: map<DocId, int>, skipped: seq<DocId>, settled: nat,
                   claimed: seq<DocId>, run: Run, begin: State)
    requires MarkedIn(docs) <= markedAt.Keys && IsClaim(MarkedIn(docs) - SeqSet(skipped), markedAt, claimed)
    requires IsLooping(run, [], skipped, settled) && Reaches(env, begin, Whole(a, docs, run, None))
    ensures Reaches(env, begin, Whole(a, docs, Claimed(run, claimed), None))
    ensures claimed == [] ==> Claimed(run, claimed).at == Stopped(|skipped| > 0)
    ensures claimed != [] ==> IsLooping(Claimed(run, claimed), claimed, skipped, settled) && Claimed(run, claimed).at.Looping?
  {
    if claimed == [] {
      ClaimedAreEligible(docs, markedAt, skipped, claimed);
      NoneEligible(docs, skipped);
    }
    ClaimStep(env, a, docs, run, claimed);
    if |skipped| > 0 { assert skipped[0] in SetOf(skipped); } else { assert SetOf(skipped) == {}; }
    hide Reaches, Whole;
    ReachesOn(env, begin, Whole(a, docs, run, None), Whole(a, docs, Claimed(run, claimed), None));
  }

  /** The marks a run may still claim. */
  ghost function Eligible(docs: map<DocId, Doc>, skipped: seq<DocId>): set<DocId> {
    MarkedIn(docs) - SetOf(skipped)
  }

  /** What a run has counted between documents; those it may still claim are as they were. */
  ghost predicate Counted(env: Env, inTime: bool, start: map<DocId, Doc>, docs: map<DocId, Doc>, skipped: seq<DocId>, size: nat,
                          pages: nat, written: nat)
  {
    && size > 0 && docs.Keys == start.Keys && written == |ChangedRows(start, docs)|
    && (forall d :: d in Eligible(docs, skipped) ==> d in docs && docs[d] == start[d])
    && (inTime ==> pages == Total(MarkedIn(start) - MarkedIn(docs), Cost(env, start, size)))
  }

  /** The pages each document takes. */
  ghost function Cost(env: Env, docs: map<DocId, Doc>, size: nat): DocId -> nat
    requires size > 0
  {
    d => if d in docs then PagesFor(env, docs[d], size) else 0
  }

  lemma CountingBegins(env: Env, inTime: bool, docs: map<DocId, Doc>, size: nat)
    requires size > 0
    ensures Counted(env, inTime, docs, docs, [], size, 0, 0)
  {
    NoRowsChanged(docs);
    EmptySet(MarkedIn(docs) - MarkedIn(docs));
  }

  lemma CountedLater(env: Env, was: bool, now: bool, start: map<DocId, Doc>, docs: map<DocId, Doc>, skipped: seq<DocId>, size: nat,
                     pages: nat, written: nat)
    requires Counted(env, was, start, docs, skipped, size, pages, written) && (now ==> was)
    ensures Counted(env, now, start, docs, skipped, size, pages, written)
  {
  }

  lemma LateStays(deadline: Option<int>, earlier: int, now: int)
    requires earlier <= now
    ensures Late(deadline, earlier) ==> Late(deadline, now)
  {
  }

  lemma DocumentCounted(env: Env, held: set<DocId>, late: bool, start: map<DocId, Doc>, before: map<DocId, Doc>,
                        after: map<DocId, Doc>, skipped: seq<DocId>, d: DocId, size: nat, pages: nat, written: nat,
                        outcome: Outcome, p: nat, w: nat)
    requires Counted(env, !late, start, before, skipped, size, pages, written) && d in Eligible(before, skipped)
    requires MarkedIn(before) <= MarkedIn(start) && Projected(env, held, late, d, before, after, size, outcome, p, w)
    ensures var skipped' := if outcome == Deferred then skipped + [d] else skipped;
            Counted(env, !late, start, after, skipped', size, pages + p, written + w)
  {
    NoneChanged(before[d].rows);
    DocumentAdds(start, before, after, d);
    var skipped' := if outcome == Deferred then skipped + [d] else skipped;
    forall e | e in Eligible(after, skipped') ensures e in after && after[e] == start[e] {
      StillEligible(before, after, skipped, d, outcome, e);
    }
    hide ChangedRows, Eligible, Changed, AllCurrent;
    if !late {
      PagesAdd(env, held, start, before, after, d, size, pages, outcome, p, w);
    }
  }

  lemma StillEligible(before: map<DocId, Doc>, after: map<DocId, Doc>, skipped: seq<DocId>, d: DocId, outcome: Outcome, e: DocId)
    requires d in before && after.Keys == before.Keys && forall x :: x in after && x != d ==> after[x] == before[x]
    requires outcome == Settled || outcome == Deferred
    requires outcome == Settled ==> after[d].mark == None
    requires e in Eligible(after, if outcome == Deferred then skipped + [d] else skipped)
    ensures e != d && e in Eligible(before, skipped)
  {
    if outcome == Deferred { assert d in SetOf(skipped + [d]); }
  }

  lemma PagesAdd(env: Env, held: set<DocId>, start: map<DocId, Doc>, before: map<DocId, Doc>, after: map<DocId, Doc>, d: DocId,
                 size: nat, pages: nat, outcome: Outcome, p: nat, w: nat)
    requires size > 0 && MarkedIn(before) <= MarkedIn(start) && d in MarkedIn(before) && d in start && before[d] == start[d]
    requires Projected(env, held, false, d, before, after, size, outcome, p, w)
    requires pages == Total(MarkedIn(start) - MarkedIn(before), Cost(env, start, size))
    ensures pages + p == Total(MarkedIn(start) - MarkedIn(after), Cost(env, start, size))
  {
    var done, now := MarkedIn(start) - MarkedIn(before), MarkedIn(start) - MarkedIn(after);
    hide PagesFor, AllCurrent;
    if outcome == Settled {
      SameSet(now - {d}, done);
      TotalPlus(now, d, Cost(env, start, size));
    } else {
      SameSet(now, done);
    }
  }

  /** What a run keeps between documents, relative to the documents it started from. */
  ghost predicate Running(held: set<DocId>, inTime: bool, start: map<DocId, Doc>, docs: map<DocId, Doc>, skipped: seq<DocId>,
                          settled: nat)
  {
    && SameDocuments(start, docs)
    && MarkedIn(docs) <= MarkedIn(start) && settled + |MarkedIn(docs)| == |MarkedIn(start)|
    && SetOf(skipped) <= MarkedIn(docs) && |SetOf(skipped)| == |skipped|
    && MarkedIn(start) * held <= MarkedIn(docs)
    && (inTime ==> SetOf(skipped) <= held)
  }

  lemma RunStarts(held: set<DocId>, docs: map<DocId, Doc>)
    ensures Running(held, true, docs, docs, [], 0) && Running(held, false, docs, docs, [], 0)
  {
  }

  /** As the clock goes on the run is held to no more. */
  lemma RunningLater(held: set<DocId>, deadline: Option<int>, was: bool, earlier: int, now: int, start: map<DocId, Doc>,
                     docs: map<DocId, Doc>, skipped: seq<DocId>, settled: nat)
    requires earlier <= now && Running(held, was, start, docs, skipped, settled) && (was || Late(deadline, earlier))
    ensures Running(held, !Late(deadline, now), start, docs, skipped, settled)
  {
  }

  lemma EligibleIsMarked(docs: map<DocId, Doc>, skipped: seq<DocId>, d: DocId)
    requires d in Eligible(docs, skipped)
    ensures d in docs && docs[d].mark.Some? && d in MarkedIn(docs)
  {
  }

  /** A claim is of marks the run may still take; only when there are none is it empty. */
  lemma ClaimedAreEligible(docs: map<DocId, Doc>, markedAt: map<DocId, int>, skipped: seq<DocId>, claimed: seq<DocId>)
    requires MarkedIn(docs) <= markedAt.Keys && IsClaim(MarkedIn(docs) - SeqSet(skipped), markedAt, claimed)
    ensures forall k :: 0 <= k < |claimed| ==> claimed[k] in Eligible(docs, skipped)
    ensures forall j, k :: 0 <= j < k < |claimed| ==> claimed[j] != claimed[k]
    ensures |claimed| == 0 ==> Eligible(docs, skipped) == {}
  {
  }

  /** Settling a document takes its mark off the table; deferring it takes it off the run's list. */
  lemma OutcomeKeepsRunning(held: set<DocId>, inTime: bool, start: map<DocId, Doc>, before: map<DocId, Doc>,
                            after: map<DocId, Doc>, skipped: seq<DocId>, settled: nat, d: DocId, outcome: Outcome)
    requires Running(held, inTime, start, before, skipped, settled) && d in Eligible(before, skipped)
    requires SameDocuments(before, after) && forall e :: e in after && e != d ==> after[e].mark == before[e].mark
    requires outcome == Settled ==> after[d].mark == None && d !in held
    requires outcome != Settled ==> outcome == Deferred && after[d].mark == before[d].mark && (inTime ==> d in held)
    ensures outcome == Settled ==> Running(held, inTime, start, after, skipped, settled + 1)
                                   && Eligible(after, skipped) == Eligible(before, skipped) - {d}
    ensures outcome != Settled ==> Running(held, inTime, start, after, skipped + [d], settled)
                                   && Eligible(after, skipped + [d]) == Eligible(before, skipped) - {d}
  {
    if outcome == Settled {
      SameSet(MarkedIn(after), MarkedIn(before) - {d});
      SameSet(Eligible(after, skipped), Eligible(before, skipped) - {d});
    } else {
      SameSet(MarkedIn(after), MarkedIn(before));
      AddToSet(skipped, d);
      SameSet(Eligible(after, skipped + [d]), Eligible(before, skipped) - {d});
    }
  }

  lemma RunTallies(env: Env, inTime: bool, start: map<DocId, Doc>, docs: map<DocId, Doc>, skipped: seq<DocId>, size: nat, r: Progress)
    requires Counted(env, inTime, start, docs, skipped, size, r.pages, r.written)
    ensures Tallied(env, inTime, start, docs, size, r)
  {
  }

  lemma RunStops(env: Env, held: set<DocId>, start: map<DocId, Doc>, docs: map<DocId, Doc>, skipped: seq<DocId>, r: Progress)
    requires Running(held, false, start, docs, skipped, r.settled) && DocsOk(env, docs) && r.remaining
    ensures Converged(env, held, false, start, docs, r)
  {
  }

  /** Once nothing is left to claim, what is still marked is exactly what was passed over. */
  lemma RunEnds(env: Env, held: set<DocId>, inTime: bool, start: map<DocId, Doc>, docs: map<DocId, Doc>, skipped: seq<DocId>,
                r: Progress)
    requires Running(held, inTime, start, docs, skipped, r.settled) && DocsOk(env, docs) && Eligible(docs, skipped) == {}
    requires r.deferred == |skipped| && (r.remaining <==> |skipped| > 0)
    ensures Converged(env, held, inTime, start, docs, r)
  {
    forall d ensures d in MarkedIn(docs) <==> d in SetOf(skipped) {
      assert d !in Eligible(docs, skipped);
    }
    SameSet(MarkedIn(docs), SetOf(skipped));
    if inTime { SameSet(MarkedIn(docs), MarkedIn(start) * held); }
    if |skipped| == 0 { assert SetOf(skipped) == {}; } else { assert skipped[0] in SetOf(skipped); }
  }

  function SeqSet<T>(s: seq<T>): (r: set<T>)
    ensures r == SetOf(s)
  {
    set x | x in s
  }

  lemma PlanStep(env: Env, content: bool, k: nat)
    requires k < |Plan(env, content)|
    ensures Plan(env, content)[k] in Projections(env)
    ensures forall j :: 0 <= j < k ==> Plan(env, content)[j] != Plan(env, content)[k]
  {
  }

  lemma EarlierStayCurrent(env: Env, d: DocId, before: Doc, after: Doc, plan: seq<Projection>, k: nat)
    requires k < |plan| && OthersKept(env, d, before, after, plan[k])
    requires forall j :: 0 <= j < k ==> plan[j] != plan[k] && ProjectionCurrent(env, d, before, plan[j])
    ensures forall j :: 0 <= j < k ==> ProjectionCurrent(env, d, after, plan[j])
    ensures after.chunks == before.chunks && after.source == before.source && after.mark == before.mark
  {
    hide Current;
  }

  lemma PlanDoneIsCurrent(env: Env, d: DocId, doc: Doc, plan: seq<Projection>)
    requires DocOk(env, d, doc) && doc.mark.Some? && plan == Plan(env, doc.mark.value.content)
    requires forall j :: 0 <= j < |plan| ==> ProjectionCurrent(env, d, doc, plan[j])
    ensures AllCurrent(env, d, doc)
  {
    forall p, c | p in Projections(env) && c in doc.chunks ensures Current(env, d, doc, p, c) {
      if p in plan {
        var j :| 0 <= j < |plan| && plan[j] == p;
        assert ProjectionCurrent(env, d, doc, plan[j]);
      } else {
        assert p == Keyword && !doc.mark.value.content;
      }
    }
  }

  lemma ConsistentOf(env: Env, d: DocId, doc: Doc)
    requires DocOk(env, d, doc)
    ensures Consistent(doc)
  {
  }

  lemma OthersKeptTransitive(env: Env, d: DocId, a: Doc, b: Doc, c: Doc, p: Projection)
    requires OthersKept(env, d, a, b, p) && OthersKept(env, d, b, c, p)
    ensures OthersKept(env, d, a, c, p)
  {
    hide Current;
  }

  /** A full page leaves fewer chunks past the cursor. */
  lemma FullPageAdvances(chunks: map<ChunkId, Chunk>, after: int, size: nat, page: map<ChunkId, Chunk>, last: int)
    requires IsPage(chunks, after, size, page) && |page| == size > 0 && IsLast(page, last)
    ensures last > after && ChunksPast(chunks, last) < ChunksPast(chunks, after)
  {
    var c :| c in page && page[c].index == last;
    assert c in ChunksPast(chunks, after) && c !in ChunksPast(chunks, last);
  }
}
