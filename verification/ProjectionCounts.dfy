/** What a run counts: the pages it read and the rows it wrote. */
module ProjectionCounts {
  import opened Wrappers
  import opened ProjectionModel

  /** The rows that are there and were not there like this before. */
  function Changed(before: map<RowKey, Row>, after: map<RowKey, Row>): set<RowKey> {
    set key | key in after && (key !in before || before[key] != after[key])
  }

  ghost predicate SameRow(before: map<RowKey, Row>, after: map<RowKey, Row>, key: RowKey) {
    (key in before <==> key in after) && (key in before ==> before[key] == after[key])
  }

  /** The rows of every projection but `p` are as they were. */
  ghost predicate OtherRows(before: map<RowKey, Row>, after: map<RowKey, Row>, p: Projection) {
    forall key: RowKey :: key.projection != p ==> SameRow(before, after, key)
  }

  /** The rows of `p` are as they were for every chunk past an index. */
  ghost predicate SamePast(before: Doc, after: Doc, p: Projection, low: int) {
    forall c :: c in after.chunks && low < after.chunks[c].index ==> SameRow(before.rows, after.rows, RowKey(p, c))
  }

  /** What one page of `size` past `cursor` counts; `last` is where it ended, if it came back full. */
  ghost predicate PageCounted(p: Projection, before: Doc, after: Doc, cursor: int, size: nat, last: Option<int>, written: nat) {
    && after.chunks == before.chunks
    && written == |Changed(before.rows, after.rows)| && OtherRows(before.rows, after.rows, p)
    && (forall c :: c in after.chunks && after.chunks[c].index <= cursor ==> SameRow(before.rows, after.rows, RowKey(p, c)))
    && match last
       case None => |ChunksPast(after.chunks, cursor)| < size
       case Some(last) =>
         last > cursor && SamePast(before, after, p, last) && |ChunksPast(after.chunks, cursor)| == size + |ChunksPast(after.chunks, last)|
  }

  /** What the pages up to a cursor have counted. */
  ghost predicate CountedTo(p: Projection, start: Doc, doc: Doc, cursor: int, size: nat, pages: nat, written: nat) {
    && doc.chunks == start.chunks
    && written == |Changed(start.rows, doc.rows)| && OtherRows(start.rows, doc.rows, p)
    && SamePast(start, doc, p, cursor)
    && |ChunksPast(doc.chunks, cursor)| + pages * size == |doc.chunks|
  }

  lemma CountingStarts(p: Projection, doc: Doc, size: nat)
    ensures CountedTo(p, doc, doc, -1, size, 0, 0)
  {
    forall c: ChunkId ensures c in ChunksPast(doc.chunks, -1) <==> c in doc.chunks.Keys {}
    SameSet(ChunksPast(doc.chunks, -1), doc.chunks.Keys);
    NoneChanged(doc.rows);
  }

  lemma NoneChanged(rows: map<RowKey, Row>)
    ensures Changed(rows, rows) == {} && |Changed(rows, rows)| == 0
  {
    EmptySet(Changed(rows, rows));
  }

  /** Rows that change in two stretches, none of them in both, are counted once each. */
  lemma ChangesAdd(a: map<RowKey, Row>, b: map<RowKey, Row>, c: map<RowKey, Row>)
    requires forall key :: key in Changed(b, c) ==> SameRow(a, b, key)
    requires forall key :: key in Changed(a, b) ==> SameRow(b, c, key)
    requires forall key :: key in c && key !in Changed(a, b) && key !in Changed(b, c) ==> key in a && a[key] == c[key]
    ensures |Changed(a, c)| == |Changed(a, b)| + |Changed(b, c)|
  {
    SameSet(Changed(a, c), Changed(a, b) + Changed(b, c));
    EmptySet(Changed(a, b) * Changed(b, c));
  }

  lemma UnchangedIsSame(a: map<RowKey, Row>, b: map<RowKey, Row>, c: map<RowKey, Row>, key: RowKey)
    requires key in c && key !in Changed(a, b) && key !in Changed(b, c)
    ensures key in a && a[key] == c[key]
  {
  }

  /** A page adds what it changed to what was counted before it. */
  lemma PageAddsChanges(p: Projection, start: Doc, doc: Doc, next: Doc, cursor: int)
    requires Consistent(doc) && Consistent(next) && next.chunks == doc.chunks
    requires OtherRows(doc.rows, next.rows, p) && SamePast(start, doc, p, cursor)
    requires forall c :: c in next.chunks && next.chunks[c].index <= cursor ==> SameRow(doc.rows, next.rows, RowKey(p, c))
    ensures |Changed(start.rows, next.rows)| == |Changed(start.rows, doc.rows)| + |Changed(doc.rows, next.rows)|
  {
    forall key | key in Changed(doc.rows, next.rows) ensures SameRow(start.rows, doc.rows, key) {
      assert key.projection == p && key.chunk in next.chunks && key == RowKey(p, key.chunk);
    }
    forall key | key in Changed(start.rows, doc.rows) ensures SameRow(doc.rows, next.rows, key) {
      if key.projection == p {
        assert key.chunk in next.chunks && key == RowKey(p, key.chunk);
      }
    }
    forall key | key in next.rows && key !in Changed(start.rows, doc.rows) && key !in Changed(doc.rows, next.rows)
      ensures key in start.rows && start.rows[key] == next.rows[key]
    {
      UnchangedIsSame(start.rows, doc.rows, next.rows, key);
    }
    hide Consistent, Changed;
    ChangesAdd(start.rows, doc.rows, next.rows);
  }

  lemma OtherRowsTwice(a: map<RowKey, Row>, b: map<RowKey, Row>, c: map<RowKey, Row>, p: Projection)
    requires OtherRows(a, b, p) && OtherRows(b, c, p)
    ensures OtherRows(a, c, p)
  {
  }

  lemma SamePastTwice(a: Doc, b: Doc, c: Doc, p: Projection, cursor: int, last: int)
    requires b.chunks == c.chunks && cursor < last && SamePast(a, b, p, cursor) && SamePast(b, c, p, last)
    ensures SamePast(a, c, p, last)
  {
  }

  lemma PageAdds(p: Projection, start: Doc, doc: Doc, next: Doc, cursor: int, size: nat, last: Option<int>, pages: nat,
                 written: nat, changed: nat)
    requires Consistent(doc) && Consistent(next)
    requires CountedTo(p, start, doc, cursor, size, pages, written) && PageCounted(p, doc, next, cursor, size, last, changed)
    ensures written + changed == |Changed(start.rows, next.rows)| && OtherRows(start.rows, next.rows, p)
    ensures last.Some? ==> CountedTo(p, start, next, last.value, size, pages + 1, written + changed)
    ensures last.None? ==> next.chunks == start.chunks && pages * size <= |next.chunks| < pages * size + size
  {
    hide Changed, Consistent, OtherRows, SameRow, SamePast, ChunksPast;
    PageAddsChanges(p, start, doc, next, cursor);
    OtherRowsTwice(start.rows, doc.rows, next.rows, p);
    if last.Some? { SamePastTwice(start, doc, next, p, cursor, last.value); }
    assert (pages + 1) * size == pages * size + size;
  }

  /** So many full pages and a short one. */
  lemma PagesOf(chunks: nat, size: nat, pages: nat)
    requires size > 0 && pages * size <= chunks < pages * size + size
    ensures pages == chunks / size
  {
    var k := chunks / size;
    assert k * size <= chunks < k * size + size;
    Monotone(k + 1, pages, size);
    Monotone(pages + 1, k, size);
    assert (k + 1) * size == k * size + size && (pages + 1) * size == pages * size + size;
  }

  lemma Monotone(a: nat, b: nat, size: nat)
    ensures a <= b ==> a * size <= b * size
  {
    if a <= b { assert b * size == a * size + (b - a) * size; }
  }

  // ----- one page -----

  /** The rows a page statement returns as written: those it kept and that differ from before. */
  function RowsWritten(p: Projection, page: map<ChunkId, Chunk>, before: map<RowKey, Row>, after: map<RowKey, Row>): set<RowKey> {
    set c | c in page && RowKey(p, c) in Changed(before, after) :: RowKey(p, c)
  }

  lemma PageChanges(env: Env, d: DocId, doc: Doc, p: Projection, content: bool, page: map<ChunkId, Chunk>, key: RowKey)
    requires key.projection != p || key.chunk !in page
    ensures SameRow(doc.rows, PageRows(env, d, p, content, page, doc.source, doc.rows), key)
  {
    assert key !in (set c | c in page :: RowKey(p, c));
  }

  lemma WrittenIsChanged(env: Env, d: DocId, doc: Doc, p: Projection, content: bool, page: map<ChunkId, Chunk>)
    ensures var rows := PageRows(env, d, p, content, page, doc.source, doc.rows);
            RowsWritten(p, page, doc.rows, rows) == Changed(doc.rows, rows)
  {
    var rows := PageRows(env, d, p, content, page, doc.source, doc.rows);
    hide PageRows;
    forall key ensures key in RowsWritten(p, page, doc.rows, rows) <==> key in Changed(doc.rows, rows) {
      if key in Changed(doc.rows, rows) {
        if key.projection != p || key.chunk !in page { PageChanges(env, d, doc, p, content, page, key); }
        assert key == RowKey(p, key.chunk);
      }
    }
    SameSet(RowsWritten(p, page, doc.rows, rows), Changed(doc.rows, rows));
  }

  lemma PagePast(chunks: map<ChunkId, Chunk>, cursor: int, size: nat, page: map<ChunkId, Chunk>, last: int)
    requires IsPage(chunks, cursor, size, page) && size > 0 && (|page| == size ==> IsLast(page, last))
    ensures |page| < size ==> |ChunksPast(chunks, cursor)| < size
    ensures |page| == size ==> last > cursor && |ChunksPast(chunks, cursor)| == size + |ChunksPast(chunks, last)|
    ensures |page| == size ==> forall c :: c in chunks && chunks[c].index > last ==> c !in page
  {
    if |page| == size {
      var e :| e in page && page[e].index == last;
      PastSplits(chunks, cursor, page, last);
    } else {
      forall c: ChunkId | c in ChunksPast(chunks, cursor) ensures c in page.Keys {}
      Within(ChunksPast(chunks, cursor), page.Keys);
    }
  }

  lemma Within<T(!new)>(a: set<T>, b: set<T>)
    requires forall x :: x in a ==> x in b
    ensures |a| <= |b|
  {
    assert b == a + (b - a);
  }

  lemma PastSplits(chunks: map<ChunkId, Chunk>, cursor: int, page: map<ChunkId, Chunk>, last: int)
    requires (forall c :: c in page ==> c in chunks && page[c] == chunks[c] && cursor < chunks[c].index <= last) && cursor < last
    requires forall c :: c in chunks && c !in page && chunks[c].index > cursor ==> chunks[c].index > last
    ensures |ChunksPast(chunks, cursor)| == |page| + |ChunksPast(chunks, last)|
  {
    forall c: ChunkId ensures c in ChunksPast(chunks, cursor) <==> c in page.Keys + ChunksPast(chunks, last) {}
    SameSet(ChunksPast(chunks, cursor), page.Keys + ChunksPast(chunks, last));
    forall c: ChunkId ensures c !in page.Keys * ChunksPast(chunks, last) {}
    EmptySet(page.Keys * ChunksPast(chunks, last));
    assert |page.Keys + ChunksPast(chunks, last)| == |page.Keys| + |ChunksPast(chunks, last)| - |page.Keys * ChunksPast(chunks, last)|;
  }

  lemma PageIsCounted(env: Env, d: DocId, doc: Doc, p: Projection, content: bool, page: map<ChunkId, Chunk>, cursor: int,
                      size: nat, last: int)
    requires IsPage(doc.chunks, cursor, size, page) && size > 0 && (|page| == size ==> IsLast(page, last))
    ensures var rows := PageRows(env, d, p, content, page, doc.source, doc.rows);
            PageCounted(p, doc, doc.(rows := rows), cursor, size, if |page| == size then Some(last) else None,
                        |RowsWritten(p, page, doc.rows, rows)|)
  {
    var rows := PageRows(env, d, p, content, page, doc.source, doc.rows);
    hide PageRows, RowsWritten, Changed;
    WrittenIsChanged(env, d, doc, p, content, page);
    PagePast(doc.chunks, cursor, size, page, last);
    forall key: RowKey | key.projection != p || key.chunk !in page ensures SameRow(doc.rows, rows, key) {
      PageChanges(env, d, doc, p, content, page, key);
    }
    hide IsLast, SameRow;
  }

  // ----- many documents -----

  /** The rows of all documents that are there and were not there like this before. */
  function ChangedRows(before: map<DocId, Doc>, after: map<DocId, Doc>): set<(DocId, RowKey)> {
    set d, key | d in after && d in before && key in Changed(before[d].rows, after[d].rows) :: (d, key)
  }

  lemma NoRowsChanged(docs: map<DocId, Doc>)
    ensures |ChangedRows(docs, docs)| == 0
  {
    forall d | d in docs ensures Changed(docs[d].rows, docs[d].rows) == {} { NoneChanged(docs[d].rows); }
    EmptySet(ChangedRows(docs, docs));
  }

  /** A document touched for the first time adds the rows it changed. */
  lemma DocumentAdds(start: map<DocId, Doc>, before: map<DocId, Doc>, after: map<DocId, Doc>, d: DocId)
    requires d in start && d in before && d in after && before[d] == start[d] && before.Keys == after.Keys
    requires forall e :: e in after && e != d ==> after[e] == before[e]
    ensures |ChangedRows(start, after)| == |ChangedRows(start, before)| + |Changed(before[d].rows, after[d].rows)|
  {
    var rows := Changed(before[d].rows, after[d].rows);
    var added := set key | key in rows :: (d, key);
    NoneChanged(start[d].rows);
    hide Changed;
    forall x ensures x in ChangedRows(start, after) <==> x in ChangedRows(start, before) + added {
      if x.0 == d {
        assert x in added <==> x.1 in rows;
      }
    }
    SameSet(ChangedRows(start, after), ChangedRows(start, before) + added);
    EmptySet(ChangedRows(start, before) * added);
    Tagged(d, rows, added);
  }

  lemma {:induction false} Tagged(d: DocId, rows: set<RowKey>, tagged: set<(DocId, RowKey)>)
    requires forall x :: x in tagged <==> x.0 == d && x.1 in rows
    ensures |tagged| == |rows|
    decreases |rows|
  {
    if rows == {} {
      EmptySet(tagged);
    } else {
      var key := Element(rows);
      Tagged(d, rows - {key}, tagged - {(d, key)});
    }
  }

  /** A sum over documents. */
  ghost function Total(docs: set<DocId>, cost: DocId -> nat): nat {
    if docs == {} then 0 else
      var d :| d in docs;
      cost(d) + Total(docs - {d}, cost)
  }

  lemma {:induction false} TotalPlus(docs: set<DocId>, d: DocId, cost: DocId -> nat)
    requires d in docs
    ensures Total(docs, cost) == cost(d) + Total(docs - {d}, cost)
    decreases |docs|
  {
    var e :| e in docs && Total(docs, cost) == cost(e) + Total(docs - {e}, cost);
    if e != d {
      TotalPlus(docs - {e}, d, cost);
      TotalPlus(docs - {d}, e, cost);
      assert docs - {e} - {d} == docs - {d} - {e};
    }
  }
}
