/** Documents, their chunks, and the search projection rows derived from them. */
module ProjectionModel {
  import opened Wrappers

  datatype DocId = DocId(n: int)
  type ChunkId = int
  type BaseId = int
  /** The content columns a projection carries for a chunk; equal numbers stand for equal columns. */
  type Content = int

  datatype Projection = Search | Keyword | Tin

  /** The document columns a mirroring projection copies. */
  datatype Source = Source(connector: int, acl: int)

  datatype Chunk = Chunk(index: nat, base: BaseId, body: int)

  /** `source` is the mirrored source and ACL; the keyword projection has none. */
  datatype Row = Row(content: Content, source: Option<Source>)

  datatype RowKey = RowKey(projection: Projection, chunk: ChunkId)

  /** A mark's generation; the first is 1. */
  type Generation = g: nat | g >= 1 witness 1

  datatype Mark = Mark(generation: Generation, content: bool)

  datatype Doc = Doc(source: Source, chunks: map<ChunkId, Chunk>, rows: map<RowKey, Row>, mark: Option<Mark>)

  /** What the database computes: projected columns, search-index bases, and whether `tin` is installed. */
  datatype Env = Env(project: (Projection, DocId, ChunkId, Chunk) -> Content, isSearchIndex: BaseId -> bool, tin: bool)

  predicate Mirrors(p: Projection) {
    p != Keyword
  }

  function Projections(env: Env): seq<Projection> {
    if env.tin then [Search, Keyword, Tin] else [Search, Keyword]
  }

  /** The projections one pass over a mark rewrites. */
  function Plan(env: Env, content: bool): seq<Projection> {
    if content then Projections(env)
    else if env.tin then [Search, Tin] else [Search]
  }

  /** Whether a chunk has a row in a projection: Tin keeps only search-index bases. */
  predicate Kept(env: Env, p: Projection, chunk: Chunk) {
    p == Tin ==> env.isSearchIndex(chunk.base)
  }

  /** The row a projection should hold for a chunk. */
  function Expected(env: Env, p: Projection, d: DocId, c: ChunkId, chunk: Chunk, source: Source): Row {
    Row(env.project(p, d, c, chunk), if Mirrors(p) then Some(source) else None)
  }

  // ----- agreement -----

  ghost predicate ContentCurrent(env: Env, d: DocId, doc: Doc, p: Projection, c: ChunkId)
    requires c in doc.chunks
  {
    var key := RowKey(p, c);
    if Kept(env, p, doc.chunks[c]) then key in doc.rows && doc.rows[key].content == env.project(p, d, c, doc.chunks[c])
    else key !in doc.rows
  }

  ghost predicate SourceCurrent(doc: Doc, p: Projection, c: ChunkId) {
    var key := RowKey(p, c);
    key in doc.rows && Mirrors(p) ==> doc.rows[key].source == Some(doc.source)
  }

  /** The row of one chunk agrees with the chunk and with the document's source and ACL. */
  ghost predicate Current(env: Env, d: DocId, doc: Doc, p: Projection, c: ChunkId)
    requires c in doc.chunks
  {
    ContentCurrent(env, d, doc, p, c) && SourceCurrent(doc, p, c)
  }

  ghost predicate AllContentCurrent(env: Env, d: DocId, doc: Doc) {
    forall p, c :: p in Projections(env) && c in doc.chunks ==> ContentCurrent(env, d, doc, p, c)
  }

  /** Search answers from these rows alone: every one is what the document says now. */
  ghost predicate AllCurrent(env: Env, d: DocId, doc: Doc) {
    forall p, c :: p in Projections(env) && c in doc.chunks ==> Current(env, d, doc, p, c)
  }

  /** Chunk indexes are unique, every row belongs to a chunk that exists, and mirroring rows carry a source. */
  ghost predicate Consistent(doc: Doc) {
    && (forall a, b :: a in doc.chunks && b in doc.chunks && doc.chunks[a].index == doc.chunks[b].index ==> a == b)
    && (forall key :: key in doc.rows ==>
          key.chunk in doc.chunks && (doc.rows[key].source.Some? <==> Mirrors(key.projection)))
  }

  /**
   * The protocol's promise about one document: unmarked, its rows are current; marked for source
   * and ACL only, their content is.
   */
  ghost predicate DocOk(env: Env, d: DocId, doc: Doc) {
    && Consistent(doc)
    && (doc.mark.None? ==> AllCurrent(env, d, doc))
    && (doc.mark.Some? && !doc.mark.value.content ==> AllContentCurrent(env, d, doc))
  }

  // ----- pages -----

  /** The next `size` chunks of a document past `after`, in chunk order. */
  ghost predicate IsPage(chunks: map<ChunkId, Chunk>, after: int, size: nat, page: map<ChunkId, Chunk>) {
    && page.Keys <= chunks.Keys && |page| <= size
    && (forall c :: c in page ==> page[c] == chunks[c] && chunks[c].index > after)
    && (forall c, e :: c in page && e in chunks && e !in page && chunks[e].index > after ==> chunks[c].index < chunks[e].index)
    && (|page| < size ==> forall c :: c in chunks && chunks[c].index > after ==> c in page)
  }

  /** The chunks the cursor passes with a page: every later one if it came back short, else those up to its last. */
  ghost predicate Covers(page: map<ChunkId, Chunk>, full: bool, after: int, chunk: Chunk) {
    chunk.index > after && (!full || exists c :: c in page && chunk.index <= page[c].index)
  }

  lemma PageCovers(chunks: map<ChunkId, Chunk>, after: int, size: nat, page: map<ChunkId, Chunk>, c: ChunkId)
    requires IsPage(chunks, after, size, page) && c in chunks && Covers(page, |page| == size, after, chunks[c])
    ensures c in page && page[c] == chunks[c]
  {
  }

  /** The page's last chunk index, as the cursor reads it back. */
  ghost predicate IsLast(page: map<ChunkId, Chunk>, last: int) {
    (exists c :: c in page && page[c].index == last) && forall c :: c in page ==> page[c].index <= last
  }

  ghost function ChunksPast(chunks: map<ChunkId, Chunk>, after: int): set<ChunkId> {
    set c | c in chunks && chunks[c].index > after
  }

  /** The lowest chunk left over extends a page by one. */
  lemma PageGrows(chunks: map<ChunkId, Chunk>, after: int, size: nat, page: map<ChunkId, Chunk>, low: ChunkId)
    requires forall a, b :: a in chunks && b in chunks && chunks[a].index == chunks[b].index ==> a == b
    requires IsPage(chunks, after, size, page) && |page| == size
    requires low in chunks && chunks[low].index > after && low !in page
    requires forall c :: c in chunks && chunks[c].index > after && c !in page ==> chunks[low].index <= chunks[c].index
    ensures IsPage(chunks, after, size + 1, page[low := chunks[low]]) && |page[low := chunks[low]]| == size + 1
  {
  }

  /** Reads the next `size` chunks past `after` in index order, as the page query does. */
  method ReadNextPage(chunks: map<ChunkId, Chunk>, after: int, size: nat) returns (page: map<ChunkId, Chunk>)
    requires forall a, b :: a in chunks && b in chunks && chunks[a].index == chunks[b].index ==> a == b
    ensures IsPage(chunks, after, size, page)
  {
    page := map[];
    var left := set c | c in chunks && chunks[c].index > after;
    while |page| < size && left != {}
      invariant |page| <= size && IsPage(chunks, after, |page|, page)
      invariant left == (set c | c in chunks && chunks[c].index > after) - page.Keys
      decreases left
    {
      var low := Lowest(chunks, left);
      PageGrows(chunks, after, |page|, page, low);
      page := page[low := chunks[low]];
      left := left - {low};
    }
    if |page| < size {
      assert forall c :: c in chunks && chunks[c].index > after && c !in page ==> c in left;
    }
  }

  method Lowest(chunks: map<ChunkId, Chunk>, among: set<ChunkId>) returns (low: ChunkId)
    requires among != {} && among <= chunks.Keys
    ensures low in among && forall c :: c in among ==> chunks[low].index <= chunks[c].index
  {
    low := Pick(among);
    var rest := among - {low};
    while rest != {}
      invariant rest <= among && low in among
      invariant forall c :: c in among && c !in rest ==> chunks[low].index <= chunks[c].index
      decreases rest
    {
      var c := Pick(rest);
      rest := rest - {c};
      if chunks[c].index < chunks[low].index { low := c; }
    }
  }

  /** The page's last chunk index; nothing for an empty page. */
  method LastIndex(page: map<ChunkId, Chunk>) returns (last: Option<int>)
    ensures last.None? <==> page == map[]
    ensures last.Some? ==> IsLast(page, last.value)
  {
    last := None;
    var rest := page.Keys;
    while rest != {}
      invariant rest <= page.Keys
      invariant last.None? ==> rest == page.Keys
      invariant last.Some? ==> (exists c :: c in page && page[c].index == last.value)
      invariant last.Some? ==> forall c :: c in page && c !in rest ==> page[c].index <= last.value
      decreases rest
    {
      var c := Pick(rest);
      rest := rest - {c};
      if last.None? || page[c].index > last.value { last := Some(page[c].index); }
    }
  }

  // ----- what one page statement writes -----

  /** The rows after a content page: each chunk's row is written, or removed where none is kept. */
  function ContentPage(env: Env, d: DocId, p: Projection, page: map<ChunkId, Chunk>, source: Source, rows: map<RowKey, Row>)
    : map<RowKey, Row>
  {
    map key | key in rows.Keys + (set c | c in page :: RowKey(p, c)) &&
              !(key.projection == p && key.chunk in page && !Kept(env, p, page[key.chunk])) ::
      if key.projection == p && key.chunk in page then Expected(env, p, d, key.chunk, page[key.chunk], source)
      else rows[key]
  }

  /** The rows after a source and ACL page: existing rows take the document's source, and nothing else changes. */
  function SourcePage(p: Projection, page: map<ChunkId, Chunk>, source: Source, rows: map<RowKey, Row>): map<RowKey, Row> {
    map key | key in rows ::
      if key.projection == p && key.chunk in page && Mirrors(p) then rows[key].(source := Some(source)) else rows[key]
  }

  function PageRows(env: Env, d: DocId, p: Projection, content: bool, page: map<ChunkId, Chunk>, source: Source,
                    rows: map<RowKey, Row>): map<RowKey, Row>
  {
    if content then ContentPage(env, d, p, page, source, rows) else SourcePage(p, page, source, rows)
  }

  /** A page makes the rows of its chunks current, if it wrote what the document still says. */
  lemma PageMakesCurrent(env: Env, d: DocId, doc: Doc, p: Projection, content: bool, page: map<ChunkId, Chunk>, c: ChunkId)
    requires c in doc.chunks && c in page && page[c] == doc.chunks[c]
    requires content || ContentCurrent(env, d, doc, p, c)
    ensures Current(env, d, doc.(rows := PageRows(env, d, p, content, page, doc.source, doc.rows)), p, c)
  {
    var key := RowKey(p, c);
    assert key in (set e | e in page :: RowKey(p, e));
  }

  /** A page touches no row of another projection or of a chunk outside it. */
  lemma PageLeavesOthers(env: Env, d: DocId, doc: Doc, p: Projection, content: bool, page: map<ChunkId, Chunk>,
                         source: Source, q: Projection, c: ChunkId)
    requires c in doc.chunks && (q != p || c !in page)
    ensures var doc' := doc.(rows := PageRows(env, d, p, content, page, source, doc.rows));
            (ContentCurrent(env, d, doc', q, c) <==> ContentCurrent(env, d, doc, q, c))
            && (SourceCurrent(doc', q, c) <==> SourceCurrent(doc, q, c))
  {
    var key := RowKey(q, c);
    assert key !in (set e | e in page :: RowKey(p, e));
  }

  /** A source and ACL page never disturbs content. */
  lemma SourcePageKeepsContent(env: Env, d: DocId, doc: Doc, p: Projection, page: map<ChunkId, Chunk>, source: Source,
                               q: Projection, c: ChunkId)
    requires c in doc.chunks
    ensures ContentCurrent(env, d, doc.(rows := PageRows(env, d, p, false, page, source, doc.rows)), q, c)
            <==> ContentCurrent(env, d, doc, q, c)
  {
  }

  lemma PageKeepsConsistent(env: Env, d: DocId, doc: Doc, p: Projection, content: bool, page: map<ChunkId, Chunk>, source: Source)
    requires Consistent(doc) && (content ==> page.Keys <= doc.chunks.Keys)
    ensures Consistent(doc.(rows := PageRows(env, d, p, content, page, source, doc.rows)))
  {
  }
}
