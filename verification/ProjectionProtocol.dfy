/**
 * The projection protocol as atomic steps over shared state: writers, projector runs, crashes.
 *
 * A page is two steps, the snapshot its statement reads and the rows it commits, so a writer may
 * commit between them.
 */
module ProjectionProtocol {
  import opened Wrappers
  import opened ProjectionModel

  type RunId = int

  datatype Outcome = Settled | Deferred | Gone

  /** A page statement's snapshot: the chunks it covers, the source and ACL it read, and whether it came back full. */
  datatype Page = Page(chunks: map<ChunkId, Chunk>, source: Source, full: bool)

  datatype Pc =
    | Looping
    | Holding(d: DocId)
    | Projecting(d: DocId, generation: Generation, content: bool, todo: seq<Projection>, after: int, page: Option<Page>)
    | Failed(d: DocId)
    | Releasing(d: DocId, outcome: Outcome)
    | Stopped(remaining: bool)

  datatype Run = Run(skipped: set<DocId>, claimed: seq<DocId>, settled: nat, at: Pc)

  datatype State = State(docs: map<DocId, Doc>, locks: map<DocId, RunId>, runs: map<RunId, Run>)

  const CLAIM_BATCH_SIZE: nat := 50

  datatype Step =
    // writers
    | CreateDoc(d: DocId, source: Source)
    | DeleteDoc(d: DocId)
    | Write(d: DocId, source: Source, chunks: map<ChunkId, Chunk>, rows: map<RowKey, Row>, content: bool)
    | DeleteChunks(d: DocId, gone: set<ChunkId>)
    | Fill(d: DocId)
    // projector runs
    | Start(r: RunId)
    | Claim(r: RunId, claimed: seq<DocId>)
    | Budget(r: RunId)
    | TryLock(r: RunId)
    | ReadMark(r: RunId)
    | ReadPage(r: RunId, size: nat, page: map<ChunkId, Chunk>)
    | WritePage(r: RunId, last: int)
    | Fail(r: RunId)
    | Settle(r: RunId)
    | SettleTimeout(r: RunId)
    | CheckMark(r: RunId)
    | Unlock(r: RunId)
    | Crash(r: RunId)

  // ----- what each step does -----

  function Marked(s: State): set<DocId> {
    set d | d in s.docs && s.docs[d].mark.Some?
  }

  /** A mark a writer leaves: a new one starts at generation 1, an old one gains a generation. */
  function Remark(mark: Option<Mark>, content: bool): Option<Mark> {
    match mark
    case None => Some(Mark(1, content))
    case Some(m) => Some(Mark(m.generation + 1, m.content || content))
  }

  /**
   * A chunk write that did not defer its projection has written the rows of the chunks it
   * changed; only a deferred one may leave them behind, and then it marks content.
   */
  ghost predicate WriteOk(env: Env, d: DocId, doc: Doc, doc': Doc, content: bool) {
    && Consistent(doc')
    && (!content ==> forall p, c :: p in Projections(env) && c in doc'.chunks ==>
          ContentCurrent(env, d, doc', p, c)
          || (c in doc.chunks && doc.chunks[c] == doc'.chunks[c] && SameContent(doc, doc', RowKey(p, c))))
  }

  ghost predicate SameContent(doc: Doc, doc': Doc, key: RowKey) {
    && (key in doc.rows <==> key in doc'.rows)
    && (key in doc.rows ==> doc.rows[key].content == doc'.rows[key].content)
  }

  function Written(doc: Doc, step: Step): Doc
    requires step.Write?
  {
    Doc(step.source, step.chunks, step.rows, Remark(doc.mark, step.content))
  }

  function WithoutChunks(doc: Doc, gone: set<ChunkId>): Doc {
    doc.(chunks := doc.chunks - gone, rows := map key | key in doc.rows && key.chunk !in gone :: doc.rows[key])
  }

  predicate At(s: State, r: RunId) {
    r in s.runs
  }

  /** Moves run `r` to `pc`. */
  function Go(s: State, r: RunId, pc: Pc): State
    requires r in s.runs
  {
    s.(runs := s.runs[r := s.runs[r].(at := pc)])
  }

  function SetDoc(s: State, d: DocId, doc: Doc): State {
    s.(docs := s.docs[d := doc])
  }

  /** The rows a page commits; it fails instead if a chunk it would insert for is gone. */
  predicate PageFits(s: State, pc: Pc)
    requires pc.Projecting? && pc.page.Some?
  {
    pc.content ==> pc.page.value.chunks == map[] || (pc.d in s.docs && pc.page.value.chunks.Keys <= s.docs[pc.d].chunks.Keys)
  }

  /** The document with the page's rows written over it, from the page's own snapshot. */
  function Committed(env: Env, doc: Doc, pc: Pc): Doc
    requires pc.Projecting? && pc.page.Some? && pc.todo != []
  {
    var page := pc.page.value;
    doc.(rows := PageRows(env, pc.d, pc.todo[0], pc.content, page.chunks, page.source, doc.rows))
  }

  function CommitPage(env: Env, s: State, pc: Pc): State
    requires pc.Projecting? && pc.page.Some? && pc.todo != []
  {
    if pc.d !in s.docs then s else SetDoc(s, pc.d, Committed(env, s.docs[pc.d], pc))
  }

  /** The cursor after a page: the projection is finished once a page comes back short. */
  function Advance(pc: Pc, last: int): Pc
    requires pc.Projecting? && pc.page.Some? && pc.todo != []
  {
    if !pc.page.value.full then pc.(todo := pc.todo[1..], after := -1, page := None)
    else pc.(after := last, page := None)
  }

  function AfterOutcome(run: Run, d: DocId, outcome: Outcome): Run {
    var next := run.(claimed := if run.claimed == [] then [] else run.claimed[1..], at := Looping);
    match outcome
    case Settled => next.(settled := run.settled + 1)
    case Deferred => next.(skipped := run.skipped + {d})
    case Gone => next
  }

  ghost predicate Enabled(env: Env, s: State, step: Step) {
    match step
    case CreateDoc(d, _) => d !in s.docs
    case DeleteDoc(d) => d in s.docs
    case Write(d, _, _, _, content) => d in s.docs && WriteOk(env, d, s.docs[d], Written(s.docs[d], step), content)
    case DeleteChunks(d, _) => d in s.docs
    case Fill(d) => d in s.docs
    case Start(r) => r !in s.runs
    case Claim(r, claimed) =>
      && At(s, r) && s.runs[r].at.Looping? && s.runs[r].claimed == []
      && |claimed| <= CLAIM_BATCH_SIZE
      && (forall d :: d in claimed ==> d in Marked(s) - s.runs[r].skipped)
      && (claimed == [] ==> Marked(s) <= s.runs[r].skipped)
    case Budget(r) => At(s, r) && (s.runs[r].at.Looping? || (s.runs[r].at.Projecting? && s.runs[r].at.page.None? && s.runs[r].at.todo != []))
    case TryLock(r) => At(s, r) && s.runs[r].at.Looping? && s.runs[r].claimed != []
    case ReadMark(r) => At(s, r) && s.runs[r].at.Holding?
    case ReadPage(r, size, page) =>
      At(s, r) && var pc := s.runs[r].at;
      && pc.Projecting? && pc.page.None? && pc.todo != [] && size > 0
      && IsPage(if pc.d in s.docs then s.docs[pc.d].chunks else map[], pc.after, size, page)
    case WritePage(r, last) =>
      At(s, r) && var pc := s.runs[r].at;
      && pc.Projecting? && pc.page.Some? && pc.todo != []
      && PageFits(s, pc) && (pc.page.value.full ==> IsLast(pc.page.value.chunks, last))
    case Fail(r) => At(s, r) && s.runs[r].at.Projecting?
    case Settle(r) => At(s, r) && s.runs[r].at.Projecting? && s.runs[r].at.todo == []
    case SettleTimeout(r) => At(s, r) && s.runs[r].at.Projecting? && s.runs[r].at.todo == []
    case CheckMark(r) => At(s, r) && s.runs[r].at.Failed?
    case Unlock(r) => At(s, r) && s.runs[r].at.Releasing?
    case Crash(r) => At(s, r)
  }

  ghost function Next(env: Env, s: State, step: Step): State
    requires Enabled(env, s, step)
  {
    match step
    case CreateDoc(d, source) => SetDoc(s, d, Doc(source, map[], map[], None))
    case DeleteDoc(d) => s.(docs := s.docs - {d})
    case Write(d, _, _, _, _) => SetDoc(s, d, Written(s.docs[d], step))
    case DeleteChunks(d, gone) => SetDoc(s, d, WithoutChunks(s.docs[d], gone))
    case Fill(d) => if s.docs[d].mark.Some? then s else SetDoc(s, d, s.docs[d].(mark := Some(Mark(1, false))))
    case Start(r) => s.(runs := s.runs[r := Run({}, [], 0, Looping)])
    case Claim(r, claimed) =>
      var run := s.runs[r];
      if claimed == [] then Go(s, r, Stopped(run.skipped != {}))
      else s.(runs := s.runs[r := run.(claimed := claimed)])
    case Budget(r) =>
      var pc := s.runs[r].at;
      if pc.Looping? then Go(s, r, Stopped(true)) else Go(s, r, Releasing(pc.d, Deferred))
    case TryLock(r) =>
      var run := s.runs[r];
      var d := run.claimed[0];
      if d in s.locks then s.(runs := s.runs[r := AfterOutcome(run, d, Deferred)])
      else Go(s, r, Holding(d)).(locks := s.locks[d := r])
    case ReadMark(r) =>
      var d := s.runs[r].at.d;
      if d in s.docs && s.docs[d].mark.Some? then
        var mark := s.docs[d].mark.value;
        Go(s, r, Projecting(d, mark.generation, mark.content, Plan(env, mark.content), -1, None))
      else Go(s, r, Releasing(d, Gone))
    case ReadPage(r, size, page) =>
      var pc := s.runs[r].at;
      var source := if pc.d in s.docs then s.docs[pc.d].source else Source(0, 0);
      Go(s, r, pc.(page := Some(Page(page, source, |page| == size))))
    case WritePage(r, last) =>
      var pc := s.runs[r].at;
      Go(CommitPage(env, s, pc), r, Advance(pc, last))
    case Fail(r) => Go(s, r, Failed(s.runs[r].at.d))
    case Settle(r) =>
      var pc := s.runs[r].at;
      if pc.d in s.docs && s.docs[pc.d].mark.Some? then
        if s.docs[pc.d].mark.value.generation == pc.generation then
          Go(SetDoc(s, pc.d, s.docs[pc.d].(mark := None)), r, Releasing(pc.d, Settled))
        else Go(s, r, Releasing(pc.d, Deferred))
      else Go(s, r, Releasing(pc.d, Gone))
    case SettleTimeout(r) => Go(s, r, Releasing(s.runs[r].at.d, Deferred))
    case CheckMark(r) =>
      var d := s.runs[r].at.d;
      Go(s, r, Releasing(d, if d in Marked(s) then Deferred else Gone))
    case Unlock(r) =>
      var run := s.runs[r];
      State(s.docs, s.locks - {run.at.d}, s.runs[r := AfterOutcome(run, run.at.d, run.at.outcome)])
    case Crash(r) =>
      State(s.docs, map d | d in s.locks && s.locks[d] != r :: s.locks[d], s.runs - {r})
  }

  /** A run has read a mark of this document and not yet finished with it. */
  predicate InPass(s: State, d: DocId) {
    exists r :: r in s.runs && s.runs[r].at.Projecting? && s.runs[r].at.d == d
  }

  /** No writer brings a document id back while a run is in a pass over it. */
  predicate NoReuse(s: State, step: Step) {
    step.CreateDoc? ==> !InPass(s, step.d)
  }

  // ----- the invariant -----

  predicate Works(pc: Pc, d: DocId) {
    !pc.Looping? && !pc.Stopped? && pc.d == d
  }

  ghost predicate LocksOk(s: State) {
    && (forall d :: d in s.locks ==> s.locks[d] in s.runs && Works(s.runs[s.locks[d]].at, d))
    && (forall r, d :: r in s.runs && Works(s.runs[r].at, d) ==> d in s.locks && s.locks[d] == r)
  }

  /** The projections of the plan that the pass has finished with. */
  ghost predicate Finished(env: Env, pc: Pc, p: Projection)
    requires pc.Projecting?
  {
    p in Plan(env, pc.content) && p !in pc.todo
  }

  /** The snapshot is of the document as it is, and leaves out no chunk the cursor will pass. */
  ghost predicate SnapshotOk(doc: Doc, pc: Pc)
    requires pc.Projecting? && pc.page.Some?
  {
    var page := pc.page.value;
    && page.source == doc.source
    && (forall c :: c in page.chunks && c in doc.chunks ==> page.chunks[c] == doc.chunks[c])
    && (forall c :: c in doc.chunks && Covers(page.chunks, page.full, pc.after, doc.chunks[c]) ==> c in page.chunks)
  }

  /** While no writer has marked the document again, everything the pass has rewritten is current. */
  ghost predicate Progress(env: Env, doc: Doc, pc: Pc)
    requires pc.Projecting?
  {
    && (forall p, c :: Finished(env, pc, p) && c in doc.chunks ==> Current(env, pc.d, doc, p, c))
    && (pc.todo != [] ==> forall c :: c in doc.chunks && doc.chunks[c].index <= pc.after ==> Current(env, pc.d, doc, pc.todo[0], c))
    && (pc.page.Some? ==> SnapshotOk(doc, pc))
  }

  /** What is left to do is the rest of the plan. */
  ghost predicate OnPlan(env: Env, pc: Pc)
    requires pc.Projecting?
  {
    var plan := Plan(env, pc.content);
    |pc.todo| <= |plan| && forall k :: 0 <= k < |pc.todo| ==> pc.todo[k] == plan[|plan| - |pc.todo| + k]
  }

  ghost predicate PassOk(env: Env, docs: map<DocId, Doc>, pc: Pc)
    requires pc.Projecting?
  {
    && OnPlan(env, pc)
    && (pc.page.Some? && pc.page.value.full ==> pc.page.value.chunks != map[])
    && (pc.d in docs ==>
          && docs[pc.d].mark.Some?
          && docs[pc.d].mark.value.generation >= pc.generation
          && (pc.content ==> docs[pc.d].mark.value.content)
          && (docs[pc.d].mark.value.generation == pc.generation ==>
                docs[pc.d].mark.value.content == pc.content && Progress(env, docs[pc.d], pc)))
  }

  ghost predicate Inv(env: Env, s: State) {
    && (forall d :: d in s.docs ==> DocOk(env, d, s.docs[d]))
    && LocksOk(s)
    && (forall r :: r in s.runs && s.runs[r].at.Projecting? ==> PassOk(env, s.docs, s.runs[r].at))
  }

  ghost predicate Init(env: Env, s: State) {
    s.locks == map[] && s.runs == map[] && forall d :: d in s.docs ==> DocOk(env, d, s.docs[d])
  }

  // ----- writers keep the invariant -----

  lemma WriteKeepsDoc(env: Env, d: DocId, doc: Doc, step: Step)
    requires step.Write? && DocOk(env, d, doc) && WriteOk(env, d, doc, Written(doc, step), step.content)
    ensures DocOk(env, d, Written(doc, step))
  {
    var doc' := Written(doc, step);
    if !doc'.mark.value.content {
      forall p, c | p in Projections(env) && c in doc'.chunks ensures ContentCurrent(env, d, doc', p, c) {
        if !ContentCurrent(env, d, doc', p, c) {
          assert SameContent(doc, doc', RowKey(p, c));
          assert ContentCurrent(env, d, doc, p, c);
        }
      }
    }
  }

  /** A mark that gained a generation holds no pass to anything it had rewritten. */
  lemma RemarkKeepsPass(env: Env, docs: map<DocId, Doc>, pc: Pc, d: DocId, doc': Doc, content: bool)
    requires pc.Projecting? && PassOk(env, docs, pc) && d in docs && doc'.mark == Remark(docs[d].mark, content)
    ensures PassOk(env, docs[d := doc'], pc)
  {
    hide Progress;
  }

  lemma DeleteChunksKeepsDoc(env: Env, d: DocId, doc: Doc, gone: set<ChunkId>)
    requires DocOk(env, d, doc)
    ensures DocOk(env, d, WithoutChunks(doc, gone))
    ensures forall p, c :: c in doc.chunks && c !in gone && Current(env, d, doc, p, c) ==> Current(env, d, WithoutChunks(doc, gone), p, c)
  {
    forall p, c | c in doc.chunks && c !in gone
      ensures ContentCurrent(env, d, WithoutChunks(doc, gone), p, c) <==> ContentCurrent(env, d, doc, p, c)
      ensures SourceCurrent(WithoutChunks(doc, gone), p, c) <==> SourceCurrent(doc, p, c)
    {
      DeleteChunksKeepsRow(env, d, doc, gone, p, c);
    }
    hide ContentCurrent, SourceCurrent;
  }

  lemma DeleteChunksKeepsRow(env: Env, d: DocId, doc: Doc, gone: set<ChunkId>, p: Projection, c: ChunkId)
    requires c in doc.chunks && c !in gone
    ensures ContentCurrent(env, d, WithoutChunks(doc, gone), p, c) <==> ContentCurrent(env, d, doc, p, c)
    ensures SourceCurrent(WithoutChunks(doc, gone), p, c) <==> SourceCurrent(doc, p, c)
  {
  }

  lemma DeleteChunksKeepsPass(env: Env, docs: map<DocId, Doc>, pc: Pc, d: DocId, gone: set<ChunkId>)
    requires pc.Projecting? && PassOk(env, docs, pc) && d in docs && DocOk(env, d, docs[d])
    ensures PassOk(env, docs[d := WithoutChunks(docs[d], gone)], pc)
  {
    DeleteChunksKeepsDoc(env, d, docs[d], gone);
    hide Current, DocOk;
    var doc' := WithoutChunks(docs[d], gone);
    if pc.d == d && docs[d].mark.value.generation == pc.generation {
      assert Progress(env, doc', pc) by {
        assert forall c :: c in doc'.chunks ==> c in docs[d].chunks && c !in gone;
      }
    }
  }

  /** A step that changes one document keeps the invariant if it keeps that document and every pass over it. */
  lemma DocChangeKeeps(env: Env, s: State, d: DocId, doc': Doc)
    requires Inv(env, s) && DocOk(env, d, doc')
    requires forall r :: r in s.runs && s.runs[r].at.Projecting? ==> PassOk(env, s.docs[d := doc'], s.runs[r].at)
    ensures Inv(env, SetDoc(s, d, doc'))
  {
    hide DocOk, PassOk;
  }

  /** An unmarked or unlocked document is under no pass. */
  lemma ElsewhereKeepsPass(env: Env, docs: map<DocId, Doc>, pc: Pc, d: DocId, doc': Doc)
    requires pc.Projecting? && PassOk(env, docs, pc) && pc.d != d
    ensures PassOk(env, docs[d := doc'], pc)
    ensures PassOk(env, docs - {d}, pc)
  {
    hide Progress;
  }

  /** A change to one document keeps the invariant if it keeps the document and whatever pass is over it. */
  lemma WriterKeepsInv(env: Env, s: State, d: DocId, doc': Doc)
    requires Inv(env, s) && DocOk(env, d, doc')
    requires forall r :: r in s.runs && s.runs[r].at.Projecting? && s.runs[r].at.d == d ==>
               PassOk(env, s.docs[d := doc'], s.runs[r].at)
    ensures Inv(env, SetDoc(s, d, doc'))
  {
    hide DocOk, PassOk;
    forall r | r in s.runs && s.runs[r].at.Projecting? ensures PassOk(env, s.docs[d := doc'], s.runs[r].at) {
      if s.runs[r].at.d != d { ElsewhereKeepsPass(env, s.docs, s.runs[r].at, d, doc'); }
    }
    DocChangeKeeps(env, s, d, doc');
  }

  lemma CreateDocKeepsInv(env: Env, s: State, d: DocId, source: Source)
    requires Inv(env, s) && d !in s.docs && !InPass(s, d)
    ensures Inv(env, SetDoc(s, d, Doc(source, map[], map[], None)))
  {
    hide DocOk, PassOk;
    assert DocOk(env, d, Doc(source, map[], map[], None)) by { EmptyDocOk(env, d, source); }
    WriterKeepsInv(env, s, d, Doc(source, map[], map[], None));
  }

  lemma EmptyDocOk(env: Env, d: DocId, source: Source)
    ensures DocOk(env, d, Doc(source, map[], map[], None))
  {
  }

  lemma WriteKeepsInv(env: Env, s: State, d: DocId, step: Step)
    requires Inv(env, s) && step.Write? && d in s.docs && WriteOk(env, d, s.docs[d], Written(s.docs[d], step), step.content)
    ensures Inv(env, SetDoc(s, d, Written(s.docs[d], step)))
  {
    WriteKeepsDoc(env, d, s.docs[d], step);
    hide DocOk, PassOk, WriteOk, LocksOk;
    forall r | r in s.runs && s.runs[r].at.Projecting? && s.runs[r].at.d == d
      ensures PassOk(env, s.docs[d := Written(s.docs[d], step)], s.runs[r].at)
    {
      RemarkKeepsPass(env, s.docs, s.runs[r].at, d, Written(s.docs[d], step), step.content);
    }
    WriterKeepsInv(env, s, d, Written(s.docs[d], step));
  }

  lemma DeleteChunksKeepsInv(env: Env, s: State, d: DocId, gone: set<ChunkId>)
    requires Inv(env, s) && d in s.docs
    ensures Inv(env, SetDoc(s, d, WithoutChunks(s.docs[d], gone)))
  {
    DeleteChunksKeepsDoc(env, d, s.docs[d], gone);
    hide DocOk, PassOk, LocksOk, Current;
    forall r | r in s.runs && s.runs[r].at.Projecting? && s.runs[r].at.d == d
      ensures PassOk(env, s.docs[d := WithoutChunks(s.docs[d], gone)], s.runs[r].at)
    {
      DeleteChunksKeepsPass(env, s.docs, s.runs[r].at, d, gone);
    }
    WriterKeepsInv(env, s, d, WithoutChunks(s.docs[d], gone));
  }

  /** The fill only marks a document that has no mark, and so no pass over it. */
  lemma FillKeepsInv(env: Env, s: State, d: DocId)
    requires Inv(env, s) && d in s.docs && s.docs[d].mark.None?
    ensures Inv(env, SetDoc(s, d, s.docs[d].(mark := Some(Mark(1, false)))))
  {
    AllCurrentIsContentCurrent(env, d, s.docs[d]);
    hide DocOk, Progress, LocksOk;
    WriterKeepsInv(env, s, d, s.docs[d].(mark := Some(Mark(1, false))));
  }

  lemma AllCurrentIsContentCurrent(env: Env, d: DocId, doc: Doc)
    requires DocOk(env, d, doc) && doc.mark.None?
    ensures DocOk(env, d, doc.(mark := Some(Mark(1, false))))
  {
    var doc' := doc.(mark := Some(Mark(1, false)));
    forall p, c | p in Projections(env) && c in doc.chunks ensures ContentCurrent(env, d, doc', p, c) {
      assert Current(env, d, doc, p, c);
    }
  }

  lemma DeleteDocKeepsInv(env: Env, s: State, d: DocId)
    requires Inv(env, s)
    ensures Inv(env, s.(docs := s.docs - {d}))
  {
    hide DocOk;
    forall r | r in s.runs && s.runs[r].at.Projecting? ensures PassOk(env, s.docs - {d}, s.runs[r].at) {
      hide Progress;
      assert PassOk(env, s.docs, s.runs[r].at);
    }
    hide PassOk;
  }

  // ----- runs keep the invariant -----

  /** Moving a run between two places where it works on the same document, or on none, keeps the locks right. */
  lemma GoKeepsLocks(s: State, r: RunId, pc: Pc)
    requires LocksOk(s) && r in s.runs && forall d :: Works(pc, d) <==> Works(s.runs[r].at, d)
    ensures LocksOk(Go(s, r, pc))
  {
  }

  lemma GoKeepsInv(env: Env, s: State, r: RunId, pc: Pc)
    requires Inv(env, s) && r in s.runs && forall d :: Works(pc, d) <==> Works(s.runs[r].at, d)
    requires pc.Projecting? ==> PassOk(env, s.docs, pc)
    ensures Inv(env, Go(s, r, pc))
  {
    GoKeepsLocks(s, r, pc);
    hide DocOk, PassOk, LocksOk;
  }

  lemma PassStarts(env: Env, s: State, d: DocId)
    requires d in s.docs && s.docs[d].mark.Some?
    ensures var mark := s.docs[d].mark.value;
            PassOk(env, s.docs, Projecting(d, mark.generation, mark.content, Plan(env, mark.content), -1, None))
  {
    var plan := Plan(env, s.docs[d].mark.value.content);
    assert plan == plan[|plan| - |plan|..];
  }

  lemma SnapshotIsOk(doc: Doc, pc: Pc, size: nat, page: map<ChunkId, Chunk>)
    requires pc.Projecting? && IsPage(doc.chunks, pc.after, size, page)
    ensures SnapshotOk(doc, pc.(page := Some(Page(page, doc.source, |page| == size))))
  {
    forall c | c in doc.chunks && Covers(page, |page| == size, pc.after, doc.chunks[c]) ensures c in page {
      PageCovers(doc.chunks, pc.after, size, page, c);
    }
  }

  lemma SnapshotKeepsProgress(env: Env, doc: Doc, pc: Pc, page: Page)
    requires pc.Projecting? && pc.page.None? && Progress(env, doc, pc)
    requires SnapshotOk(doc, pc.(page := Some(page)))
    ensures Progress(env, doc, pc.(page := Some(page)))
  {
    hide Current, SnapshotOk, Plan;
    assert forall p :: Finished(env, pc.(page := Some(page)), p) <==> Finished(env, pc, p);
  }

  lemma ReadPageKeepsPass(env: Env, docs: map<DocId, Doc>, pc: Pc, size: nat, page: map<ChunkId, Chunk>, source: Source)
    requires pc.Projecting? && pc.page.None? && PassOk(env, docs, pc) && size > 0
    requires pc.d in docs ==> IsPage(docs[pc.d].chunks, pc.after, size, page) && source == docs[pc.d].source
    ensures PassOk(env, docs, pc.(page := Some(Page(page, source, |page| == size))))
  {
    var pc' := pc.(page := Some(Page(page, source, |page| == size)));
    hide IsPage, Progress, Plan, SnapshotOk;
    assert page == map[] ==> |page| == 0;
    if pc.d in docs && docs[pc.d].mark.value.generation == pc.generation {
      SnapshotIsOk(docs[pc.d], pc, size, page);
      SnapshotKeepsProgress(env, docs[pc.d], pc, pc'.page.value);
    }
  }

  lemma ReadMarkKeepsInv(env: Env, s: State, step: Step)
    requires Inv(env, s) && Enabled(env, s, step) && step.ReadMark?
    ensures Inv(env, Next(env, s, step))
  {
    var r := step.r;
    var d := s.runs[r].at.d;
    hide PassOk, Inv, Plan;
    if d in s.docs && s.docs[d].mark.Some? {
      var mark := s.docs[d].mark.value;
      PassStarts(env, s, d);
      GoKeepsInv(env, s, r, Projecting(d, mark.generation, mark.content, Plan(env, mark.content), -1, None));
    } else {
      GoKeepsInv(env, s, r, Releasing(d, Gone));
    }
  }

  lemma ReadPageKeepsInv(env: Env, s: State, r: RunId, pc: Pc, size: nat, page: map<ChunkId, Chunk>, source: Source)
    requires Inv(env, s) && r in s.runs && pc == s.runs[r].at && pc.Projecting? && pc.page.None? && size > 0
    requires pc.d in s.docs ==> IsPage(s.docs[pc.d].chunks, pc.after, size, page) && source == s.docs[pc.d].source
    ensures Inv(env, Go(s, r, pc.(page := Some(Page(page, source, |page| == size)))))
  {
    assert PassOk(env, s.docs, pc);
    hide PassOk, IsPage, Inv;
    ReadPageKeepsPass(env, s.docs, pc, size, page, source);
    GoKeepsInv(env, s, r, pc.(page := Some(Page(page, source, |page| == size))));
  }

  lemma SimpleRunStepKeepsInv(env: Env, s: State, step: Step)
    requires Inv(env, s) && Enabled(env, s, step)
    requires step.Fail? || step.SettleTimeout? || step.CheckMark? || step.Budget?
    ensures Inv(env, Next(env, s, step))
  {
    hide PassOk, Inv;
    GoKeepsInv(env, s, step.r, Next(env, s, step).runs[step.r].at);
  }

  /** A run that works on nothing, before and after, can change everything else about itself. */
  lemma IdleRunKeepsInv(env: Env, s: State, r: RunId, run: Run)
    requires Inv(env, s) && (r in s.runs ==> s.runs[r].at.Looping?) && (run.at.Looping? || run.at.Stopped?)
    ensures Inv(env, s.(runs := s.runs[r := run]))
  {
    hide DocOk, PassOk;
    var s' := s.(runs := s.runs[r := run]);
    assert forall d :: !Works(run.at, d);
    forall d | d in s'.locks ensures s'.locks[d] in s'.runs && Works(s'.runs[s'.locks[d]].at, d) {
      assert s.locks[d] in s.runs && Works(s.runs[s.locks[d]].at, d);
    }
  }

  lemma LockKeepsInv(env: Env, s: State, r: RunId, d: DocId)
    requires Inv(env, s) && r in s.runs && s.runs[r].at.Looping? && d !in s.locks
    ensures Inv(env, Go(s, r, Holding(d)).(locks := s.locks[d := r]))
  {
    hide DocOk, PassOk;
    var s' := Go(s, r, Holding(d)).(locks := s.locks[d := r]);
    forall e | e in s'.locks ensures s'.locks[e] in s'.runs && Works(s'.runs[s'.locks[e]].at, e) {
      if e != d { assert s.locks[e] in s.runs && Works(s.runs[s.locks[e]].at, e); }
    }
    forall q, e | q in s'.runs && Works(s'.runs[q].at, e) ensures e in s'.locks && s'.locks[e] == q {
      if q != r { assert Works(s.runs[q].at, e); }
    }
  }

  lemma UnlockKeepsInv(env: Env, s: State, r: RunId, run: Run)
    requires Inv(env, s) && r in s.runs && s.runs[r].at.Releasing? && run.at.Looping?
    ensures Inv(env, State(s.docs, s.locks - {s.runs[r].at.d}, s.runs[r := run]))
  {
    hide DocOk, PassOk;
    var d := s.runs[r].at.d;
    var s' := State(s.docs, s.locks - {d}, s.runs[r := run]);
    assert Works(s.runs[r].at, d);
    forall e | e in s'.locks ensures s'.locks[e] in s'.runs && Works(s'.runs[s'.locks[e]].at, e) {
      assert s.locks[e] in s.runs && Works(s.runs[s.locks[e]].at, e);
    }
    forall q, e | q in s'.runs && Works(s'.runs[q].at, e) ensures e in s'.locks && s'.locks[e] == q {
      assert q != r && Works(s.runs[q].at, e) && s.locks[e] == q && s.locks[d] == r;
    }
  }

  /** A run that dies gives up its locks and leaves every mark in place. */
  lemma CrashKeepsInv(env: Env, s: State, r: RunId)
    requires Inv(env, s) && r in s.runs
    ensures Inv(env, State(s.docs, map d | d in s.locks && s.locks[d] != r :: s.locks[d], s.runs - {r}))
  {
    hide DocOk, PassOk;
    var s' := State(s.docs, map d | d in s.locks && s.locks[d] != r :: s.locks[d], s.runs - {r});
    forall q, e | q in s'.runs && Works(s'.runs[q].at, e) ensures e in s'.locks && s'.locks[e] == q {
      assert Works(s.runs[q].at, e);
    }
  }

  // ----- a page commits -----

  lemma CommitKeepsDoc(env: Env, docs: map<DocId, Doc>, pc: Pc)
    requires pc.Projecting? && pc.page.Some? && pc.todo != [] && pc.d in docs
    requires PassOk(env, docs, pc) && DocOk(env, pc.d, docs[pc.d])
    requires pc.content ==> pc.page.value.chunks.Keys <= docs[pc.d].chunks.Keys
    ensures DocOk(env, pc.d, Committed(env, docs[pc.d], pc))
  {
    var doc, page := docs[pc.d], pc.page.value;
    var rows := PageRows(env, pc.d, pc.todo[0], pc.content, page.chunks, page.source, doc.rows);
    var doc' := doc.(rows := rows);
    PageKeepsConsistent(env, pc.d, doc, pc.todo[0], pc.content, page.chunks, page.source);
    hide PageRows, Progress;
    if !doc.mark.value.content {
      forall p, c | p in Projections(env) && c in doc'.chunks ensures ContentCurrent(env, pc.d, doc', p, c) {
        SourcePageKeepsContent(env, pc.d, doc, pc.todo[0], page.chunks, page.source, p, c);
      }
    }
  }

  lemma PlanIsDistinct(env: Env, content: bool, k: nat)
    requires k < |Plan(env, content)|
    ensures forall j :: k < j < |Plan(env, content)| ==> Plan(env, content)[j] != Plan(env, content)[k]
    ensures forall p :: p in Plan(env, content) ==> p in Projections(env)
  {
  }

  /** After the commit, the page's chunks are current, and so is whatever was before. */
  lemma CommitMakesCurrent(env: Env, doc: Doc, pc: Pc, p: Projection, c: ChunkId)
    requires pc.Projecting? && pc.page.Some? && pc.todo != [] && SnapshotOk(doc, pc)
    requires !pc.content ==> AllContentCurrent(env, pc.d, doc)
    requires c in doc.chunks && pc.todo[0] in Projections(env)
    requires (p == pc.todo[0] && c in pc.page.value.chunks) || Current(env, pc.d, doc, p, c)
    ensures Current(env, pc.d, Committed(env, doc, pc), p, c)
  {
    var page, p0 := pc.page.value, pc.todo[0];
    if p == p0 && c in page.chunks {
      PageMakesCurrent(env, pc.d, doc, p0, pc.content, page.chunks, c);
    } else {
      hide PageRows;
      PageLeavesOthers(env, pc.d, doc, p0, pc.content, page.chunks, page.source, p, c);
    }
  }

  /** The cursor only passes chunks of the snapshot. */
  lemma CursorPassesPage(doc: Doc, pc: Pc, last: int, c: ChunkId)
    requires pc.Projecting? && pc.page.Some? && pc.todo != [] && SnapshotOk(doc, pc)
    requires pc.page.value.full ==> IsLast(pc.page.value.chunks, last)
    requires c in doc.chunks && doc.chunks[c].index > pc.after && (pc.page.value.full ==> doc.chunks[c].index <= last)
    ensures c in pc.page.value.chunks
  {
    var page := pc.page.value;
    if page.full {
      var e :| e in page.chunks && page.chunks[e].index == last;
    }
    assert Covers(page.chunks, page.full, pc.after, doc.chunks[c]);
  }

  lemma HeadAndRest<T>(s: seq<T>, x: T)
    requires s != []
    ensures x in s <==> x == s[0] || x in s[1..]
  {
    assert s == [s[0]] + s[1..];
  }

  lemma AdvanceOnPlan(env: Env, pc: Pc, last: int)
    requires pc.Projecting? && pc.page.Some? && pc.todo != [] && OnPlan(env, pc)
    ensures pc.todo[0] in Plan(env, pc.content) && pc.todo[0] in Projections(env) && pc.todo[0] !in pc.todo[1..]
    ensures OnPlan(env, Advance(pc, last))
  {
    var plan := Plan(env, pc.content);
    var k := |plan| - |pc.todo|;
    PlanIsDistinct(env, pc.content, k);
    hide Plan;
    assert pc.todo[0] == plan[k + 0];
    forall j | 0 <= j < |pc.todo| - 1 ensures pc.todo[1..][j] == plan[k + 1 + j] && pc.todo[1..][j] != pc.todo[0] {
      assert pc.todo[j + 1] == plan[k + (j + 1)];
    }
  }

  lemma AdvanceFinishes(env: Env, pc: Pc, last: int, p: Projection)
    requires pc.Projecting? && pc.page.Some? && pc.todo != [] && OnPlan(env, pc)
    ensures Finished(env, Advance(pc, last), p) <==> Finished(env, pc, p) || (!pc.page.value.full && p == pc.todo[0])
  {
    AdvanceOnPlan(env, pc, last);
    HeadAndRest(pc.todo, p);
    hide Plan, Projections, OnPlan;
  }

  lemma CommitProgresses(env: Env, doc: Doc, pc: Pc, last: int)
    requires pc.Projecting? && pc.page.Some? && pc.todo != [] && Progress(env, doc, pc) && OnPlan(env, pc)
    requires !pc.content ==> AllContentCurrent(env, pc.d, doc)
    requires pc.page.value.full ==> IsLast(pc.page.value.chunks, last)
    ensures Progress(env, Committed(env, doc, pc), Advance(pc, last))
  {
    hide Current, PageRows, AllContentCurrent, OnPlan, Covers, IsLast, Finished;
    var page, p0 := pc.page.value, pc.todo[0];
    var doc' := doc.(rows := PageRows(env, pc.d, p0, pc.content, page.chunks, page.source, doc.rows));
    var pc' := Advance(pc, last);
    AdvanceOnPlan(env, pc, last);
    forall p ensures Finished(env, pc', p) <==> Finished(env, pc, p) || (!page.full && p == p0) {
      AdvanceFinishes(env, pc, last, p);
    }
    forall c | c in doc.chunks && (page.full ==> doc.chunks[c].index <= last) ensures Current(env, pc.d, doc', p0, c) {
      if doc.chunks[c].index > pc.after { CursorPassesPage(doc, pc, last, c); }
      CommitMakesCurrent(env, doc, pc, p0, c);
    }
    forall p, c | Finished(env, pc, p) && c in doc.chunks ensures Current(env, pc.d, doc', p, c) {
      CommitMakesCurrent(env, doc, pc, p, c);
    }
  }

  /** A run that changes the document it holds keeps the invariant if it keeps that document and its own pass. */
  lemma HolderChangeKeepsInv(env: Env, s: State, r: RunId, d: DocId, doc': Doc, pc: Pc)
    requires Inv(env, s) && r in s.runs && Works(s.runs[r].at, d) && Works(pc, d) && DocOk(env, d, doc')
    requires pc.Projecting? ==> PassOk(env, s.docs[d := doc'], pc)
    ensures Inv(env, Go(SetDoc(s, d, doc'), r, pc))
  {
    hide DocOk, PassOk;
    assert s.locks[d] == r;
    forall q | q in s.runs && q != r && s.runs[q].at.Projecting? ensures PassOk(env, s.docs[d := doc'], s.runs[q].at) {
      assert Works(s.runs[q].at, s.runs[q].at.d) && s.locks[s.runs[q].at.d] == q;
      ElsewhereKeepsPass(env, s.docs, s.runs[q].at, d, doc');
    }
    GoKeepsLocks(s, r, pc);
  }

  lemma WritePageKeepsInv(env: Env, s: State, r: RunId, pc: Pc, last: int)
    requires Inv(env, s) && r in s.runs && pc == s.runs[r].at && pc.Projecting? && pc.page.Some? && pc.todo != []
    requires PageFits(s, pc) && (pc.page.value.full ==> IsLast(pc.page.value.chunks, last))
    ensures Inv(env, Go(CommitPage(env, s, pc), r, Advance(pc, last)))
  {
    hide *;
    HeldPassOk(env, s, r);
    AdvanceWorks(pc, last);
    CommitChangesDoc(env, s, pc);
    WritePagePass(env, s.docs, pc, last);
    if pc.d in s.docs {
      EmptyPageFits(s, pc);
      CommitKeepsDoc(env, s.docs, pc);
      HolderChangeKeepsInv(env, s, r, pc.d, Committed(env, s.docs[pc.d], pc), Advance(pc, last));
    } else {
      GoKeepsInv(env, s, r, Advance(pc, last));
    }
  }

  lemma AdvanceWorks(pc: Pc, last: int)
    requires pc.Projecting? && pc.page.Some? && pc.todo != []
    ensures Advance(pc, last).Projecting? && Works(pc, pc.d) && Works(Advance(pc, last), pc.d)
    ensures forall d :: Works(Advance(pc, last), d) <==> Works(pc, d)
  {
  }

  lemma CommitChangesDoc(env: Env, s: State, pc: Pc)
    requires pc.Projecting? && pc.page.Some? && pc.todo != []
    ensures CommitPage(env, s, pc) == if pc.d in s.docs then SetDoc(s, pc.d, Committed(env, s.docs[pc.d], pc)) else s
    ensures CommitPage(env, s, pc).runs == s.runs
  {
    hide Committed;
  }

  lemma HeldPassOk(env: Env, s: State, r: RunId)
    requires Inv(env, s) && r in s.runs && s.runs[r].at.Projecting?
    ensures PassOk(env, s.docs, s.runs[r].at)
    ensures s.runs[r].at.d in s.docs ==> DocOk(env, s.runs[r].at.d, s.docs[s.runs[r].at.d])
  {
  }

  lemma EmptyPageFits(s: State, pc: Pc)
    requires pc.Projecting? && pc.page.Some? && PageFits(s, pc) && pc.d in s.docs
    ensures pc.content ==> pc.page.value.chunks.Keys <= s.docs[pc.d].chunks.Keys
  {
  }

  /** The committing pass itself stays within what its mark promises. */
  lemma WritePagePass(env: Env, docs: map<DocId, Doc>, pc: Pc, last: int)
    requires pc.Projecting? && pc.page.Some? && pc.todo != [] && PassOk(env, docs, pc)
    requires pc.page.value.full ==> IsLast(pc.page.value.chunks, last)
    requires pc.d in docs ==> DocOk(env, pc.d, docs[pc.d])
    ensures pc.d !in docs ==> PassOk(env, docs, Advance(pc, last))
    ensures pc.d in docs ==> PassOk(env, docs[pc.d := Committed(env, docs[pc.d], pc)], Advance(pc, last))
  {
    AdvanceOnPlan(env, pc, last);
    hide PageRows, Progress, OnPlan;
    if pc.d in docs && docs[pc.d].mark.value.generation == pc.generation {
      CommitProgresses(env, docs[pc.d], pc, last);
    }
  }

  /** A finished pass whose mark was not bumped has made every row current. */
  lemma FinishedPassIsCurrent(env: Env, doc: Doc, pc: Pc)
    requires pc.Projecting? && pc.todo == [] && Progress(env, doc, pc)
    requires !pc.content ==> AllContentCurrent(env, pc.d, doc) && Consistent(doc)
    ensures AllCurrent(env, pc.d, doc)
  {
    forall p, c | p in Projections(env) && c in doc.chunks ensures Current(env, pc.d, doc, p, c) {
      if p in Plan(env, pc.content) {
        assert Finished(env, pc, p);
      } else {
        assert p == Keyword && !pc.content;
      }
    }
  }

  lemma SettleKeepsInv(env: Env, s: State, step: Step)
    requires Inv(env, s) && Enabled(env, s, step) && step.Settle?
    ensures Inv(env, Next(env, s, step))
  {
    var r := step.r;
    var pc := s.runs[r].at;
    assert PassOk(env, s.docs, pc);
    if pc.d in s.docs && s.docs[pc.d].mark.Some? && s.docs[pc.d].mark.value.generation == pc.generation {
      var doc := s.docs[pc.d];
      var doc' := doc.(mark := None);
      FinishedPassIsCurrent(env, doc, pc);
      UnmarkKeepsCurrent(env, pc.d, doc);
      hide PassOk, Inv, DocOk, AllCurrent;
      HolderChangeKeepsInv(env, s, r, pc.d, doc', Releasing(pc.d, Settled));
    } else {
      hide PassOk, Inv;
      GoKeepsInv(env, s, r, Next(env, s, step).runs[r].at);
    }
  }

  lemma UnmarkKeepsCurrent(env: Env, d: DocId, doc: Doc)
    requires DocOk(env, d, doc) && AllCurrent(env, d, doc)
    ensures DocOk(env, d, doc.(mark := None))
  {
    var doc' := doc.(mark := None);
    forall p, c | p in Projections(env) && c in doc'.chunks ensures Current(env, d, doc', p, c) {
      assert Current(env, d, doc, p, c);
    }
  }

  // ----- safety over whole runs -----

  /** Every step of every writer and run keeps the invariant, as long as no held document id is reused. */
  lemma StepKeepsInv(env: Env, s: State, step: Step)
    requires Inv(env, s) && Enabled(env, s, step) && NoReuse(s, step)
    ensures Inv(env, Next(env, s, step))
  {
    match step
    case CreateDoc(d, source) =>
      hide Inv;
      CreateDocKeepsInv(env, s, d, source);
    case Write(d, _, _, _, _) =>
      hide Inv, WriteOk;
      WriteKeepsInv(env, s, d, step);
    case DeleteChunks(d, gone) =>
      hide Inv;
      DeleteChunksKeepsInv(env, s, d, gone);
    case Fill(d) =>
      hide Inv;
      if s.docs[d].mark.None? { FillKeepsInv(env, s, d); }
    case DeleteDoc(d) =>
      hide Inv;
      DeleteDocKeepsInv(env, s, d);
    case Start(r) => IdleRunKeepsInvStart(env, s, r);
    case Claim(r, claimed) =>
      hide Inv;
      IdleRunKeepsInv(env, s, r, Next(env, s, step).runs[r]);
    case TryLock(r) =>
      hide Inv;
      var d := s.runs[r].claimed[0];
      if d in s.locks { IdleRunKeepsInv(env, s, r, Next(env, s, step).runs[r]); } else { LockKeepsInv(env, s, r, d); }
    case ReadMark(_) => ReadMarkKeepsInv(env, s, step);
    case ReadPage(r, size, page) =>
      hide Inv, IsPage;
      var pc := s.runs[r].at;
      ReadPageKeepsInv(env, s, r, pc, size, page, if pc.d in s.docs then s.docs[pc.d].source else Source(0, 0));
    case WritePage(r, last) =>
      hide Inv, IsLast, PageRows;
      WritePageKeepsInv(env, s, r, s.runs[r].at, last);
    case Settle(_) => SettleKeepsInv(env, s, step);
    case Unlock(r) =>
      hide Inv;
      UnlockKeepsInv(env, s, r, Next(env, s, step).runs[r]);
    case Crash(r) =>
      hide Inv;
      CrashKeepsInv(env, s, r);
    case Budget(_) => SimpleRunStepKeepsInv(env, s, step);
    case Fail(_) => SimpleRunStepKeepsInv(env, s, step);
    case SettleTimeout(_) => SimpleRunStepKeepsInv(env, s, step);
    case CheckMark(_) => SimpleRunStepKeepsInv(env, s, step);
  }

  lemma IdleRunKeepsInvStart(env: Env, s: State, r: RunId)
    requires Inv(env, s) && r !in s.runs
    ensures Inv(env, s.(runs := s.runs[r := Run({}, [], 0, Looping)]))
  {
    hide Inv;
    IdleRunKeepsInv(env, s, r, Run({}, [], 0, Looping));
  }

  /** A run of the whole system: states linked by steps, none of which reuses a held document id. */
  ghost predicate Trace(env: Env, states: seq<State>, steps: seq<Step>) {
    && |states| == |steps| + 1 && Init(env, states[0])
    && forall k :: 0 <= k < |steps| ==>
         Enabled(env, states[k], steps[k]) && NoReuse(states[k], steps[k]) && states[k + 1] == Next(env, states[k], steps[k])
  }

  lemma {:induction false} TraceKeepsInv(env: Env, states: seq<State>, steps: seq<Step>, k: nat)
    requires Trace(env, states, steps) && k < |states|
    ensures Inv(env, states[k])
  {
    if k > 0 {
      TraceKeepsInv(env, states, steps, k - 1);
      StepKeepsInv(env, states[k - 1], steps[k - 1]);
    }
  }

  /** No write is lost: at every moment of every run, the rows of an unmarked document are current. */
  lemma NoWriteIsLost(env: Env, states: seq<State>, steps: seq<Step>, k: nat, d: DocId)
    requires Trace(env, states, steps) && k < |states| && d in states[k].docs && states[k].docs[d].mark.None?
    ensures AllCurrent(env, d, states[k].docs[d])
  {
    TraceKeepsInv(env, states, steps, k);
  }

  // ----- what settling says of a pass -----

  /** The document is there under the mark the run's pass read. */
  ghost predicate Fresh(s: State, r: RunId) {
    && r in s.runs && s.runs[r].at.Projecting? && s.runs[r].at.d in s.docs
    && var mark := s.docs[s.runs[r].at.d].mark;
       mark.Some? && mark.value.generation == s.runs[r].at.generation
  }

  /** The document is gone, or marked again since the run's pass read its mark. */
  ghost predicate Outdated(s: State, r: RunId) {
    && r in s.runs && s.runs[r].at.Projecting?
    && (s.runs[r].at.d in s.docs ==>
          var mark := s.docs[s.runs[r].at.d].mark;
          mark.Some? && mark.value.generation > s.runs[r].at.generation)
  }

  /** A writer's step that marks the document or removes it. */
  predicate Touches(step: Step, d: DocId) {
    (step.Write? || step.DeleteDoc?) && step.d == d
  }

  /** Run `r` stays in its pass over `d` through states `j` to `k`. */
  predicate InPassFrom(states: seq<State>, j: nat, k: nat, r: RunId, d: DocId)
    requires k < |states|
  {
    forall i :: j <= i <= k ==> r in states[i].runs && states[i].runs[r].at.Projecting? && states[i].runs[r].at.d == d
  }

  predicate TouchedIn(steps: seq<Step>, j: nat, k: nat, d: DocId)
    requires k <= |steps|
  {
    exists i :: j <= i < k && Touches(steps[i], d)
  }

  predicate SettlesOn(s: State, step: Step, d: DocId) {
    step.Settle? && step.r in s.runs && s.runs[step.r].at.Projecting? && s.runs[step.r].at.d == d
  }

  /** A mark lasts until its document is written or deleted or a pass over it settles. */
  lemma MarkStep(env: Env, s: State, step: Step, d: DocId)
    requires Enabled(env, s, step) && d in s.docs && s.docs[d].mark.Some?
    requires !Touches(step, d) && !SettlesOn(s, step, d)
    ensures d in Next(env, s, step).docs && Next(env, s, step).docs[d].mark == s.docs[d].mark
  {
    hide IsPage, IsLast, WriteOk, PageRows, Plan;
  }

  /** A document that is gone stays gone until it is created. */
  lemma GoneStep(env: Env, s: State, step: Step, d: DocId)
    requires Enabled(env, s, step) && d !in s.docs && !(step.CreateDoc? && step.d == d)
    ensures d !in Next(env, s, step).docs
  {
    hide IsPage, IsLast, WriteOk, PageRows, Plan;
  }

  /** A pass keeps the generation it read. */
  lemma PassStep(env: Env, s: State, step: Step, r: RunId, d: DocId)
    requires Enabled(env, s, step) && r in s.runs && s.runs[r].at.Projecting? && s.runs[r].at.d == d
    requires r in Next(env, s, step).runs && Next(env, s, step).runs[r].at.Projecting? && Next(env, s, step).runs[r].at.d == d
    ensures Next(env, s, step).runs[r].at.generation == s.runs[r].at.generation
    ensures !(step.Settle? && step.r == r)
  {
    hide IsPage, IsLast, WriteOk, PageRows, Plan;
  }

  lemma TouchStep(env: Env, s: State, step: Step, d: DocId)
    requires Enabled(env, s, step) && Touches(step, d)
    ensures d in Next(env, s, step).docs ==>
              d in s.docs && Next(env, s, step).docs[d].mark.Some?
              && (s.docs[d].mark.Some? ==> Next(env, s, step).docs[d].mark.value.generation > s.docs[d].mark.value.generation)
  {
  }

  lemma OnlyItsRunSettles(env: Env, s: State, step: Step, r: RunId, d: DocId)
    requires Inv(env, s) && Enabled(env, s, step) && r in s.runs && s.runs[r].at.Projecting? && s.runs[r].at.d == d
    requires SettlesOn(s, step, d)
    ensures step.r == r
  {
    assert s.locks[d] == r;
  }

  lemma InPassIsMarked(env: Env, s: State, r: RunId)
    requires Inv(env, s) && r in s.runs && s.runs[r].at.Projecting?
    ensures s.runs[r].at.d in s.docs ==>
              s.docs[s.runs[r].at.d].mark.Some? && s.docs[s.runs[r].at.d].mark.value.generation >= s.runs[r].at.generation
    ensures InPass(s, s.runs[r].at.d)
  {
    assert PassOk(env, s.docs, s.runs[r].at);
  }

  /** Within a pass, only a writer of its document makes its mark another. */
  lemma FreshStep(env: Env, s: State, step: Step, r: RunId, d: DocId)
    requires Inv(env, s) && Enabled(env, s, step) && NoReuse(s, step)
    requires r in s.runs && s.runs[r].at.Projecting? && s.runs[r].at.d == d
    requires var t := Next(env, s, step); r in t.runs && t.runs[r].at.Projecting? && t.runs[r].at.d == d
    ensures Touches(step, d) || Outdated(s, r) ==> Outdated(Next(env, s, step), r)
    ensures !Touches(step, d) && Fresh(s, r) ==> Fresh(Next(env, s, step), r)
  {
    hide Inv, Enabled, Next, InPass;
    InPassIsMarked(env, s, r);
    PassStep(env, s, step, r, d);
    if SettlesOn(s, step, d) {
      OnlyItsRunSettles(env, s, step, r, d);
    } else if Touches(step, d) {
      TouchStep(env, s, step, d);
    } else if d in s.docs {
      MarkStep(env, s, step, d);
    } else {
      GoneStep(env, s, step, d);
    }
  }

  /** A pass still has the mark it read exactly when nobody has written or deleted its document since. */
  lemma {:induction false} FreshExactlyWhenUntouched(env: Env, states: seq<State>, steps: seq<Step>, j: nat, k: nat, r: RunId, d: DocId)
    requires Trace(env, states, steps) && j < k < |states|
    requires steps[j] == ReadMark(r) && InPassFrom(states, j + 1, k, r, d)
    ensures if TouchedIn(steps, j + 1, k, d) then Outdated(states[k], r) else Fresh(states[k], r)
    decreases k
  {
    hide Enabled, Next, NoReuse, Inv, Init;
    if k == j + 1 {
      assert states[j + 1] == Next(env, states[j], steps[j]);
      ReadMarkIsFresh(env, states[j], steps[j], r);
      assert !TouchedIn(steps, j + 1, k, d);
    } else {
      var s, step := states[k - 1], steps[k - 1];
      assert states[k - 1 + 1] == Next(env, s, step);
      FreshExactlyWhenUntouched(env, states, steps, j, k - 1, r, d);
      TraceKeepsInv(env, states, steps, k - 1);
      FreshStep(env, s, step, r, d);
      assert TouchedIn(steps, j + 1, k, d) <==> TouchedIn(steps, j + 1, k - 1, d) || Touches(step, d);
    }
  }

  lemma ReadMarkIsFresh(env: Env, s: State, step: Step, r: RunId)
    requires step == ReadMark(r) && Enabled(env, s, step)
    requires r in Next(env, s, step).runs && Next(env, s, step).runs[r].at.Projecting?
    ensures Fresh(Next(env, s, step), r)
  {
  }

  lemma SettleStep(env: Env, s: State, step: Step, r: RunId, d: DocId)
    requires step == Settle(r) && Enabled(env, s, step) && s.runs[r].at.d == d
    ensures r in Next(env, s, step).runs
    ensures Fresh(s, r) ==>
              var t := Next(env, s, step);
              t.runs[r].at == Releasing(d, Settled) && d in t.docs && t.docs[d].mark.None?
    ensures Outdated(s, r) ==>
              var t := Next(env, s, step);
              t.docs == s.docs && t.runs[r].at == Releasing(d, if d in s.docs then Deferred else Gone)
  {
  }

  /**
   * A pass takes its mark away exactly when nobody wrote or deleted the document since the pass read it, and then
   * every row is current; otherwise a document that still exists keeps its mark.
   */
  lemma SettlesExactlyWhenUntouched(env: Env, states: seq<State>, steps: seq<Step>, j: nat, k: nat, r: RunId, d: DocId)
    requires Trace(env, states, steps) && j < k < |steps|
    requires steps[j] == ReadMark(r) && InPassFrom(states, j + 1, k, r, d) && steps[k] == Settle(r)
    ensures r in states[k + 1].runs
    ensures states[k + 1].runs[r].at == Releasing(d, Settled) <==> !TouchedIn(steps, j + 1, k, d)
    ensures !TouchedIn(steps, j + 1, k, d) ==>
              d in states[k + 1].docs && states[k + 1].docs[d].mark.None? && AllCurrent(env, d, states[k + 1].docs[d])
    ensures TouchedIn(steps, j + 1, k, d) && d in states[k + 1].docs ==> states[k + 1].docs[d].mark.Some?
  {
    hide Enabled, Next, NoReuse, Inv, AllCurrent, TouchedIn, Init;
    FreshExactlyWhenUntouched(env, states, steps, j, k, r, d);
    assert states[k + 1] == Next(env, states[k], steps[k]);
    SettleStep(env, states[k], steps[k], r, d);
    if !TouchedIn(steps, j + 1, k, d) {
      NoWriteIsLost(env, states, steps, k + 1, d);
    }
  }

  /** No two runs ever project one document at once. */
  lemma OneRunPerDocument(env: Env, states: seq<State>, steps: seq<Step>, k: nat, q: RunId, r: RunId, d: DocId)
    requires Trace(env, states, steps) && k < |states| && q in states[k].runs && r in states[k].runs
    requires Works(states[k].runs[q].at, d) && Works(states[k].runs[r].at, d)
    ensures q == r
  {
    TraceKeepsInv(env, states, steps, k);
    assert states[k].locks[d] == q;
  }

  ghost predicate ReturnedClean(s: State, r: RunId) {
    r in s.runs && s.runs[r].at == Stopped(false)
  }

  /** Only an empty claim, by a run that passed nothing over, returns with nothing remaining. */
  lemma CleanReturnStep(env: Env, s: State, step: Step, r: RunId)
    requires Enabled(env, s, step) && ReturnedClean(Next(env, s, step), r)
    ensures ReturnedClean(s, r) || (step == Claim(r, []) && Marked(s) == {})
  {
    hide IsPage, IsLast, WriteOk, PageRows;
  }

  /** A run that returns with nothing remaining saw the mark table empty at its last claim. */
  lemma {:induction false} CleanReturnSawNoMarks(env: Env, states: seq<State>, steps: seq<Step>, k: nat, r: RunId)
    returns (j: nat)
    requires Trace(env, states, steps) && k < |states| && ReturnedClean(states[k], r)
    ensures j < k && steps[j] == Claim(r, []) && Marked(states[j]) == {}
    ensures forall i :: j < i <= k ==> ReturnedClean(states[i], r)
  {
    hide Enabled, Next, Marked, NoReuse;
    assert states[0].runs == map[];
    var s, step := states[k - 1], steps[k - 1];
    assert states[k - 1 + 1] == Next(env, s, step);
    CleanReturnStep(env, s, step, r);
    if ReturnedClean(s, r) {
      j := CleanReturnSawNoMarks(env, states, steps, k - 1, r);
    } else {
      j := k - 1;
    }
  }

  // ----- stretches of a run -----

  /** Steps the system can take from `s` to `t`, none of which brings back an id a pass is over. */
  ghost predicate Leads(env: Env, s: State, steps: seq<Step>, t: State)
    decreases |steps|
  {
    if steps == [] then s == t
    else Enabled(env, s, steps[0]) && NoReuse(s, steps[0]) && Leads(env, Next(env, s, steps[0]), steps[1..], t)
  }

  lemma {:induction false} LeadsKeepsInv(env: Env, s: State, steps: seq<Step>, t: State)
    requires Inv(env, s) && Leads(env, s, steps, t)
    ensures Inv(env, t)
    decreases |steps|
  {
    hide Inv, Enabled, Next, NoReuse;
    if steps != [] {
      StepKeepsInv(env, s, steps[0]);
      LeadsKeepsInv(env, Next(env, s, steps[0]), steps[1..], t);
    }
  }

  lemma LeadsOne(env: Env, s: State, step: Step, steps: seq<Step>, t: State)
    requires Enabled(env, s, step) && NoReuse(s, step) && Leads(env, Next(env, s, step), steps, t)
    ensures Leads(env, s, [step] + steps, t)
  {
    hide Enabled, Next, NoReuse;
    assert ([step] + steps)[1..] == steps;
  }

  lemma {:induction false} LeadsThen(env: Env, s: State, steps: seq<Step>, u: State, step: Step, t: State)
    requires Leads(env, s, steps, u) && Enabled(env, u, step) && NoReuse(u, step) && t == Next(env, u, step)
    ensures Leads(env, s, steps + [step], t)
    decreases |steps|
  {
    hide Enabled, Next, NoReuse;
    if steps == [] {
      assert [] + [step] == [step] && [step][1..] == [];
    } else {
      LeadsThen(env, Next(env, s, steps[0]), steps[1..], u, step, t);
      assert (steps + [step])[1..] == steps[1..] + [step];
    }
  }

  lemma {:induction false} LeadsOn(env: Env, s: State, a: seq<Step>, u: State, b: seq<Step>, t: State)
    requires Leads(env, s, a, u) && Leads(env, u, b, t)
    ensures Leads(env, s, a + b, t)
    decreases |a|
  {
    hide Enabled, Next, NoReuse;
    if a == [] {
      assert a + b == b;
    } else {
      LeadsOn(env, Next(env, s, a[0]), a[1..], u, b, t);
      assert (a + b)[1..] == a[1..] + b;
    }
  }
}
