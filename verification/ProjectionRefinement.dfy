/** One run's statements as steps of the protocol, among other runs that do not move meanwhile. */
module ProjectionRefinement {
  import opened Wrappers
  import opened ProjectionModel
  import opened ProjectionProtocol

  /** A run's id, and the other runs with the locks they hold. */
  datatype Around = Around(self: RunId, locks: map<DocId, RunId>, runs: map<RunId, Run>)

  /** The protocol's state around a run, which may hold one document's lock. */
  function Whole(a: Around, docs: map<DocId, Doc>, run: Run, held: Option<DocId>): State {
    State(docs, if held.Some? then a.locks[held.value := a.self] else a.locks, a.runs[a.self := run])
  }

  ghost predicate Reaches(env: Env, s: State, t: State) {
    exists steps :: Leads(env, s, steps, t)
  }

  lemma Stays(env: Env, s: State)
    ensures Reaches(env, s, s)
  {
    assert Leads(env, s, [], s);
  }

  lemma ReachesOn(env: Env, s: State, t: State, u: State)
    requires Reaches(env, s, t) && Reaches(env, t, u)
    ensures Reaches(env, s, u)
  {
    hide Leads;
    var a :| Leads(env, s, a, t);
    var b :| Leads(env, t, b, u);
    LeadsOn(env, s, a, t, b, u);
  }

  lemma ReachesStep(env: Env, s: State, step: Step, t: State)
    requires Enabled(env, s, step) && !step.CreateDoc? && t == Next(env, s, step)
    ensures Reaches(env, s, t)
  {
    hide Enabled, Next;
    assert Leads(env, t, [], t);
    LeadsOne(env, s, step, [], t);
  }

  // ----- a pass -----

  /** The run is in a pass over `d`, with `p` next and nothing in hand. */
  predicate Passing(run: Run, d: DocId, content: bool, p: Projection, after: int) {
    && run.at.Projecting? && run.at.d == d && run.at.content == content && run.at.page.None? && run.at.after == after
    && run.at.todo != [] && run.at.todo[0] == p
  }

  function NextProjection(run: Run): Run
    requires run.at.Projecting? && run.at.todo != []
  {
    run.(at := run.at.(todo := run.at.todo[1..], after := -1))
  }

  /** Where a page leaves the run: on at its last chunk, or at the next projection. */
  function Paged(run: Run, more: bool, last: int): Run
    requires run.at.Projecting? && run.at.todo != []
  {
    if more then run.(at := run.at.(after := last)) else NextProjection(run)
  }

  function Rewritten(env: Env, d: DocId, doc: Doc, p: Projection, content: bool, page: map<ChunkId, Chunk>): Doc {
    doc.(rows := PageRows(env, d, p, content, page, doc.source, doc.rows))
  }

  /** A page transaction with no writer in between is its two steps one after the other. */
  lemma PageSteps(env: Env, a: Around, docs: map<DocId, Doc>, run: Run, d: DocId, p: Projection, content: bool, after: int,
                  size: nat, page: map<ChunkId, Chunk>, last: int)
    requires Passing(run, d, content, p, after) && d in docs && size > 0 && IsPage(docs[d].chunks, after, size, page)
    requires |page| == size ==> IsLast(page, last)
    ensures Reaches(env, Whole(a, docs, run, Some(d)),
                    Whole(a, docs[d := Rewritten(env, d, docs[d], p, content, page)], Paged(run, |page| == size, last), Some(d)))
  {
    var s := Whole(a, docs, run, Some(d));
    var middle := run.(at := run.at.(page := Some(Page(page, docs[d].source, |page| == size))));
    var t := Whole(a, docs, middle, Some(d));
    ReadStep(env, a, docs, run, d, p, content, after, size, page);
    WriteStep(env, a, docs, middle, d, p, content, page, last);
    var u := Whole(a, docs[d := Rewritten(env, d, docs[d], p, content, page)], Paged(run, |page| == size, last), Some(d));
    hide Reaches, Whole, Rewritten;
    ReachesOn(env, s, t, u);
  }

  lemma ReadStep(env: Env, a: Around, docs: map<DocId, Doc>, run: Run, d: DocId, p: Projection, content: bool, after: int,
                 size: nat, page: map<ChunkId, Chunk>)
    requires Passing(run, d, content, p, after) && d in docs && size > 0 && IsPage(docs[d].chunks, after, size, page)
    ensures Reaches(env, Whole(a, docs, run, Some(d)),
                    Whole(a, docs, run.(at := run.at.(page := Some(Page(page, docs[d].source, |page| == size)))), Some(d)))
  {
    hide IsPage, Reaches;
    var s, t := Whole(a, docs, run, Some(d)), Whole(a, docs, run.(at := run.at.(page := Some(Page(page, docs[d].source, |page| == size)))), Some(d));
    assert t.runs == s.runs[a.self := t.runs[a.self]];
    ReachesStep(env, s, ReadPage(a.self, size, page), t);
  }

  lemma WriteStep(env: Env, a: Around, docs: map<DocId, Doc>, run: Run, d: DocId, p: Projection, content: bool,
                  page: map<ChunkId, Chunk>, last: int)
    requires run.at.Projecting? && run.at.d == d && run.at.content == content && run.at.todo != [] && run.at.todo[0] == p
    requires d in docs && run.at.page.Some? && run.at.page.value.chunks == page && page.Keys <= docs[d].chunks.Keys
    requires run.at.page.value.source == docs[d].source && (run.at.page.value.full ==> IsLast(page, last))
    ensures Reaches(env, Whole(a, docs, run, Some(d)),
                    Whole(a, docs[d := Rewritten(env, d, docs[d], p, content, page)],
                          Paged(run.(at := run.at.(page := None)), run.at.page.value.full, last), Some(d)))
  {
    hide IsLast, PageRows, Reaches;
    var s := Whole(a, docs, run, Some(d));
    var t := Whole(a, docs[d := Rewritten(env, d, docs[d], p, content, page)],
                   Paged(run.(at := run.at.(page := None)), run.at.page.value.full, last), Some(d));
    assert t.runs == s.runs[a.self := t.runs[a.self]];
    ReachesStep(env, s, WritePage(a.self, last), t);
  }

  function WithOutcome(run: Run, d: DocId, outcome: Outcome): Run {
    run.(at := Releasing(d, outcome))
  }

  lemma PassBudgetStep(env: Env, a: Around, docs: map<DocId, Doc>, run: Run, d: DocId, content: bool, p: Projection, after: int)
    requires Passing(run, d, content, p, after)
    ensures Reaches(env, Whole(a, docs, run, Some(d)), Whole(a, docs, WithOutcome(run, d, Deferred), Some(d)))
  {
    hide Reaches;
    var s, t := Whole(a, docs, run, Some(d)), Whole(a, docs, WithOutcome(run, d, Deferred), Some(d));
    assert t.runs == s.runs[a.self := t.runs[a.self]];
    ReachesStep(env, s, Budget(a.self), t);
  }

  // ----- a document -----

  lemma LockStep(env: Env, a: Around, docs: map<DocId, Doc>, run: Run, d: DocId)
    requires run.at.Looping? && run.claimed != [] && run.claimed[0] == d && d !in a.locks
    ensures Reaches(env, Whole(a, docs, run, None), Whole(a, docs, run.(at := Holding(d)), Some(d)))
  {
    hide Reaches;
    var s, t := Whole(a, docs, run, None), Whole(a, docs, run.(at := Holding(d)), Some(d));
    assert t.runs == s.runs[a.self := t.runs[a.self]];
    ReachesStep(env, s, TryLock(a.self), t);
  }

  lemma LockedElsewhereStep(env: Env, a: Around, docs: map<DocId, Doc>, run: Run, d: DocId)
    requires run.at.Looping? && run.claimed != [] && run.claimed[0] == d && d in a.locks
    ensures Reaches(env, Whole(a, docs, run, None), Whole(a, docs, AfterOutcome(run, d, Deferred), None))
  {
    hide Reaches;
    var s, t := Whole(a, docs, run, None), Whole(a, docs, AfterOutcome(run, d, Deferred), None);
    assert t.runs == s.runs[a.self := t.runs[a.self]];
    ReachesStep(env, s, TryLock(a.self), t);
  }

  /** A run that holds a document, once it has read the mark. */
  function Begun(env: Env, run: Run, d: DocId, mark: Option<Mark>): Run {
    if mark.Some? then run.(at := Projecting(d, mark.value.generation, mark.value.content, Plan(env, mark.value.content), -1, None))
    else WithOutcome(run, d, Gone)
  }

  lemma ReadMarkStep(env: Env, a: Around, docs: map<DocId, Doc>, run: Run, d: DocId)
    ensures var mark := if d in docs then docs[d].mark else None;
            Reaches(env, Whole(a, docs, run.(at := Holding(d)), Some(d)), Whole(a, docs, Begun(env, run, d, mark), Some(d)))
  {
    hide Reaches, Plan;
    var mark := if d in docs then docs[d].mark else None;
    var s, t := Whole(a, docs, run.(at := Holding(d)), Some(d)), Whole(a, docs, Begun(env, run, d, mark), Some(d));
    assert t.runs == s.runs[a.self := t.runs[a.self]];
    ReachesStep(env, s, ReadMark(a.self), t);
  }

  /** Whether a pass may take the document's mark away. */
  predicate SameMark(docs: map<DocId, Doc>, d: DocId, generation: nat) {
    d in docs && docs[d].mark.Some? && docs[d].mark.value.generation == generation
  }

  lemma SettlingStep(env: Env, a: Around, docs: map<DocId, Doc>, run: Run, d: DocId)
    requires run.at.Projecting? && run.at.d == d && run.at.todo == []
    ensures SameMark(docs, d, run.at.generation) ==>
              Reaches(env, Whole(a, docs, run, Some(d)),
                      Whole(a, docs[d := docs[d].(mark := None)], WithOutcome(run, d, Settled), Some(d)))
    ensures !SameMark(docs, d, run.at.generation) ==>
              Reaches(env, Whole(a, docs, run, Some(d)),
                      Whole(a, docs, WithOutcome(run, d, if d in docs && docs[d].mark.Some? then Deferred else Gone), Some(d)))
  {
    hide Reaches;
    var s := Whole(a, docs, run, Some(d));
    var t := if SameMark(docs, d, run.at.generation)
             then Whole(a, docs[d := docs[d].(mark := None)], WithOutcome(run, d, Settled), Some(d))
             else Whole(a, docs, WithOutcome(run, d, if d in docs && docs[d].mark.Some? then Deferred else Gone), Some(d));
    assert t.runs == s.runs[a.self := t.runs[a.self]];
    ReachesStep(env, s, Settle(a.self), t);
  }

  lemma UnlockStep(env: Env, a: Around, docs: map<DocId, Doc>, run: Run, d: DocId, outcome: Outcome)
    requires d !in a.locks
    ensures Reaches(env, Whole(a, docs, WithOutcome(run, d, outcome), Some(d)), Whole(a, docs, AfterOutcome(run, d, outcome), None))
  {
    hide Reaches;
    var s, t := Whole(a, docs, WithOutcome(run, d, outcome), Some(d)), Whole(a, docs, AfterOutcome(run, d, outcome), None);
    assert t.runs == s.runs[a.self := t.runs[a.self]];
    assert s.locks - {d} == a.locks;
    ReachesStep(env, s, Unlock(a.self), t);
  }

  // ----- a run -----

  lemma StartStep(env: Env, a: Around, docs: map<DocId, Doc>)
    requires a.self !in a.runs
    ensures Reaches(env, State(docs, a.locks, a.runs), Whole(a, docs, Run({}, [], 0, Looping), None))
  {
    hide Reaches;
    ReachesStep(env, State(docs, a.locks, a.runs), Start(a.self), Whole(a, docs, Run({}, [], 0, Looping), None));
  }

  /** Where a claim leaves the run: with a batch to go through, or returning. */
  function Claimed(run: Run, claimed: seq<DocId>): Run {
    if claimed == [] then run.(at := Stopped(run.skipped != {})) else run.(claimed := claimed)
  }

  lemma ClaimStep(env: Env, a: Around, docs: map<DocId, Doc>, run: Run, claimed: seq<DocId>)
    requires run.at.Looping? && run.claimed == [] && |claimed| <= CLAIM_BATCH_SIZE
    requires forall k :: 0 <= k < |claimed| ==> claimed[k] in docs && docs[claimed[k]].mark.Some? && claimed[k] !in run.skipped
    requires claimed == [] ==> forall d :: d in docs && docs[d].mark.Some? ==> d in run.skipped
    ensures Reaches(env, Whole(a, docs, run, None), Whole(a, docs, Claimed(run, claimed), None))
  {
    hide Reaches;
    var s, t := Whole(a, docs, run, None), Whole(a, docs, Claimed(run, claimed), None);
    assert t.runs == s.runs[a.self := t.runs[a.self]];
    ReachesStep(env, s, Claim(a.self, claimed), t);
  }

  lemma LoopBudgetStep(env: Env, a: Around, docs: map<DocId, Doc>, run: Run)
    requires run.at.Looping?
    ensures Reaches(env, Whole(a, docs, run, None), Whole(a, docs, run.(at := Stopped(true)), None))
  {
    hide Reaches;
    var s, t := Whole(a, docs, run, None), Whole(a, docs, run.(at := Stopped(true)), None);
    assert t.runs == s.runs[a.self := t.runs[a.self]];
    ReachesStep(env, s, Budget(a.self), t);
  }
}
