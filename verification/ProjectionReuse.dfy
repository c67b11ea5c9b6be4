/**
 * Bringing a document id back: exactly when it can lose a write.
 *
 * A generation identifies a mark only while its document lives. A pass that has read a mark of a deleted document can
 * settle a mark of the document that took its id, once as many writes have marked it.
 */
module ProjectionReuse {
  import opened Wrappers
  import opened ProjectionModel
  import opened ProjectionProtocol

  /** An unmarked document some row of which is not what the document says. */
  ghost predicate Lost(env: Env, t: State, d: DocId) {
    d in t.docs && t.docs[d].mark.None? && !AllCurrent(env, d, t.docs[d])
  }

  /** From `s` on, no write is ever lost. */
  ghost predicate Safe(env: Env, s: State) {
    forall steps, t, d :: Leads(env, s, steps, t) ==> !Lost(env, t, d)
  }

  // ----- the writes that mark the new document as the old one was -----

  /** Chunks with these ids, at different indexes, none of them 0. */
  lemma {:induction false} Lay(ids: set<ChunkId>) returns (chunks: map<ChunkId, Chunk>)
    ensures chunks.Keys == ids
    ensures forall c :: c in chunks ==> 1 <= chunks[c].index <= |ids|
    ensures forall a, b :: a in chunks && b in chunks && chunks[a].index == chunks[b].index ==> a == b
    decreases |ids|
  {
    if |ids| == 0 {
      chunks := map[];
    } else {
      var c := AnyOf(ids);
      var rest := Lay(ids - {c});
      chunks := rest[c := Chunk(|ids|, 0, 0)];
    }
  }

  lemma NoneIn<T>(s: set<T>)
    requires |s| == 0
    ensures forall x :: x !in s
  {
  }

  lemma HasKey<K, V>(m: map<K, V>)
    requires m != map[]
    ensures |m.Keys| > 0
  {
  }

  lemma AnyOf<T>(s: set<T>) returns (x: T)
    requires |s| > 0
    ensures x in s && |s - {x}| == |s| - 1
  {
    x := Element(s);
  }

  /** A chunk id that is not among these. */
  lemma {:induction false} NewId(ids: set<ChunkId>) returns (x: ChunkId)
    ensures forall c :: c in ids ==> c < x
    decreases |ids|
  {
    if |ids| == 0 {
      NoneIn(ids);
      x := 0;
      assert forall c :: c in ids ==> c < x;
    } else {
      var c := AnyOf(ids);
      var y := NewId(ids - {c});
      x := if c < y then y else c + 1;
      assert forall e :: e in ids ==> e < x by {
        forall e | e in ids ensures e < x {
          assert e == c || e in ids - {c};
        }
      }
    }
  }

  /** Writing the same deferred chunks `n` times leaves a mark of generation `n`. */
  lemma {:induction false} WriteTimes(env: Env, s: State, d: DocId, source: Source, chunks: map<ChunkId, Chunk>, n: nat)
    returns (steps: seq<Step>, t: State)
    requires d in s.docs && s.docs[d].mark.None? && s.docs[d].rows == map[] && Consistent(Doc(source, chunks, map[], None))
    ensures Leads(env, s, steps, t) && t.runs == s.runs && t.locks == s.locks
    ensures if n == 0 then steps == [] && t == s else t == SetDoc(s, d, Doc(source, chunks, map[], Some(Mark(n, true))))
    decreases n
  {
    if n == 0 {
      steps, t := [], s;
    } else {
      var before, u := WriteTimes(env, s, d, source, chunks, n - 1);
      var step := Write(d, source, chunks, map[], true);
      t := SetDoc(s, d, Doc(source, chunks, map[], Some(Mark(n, true))));
      WriteAgain(env, s, u, d, source, chunks, n, step, t, before);
      LeadsThen(env, s, before, u, step, t);
      steps := before + [step];
    }
  }

  lemma WriteAgain(env: Env, s: State, u: State, d: DocId, source: Source, chunks: map<ChunkId, Chunk>, n: nat, step: Step, t: State,
                   before: seq<Step>)
    requires d in s.docs && s.docs[d].mark.None? && Consistent(Doc(source, chunks, map[], None)) && n > 0
    requires step == Write(d, source, chunks, map[], true) && Leads(env, s, before, u)
    requires if n == 1 then before == [] else u == SetDoc(s, d, Doc(source, chunks, map[], Some(Mark(n - 1, true))))
    requires t == SetDoc(s, d, Doc(source, chunks, map[], Some(Mark(n, true))))
    ensures Enabled(env, u, step) && NoReuse(u, step) && t == Next(env, u, step)
  {
    assert n == 1 ==> u == s;
    assert Consistent(Written(u.docs[d], step));
  }

  // ----- a pass that settles over a chunk it never wrote -----

  /** The pass of run `r` will settle the mark as it stands, and will not write the search row of chunk `x`. */
  ghost predicate Doomed(env: Env, s: State, r: RunId, x: ChunkId) {
    && r in s.runs && s.runs[r].at.Projecting?
    && var pc := s.runs[r].at;
       && pc.d in s.docs
       && var doc := s.docs[pc.d];
          && doc.mark.Some? && doc.mark.value.generation == pc.generation
          && x in doc.chunks && doc.chunks[x].index == 0 && !ContentCurrent(env, pc.d, doc, Search, x)
          && (forall k :: 1 <= k < |pc.todo| ==> pc.todo[k] != Search)
          && (pc.page.Some? ==> PageFits(s, pc) && (pc.page.value.full ==> pc.page.value.chunks != map[]))
          && (pc.todo != [] && pc.todo[0] == Search ==>
                if pc.page.Some? then x !in pc.page.value.chunks else pc.after >= 0)
  }

  /** How much of the pass is left. */
  ghost function Ahead(pc: Pc): nat
    requires pc.Projecting?
  {
    3 * |pc.todo| + (if pc.page.None? then 1 else if pc.page.value.full then 2 else 0)
  }

  ghost function Past(chunks: map<ChunkId, Chunk>, after: int): map<ChunkId, Chunk> {
    map c | c in chunks && chunks[c].index > after :: chunks[c]
  }

  lemma ReadsOn(env: Env, s: State, r: RunId, x: ChunkId) returns (step: Step)
    requires Doomed(env, s, r, x) && s.runs[r].at.todo != [] && s.runs[r].at.page.None?
    ensures Enabled(env, s, step) && NoReuse(s, step) && Doomed(env, Next(env, s, step), r, x)
    ensures Next(env, s, step).runs[r].at.d == s.runs[r].at.d
    ensures Ahead(Next(env, s, step).runs[r].at) < Ahead(s.runs[r].at)
  {
    var pc := s.runs[r].at;
    var page := Past(s.docs[pc.d].chunks, pc.after);
    step := ReadPage(r, |page| + 1, page);
    assert IsPage(s.docs[pc.d].chunks, pc.after, |page| + 1, page);
    hide ContentCurrent, IsPage;
    assert PageFits(Next(env, s, step), Next(env, s, step).runs[r].at);
  }

  lemma {:induction false} LastOf(page: map<ChunkId, Chunk>, ids: set<ChunkId>) returns (c: ChunkId)
    requires ids <= page.Keys && |ids| > 0
    ensures c in ids && forall e :: e in ids ==> page[e].index <= page[c].index
    decreases |ids|
  {
    c := AnyOf(ids);
    if |ids - {c}| > 0 {
      var e := LastOf(page, ids - {c});
      if page[c].index < page[e].index { c := e; }
    } else {
      forall e | e in ids ensures e == c { OnlyOne(ids, c, e); }
    }
  }

  lemma OnlyOne<T>(s: set<T>, x: T, y: T)
    requires x in s && y in s && |s - {x}| == 0
    ensures x == y
  {
    if x != y {
      NotEmpty(y, s - {x});
    }
  }

  lemma WritesOn(env: Env, s: State, r: RunId, x: ChunkId) returns (step: Step)
    requires Doomed(env, s, r, x) && s.runs[r].at.todo != [] && s.runs[r].at.page.Some?
    ensures Enabled(env, s, step) && NoReuse(s, step) && Doomed(env, Next(env, s, step), r, x)
    ensures Next(env, s, step).runs[r].at.d == s.runs[r].at.d
    ensures Ahead(Next(env, s, step).runs[r].at) < Ahead(s.runs[r].at)
  {
    var pc := s.runs[r].at;
    var page := pc.page.value;
    var last := 0;
    if page.full {
      HasKey(page.chunks);
      var c := LastOf(page.chunks, page.chunks.Keys);
      last := page.chunks[c].index;
    }
    step := WritePage(r, last);
    WriteLeaves(env, s, r, x, last);
  }

  lemma WriteLeaves(env: Env, s: State, r: RunId, x: ChunkId, last: int)
    requires Doomed(env, s, r, x) && s.runs[r].at.todo != [] && s.runs[r].at.page.Some? && last >= 0
    requires s.runs[r].at.page.value.full ==> IsLast(s.runs[r].at.page.value.chunks, last)
    ensures Enabled(env, s, WritePage(r, last)) && Doomed(env, Next(env, s, WritePage(r, last)), r, x)
    ensures Next(env, s, WritePage(r, last)).runs[r].at == Advance(s.runs[r].at, last)
  {
    var pc := s.runs[r].at;
    var page := pc.page.value;
    var doc := s.docs[pc.d];
    if pc.todo[0] != Search || x !in page.chunks {
      PageLeavesOthers(env, pc.d, doc, pc.todo[0], pc.content, page.chunks, page.source, Search, x);
    }
    hide ContentCurrent, PageRows, IsLast;
  }

  lemma {:induction false} Settles(env: Env, s: State, r: RunId, x: ChunkId) returns (steps: seq<Step>, t: State)
    requires Doomed(env, s, r, x)
    ensures Leads(env, s, steps, t) && Lost(env, t, s.runs[r].at.d)
    decreases Ahead(s.runs[r].at)
  {
    var pc := s.runs[r].at;
    var step;
    if pc.todo == [] {
      step := Settle(r);
      t := Next(env, s, step);
      SettleLoses(env, s, r, x);
      steps := [];
      assert Leads(env, t, [], t);
    } else {
      if pc.page.None? { step := ReadsOn(env, s, r, x); } else { step := WritesOn(env, s, r, x); }
      hide Doomed, Enabled, Next, NoReuse;
      steps, t := Settles(env, Next(env, s, step), r, x);
    }
    LeadsOne(env, s, step, steps, t);
    steps := [step] + steps;
  }

  lemma SettleLoses(env: Env, s: State, r: RunId, x: ChunkId)
    requires Doomed(env, s, r, x) && s.runs[r].at.todo == []
    ensures Enabled(env, s, Settle(r)) && NoReuse(s, Settle(r)) && Lost(env, Next(env, s, Settle(r)), s.runs[r].at.d)
  {
    var d := s.runs[r].at.d;
    var doc := s.docs[d];
    var doc' := doc.(mark := None);
    assert ContentCurrent(env, d, doc', Search, x) <==> ContentCurrent(env, d, doc, Search, x);
    assert Search in Projections(env) && !Current(env, d, doc', Search, x);
  }

  // ----- exactly when -----

  /** The id is back, and the pass has its page in hand: an empty one, unless it had read one before. */
  lemma ComesBack(env: Env, s: State, r: RunId, d: DocId, source: Source) returns (steps: seq<Step>, t: State)
    requires Inv(env, s) && d !in s.docs && r in s.runs && s.runs[r].at.Projecting? && s.runs[r].at.d == d
    ensures var back := Next(env, s, CreateDoc(d, source)); Leads(env, back, steps, t)
    ensures d in t.docs && t.docs[d] == Doc(source, map[], map[], None)
    ensures r in t.runs && var pc, was := t.runs[r].at, s.runs[r].at;
            && pc.Projecting? && pc.d == d && pc.generation == was.generation && pc.todo == was.todo
            && (pc.todo != [] ==> pc.page.Some?)
            && (pc.page.Some? && pc.page.value.full ==> pc.page.value.chunks != map[])
  {
    var back := Next(env, s, CreateDoc(d, source));
    var pc := s.runs[r].at;
    assert PassOk(env, s.docs, pc);
    if pc.todo != [] && pc.page.None? {
      var step := ReadPage(r, 1, map[]);
      assert IsPage(map[], pc.after, 1, map[]);
      t := Next(env, back, step);
      assert Leads(env, t, [], t);
      LeadsOne(env, back, step, [], t);
      steps := [step] + [];
    } else {
      steps, t := [], back;
    }
  }

  /** As many writes as marked the old document, of one chunk more than the pass has in hand, doom the pass. */
  lemma MarkedLikeBefore(env: Env, u: State, r: RunId, d: DocId, source: Source) returns (steps: seq<Step>, v: State, x: ChunkId)
    requires d in u.docs && u.docs[d] == Doc(source, map[], map[], None)
    requires r in u.runs && u.runs[r].at.Projecting? && u.runs[r].at.d == d
    requires u.runs[r].at.todo != [] ==> u.runs[r].at.page.Some?
    requires u.runs[r].at.page.Some? && u.runs[r].at.page.value.full ==> u.runs[r].at.page.value.chunks != map[]
    requires forall k :: 1 <= k < |u.runs[r].at.todo| ==> u.runs[r].at.todo[k] != Search
    ensures Leads(env, u, steps, v) && Doomed(env, v, r, x) && v.runs[r].at == u.runs[r].at
  {
    var pc := u.runs[r].at;
    var page := if pc.page.Some? then pc.page.value.chunks else map[];
    var chunks := Lay(page.Keys);
    x := NewId(page.Keys);
    var all := chunks[x := Chunk(0, 0, 0)];
    assert Consistent(Doc(source, all, map[], None));
    steps, v := WriteTimes(env, u, d, source, all, pc.generation);
    hide Leads, Consistent;
  }

  /** Bringing back the id of a document a pass is over can lose a write, whatever the pass has done so far. */
  lemma ReuseInPassLoses(env: Env, s: State, d: DocId, source: Source) returns (steps: seq<Step>, t: State)
    requires Inv(env, s) && d !in s.docs && InPass(s, d)
    ensures Leads(env, Next(env, s, CreateDoc(d, source)), steps, t) && Lost(env, t, d)
  {
    var r :| r in s.runs && s.runs[r].at.Projecting? && s.runs[r].at.d == d;
    var pc := s.runs[r].at;
    assert PassOk(env, s.docs, pc);
    var first, u := ComesBack(env, s, r, d, source);
    SearchIsFirst(env, pc);
    hide Doomed, Inv, PassOk, Lost, Leads, Next, Enabled, InPass;
    var writes, v, x := MarkedLikeBefore(env, u, r, d, source);
    var rest;
    rest, t := Settles(env, v, r, x);
    var back := Next(env, s, CreateDoc(d, source));
    LeadsOn(env, back, first, u, writes, v);
    LeadsOn(env, back, first + writes, v, rest, t);
    steps := first + writes + rest;
  }

  lemma SearchIsFirst(env: Env, pc: Pc)
    requires pc.Projecting? && OnPlan(env, pc)
    ensures forall k :: 1 <= k < |pc.todo| ==> pc.todo[k] != Search
  {
  }

  /** Bringing back an id is safe exactly when no run is in a pass over it. */
  lemma ReuseIsSafeExactlyOutsidePasses(env: Env, s: State, d: DocId, source: Source)
    requires Inv(env, s) && d !in s.docs
    ensures Safe(env, Next(env, s, CreateDoc(d, source))) <==> !InPass(s, d)
  {
    hide Inv, InPass, AllCurrent, Next, Leads;
    var back := Next(env, s, CreateDoc(d, source));
    if InPass(s, d) {
      var steps, t := ReuseInPassLoses(env, s, d, source);
    } else {
      assert Enabled(env, s, CreateDoc(d, source)) && NoReuse(s, CreateDoc(d, source));
      StepKeepsInv(env, s, CreateDoc(d, source));
      forall steps, t, e | Leads(env, back, steps, t) ensures !Lost(env, t, e) {
        LeadsKeepsInv(env, back, steps, t);
        InvIsNotLost(env, t, e);
      }
    }
  }

  lemma InvIsNotLost(env: Env, t: State, d: DocId)
    requires Inv(env, t)
    ensures !Lost(env, t, d)
  {
  }

  // ----- a run of the system that loses a write -----

  /** From an empty database: a document is created, marked, claimed and read by a run, and deleted under its pass. */
  function UnderPass(): seq<Step> {
    var d, source := DocId(0), Source(0, 0);
    [CreateDoc(d, source), Write(d, source, map[], map[], true), Start(0), Claim(0, [d]), TryLock(0), ReadMark(0), DeleteDoc(d)]
  }

  function Reached(env: Env): State {
    State(map[], map[DocId(0) := 0], map[0 := Run({}, [DocId(0)], 0, Projecting(DocId(0), 1, true, Plan(env, true), -1, None))])
  }

  const MARKED: State := State(map[DocId(0) := Doc(Source(0, 0), map[], map[], Some(Mark(1, true)))], map[], map[])

  lemma MarkedReached(env: Env)
    ensures Leads(env, State(map[], map[], map[]), UnderPass()[..2], MARKED)
  {
    var d, source := DocId(0), Source(0, 0);
    var s0 := State(map[], map[], map[]);
    var s1 := State(map[d := Doc(source, map[], map[], None)], map[], map[]);
    var steps := UnderPass()[..2];
    assert steps[0] == CreateDoc(d, source) && steps[1] == Write(d, source, map[], map[], true);
    assert Enabled(env, s0, steps[0]) && s1 == Next(env, s0, steps[0]);
    assert Enabled(env, s1, steps[1]) && MARKED == Next(env, s1, steps[1]);
    hide Enabled, Next;
    assert Leads(env, MARKED, steps[1..][1..], MARKED);
    assert Leads(env, s1, steps[1..], MARKED);
  }

  lemma ClaimReached(env: Env)
    ensures Leads(env, MARKED, UnderPass()[2..4], MARKED.(runs := map[0 := Run({}, [DocId(0)], 0, Looping)]))
  {
    var s3 := MARKED.(runs := map[0 := Run({}, [], 0, Looping)]);
    var s4 := MARKED.(runs := map[0 := Run({}, [DocId(0)], 0, Looping)]);
    var steps := UnderPass()[2..4];
    assert steps[0] == Start(0) && steps[1] == Claim(0, [DocId(0)]);
    assert Enabled(env, MARKED, steps[0]) && s3 == Next(env, MARKED, steps[0]);
    assert Enabled(env, s3, steps[1]) && s4 == Next(env, s3, steps[1]);
    hide Enabled, Next;
    assert Leads(env, s4, steps[1..][1..], s4);
    assert Leads(env, s3, steps[1..], s4);
  }

  lemma PassReached(env: Env)
    ensures Leads(env, MARKED.(runs := map[0 := Run({}, [DocId(0)], 0, Looping)]), UnderPass()[4..7], Reached(env))
  {
    var d := DocId(0);
    var s4 := MARKED.(runs := map[0 := Run({}, [d], 0, Looping)]);
    var s5 := State(MARKED.docs, map[d := 0], map[0 := Run({}, [d], 0, Holding(d))]);
    var s6 := Reached(env).(docs := MARKED.docs);
    var steps := UnderPass()[4..7];
    assert steps[0] == TryLock(0) && steps[1] == ReadMark(0) && steps[2] == DeleteDoc(d);
    assert Enabled(env, s4, steps[0]) && s5 == Next(env, s4, steps[0]);
    assert Enabled(env, s5, steps[1]) && s6 == Next(env, s5, steps[1]);
    assert Enabled(env, s6, steps[2]) && Reached(env) == Next(env, s6, steps[2]);
    hide Enabled, Next, Plan;
    assert Leads(env, Reached(env), steps[1..][1..][1..], Reached(env));
    assert Leads(env, s6, steps[1..][1..], Reached(env));
    assert Leads(env, s5, steps[1..], Reached(env));
  }

  lemma UnderPassRuns(env: Env)
    ensures Leads(env, State(map[], map[], map[]), UnderPass(), Reached(env))
    ensures DocId(0) !in Reached(env).docs && InPass(Reached(env), DocId(0))
  {
    MarkedReached(env);
    ClaimReached(env);
    PassReached(env);
    assert Reached(env).runs[0].at.Projecting?;
    hide Leads;
    var claimed := MARKED.(runs := map[0 := Run({}, [DocId(0)], 0, Looping)]);
    LeadsOn(env, MARKED, UnderPass()[2..4], claimed, UnderPass()[4..7], Reached(env));
    LeadsOn(env, State(map[], map[], map[]), UnderPass()[..2], MARKED, UnderPass()[2..4] + UnderPass()[4..7], Reached(env));
    assert UnderPass()[..2] + (UnderPass()[2..4] + UnderPass()[4..7]) == UnderPass();
  }

  /** A system started empty can lose a write by one reuse of an id under a pass, and no other reuse. */
  lemma ReuseLosesAWrite(env: Env) returns (before: seq<Step>, s: State, after: seq<Step>, t: State)
    ensures Init(env, State(map[], map[], map[])) && Leads(env, State(map[], map[], map[]), before, s)
    ensures Enabled(env, s, CreateDoc(DocId(0), Source(0, 0)))
    ensures Leads(env, Next(env, s, CreateDoc(DocId(0), Source(0, 0))), after, t) && Lost(env, t, DocId(0))
  {
    before := UnderPass();
    s := Reached(env);
    UnderPassRuns(env);
    hide Leads, InPass, Reached;
    InitInv(env);
    LeadsKeepsInv(env, State(map[], map[], map[]), before, s);
    after, t := ReuseInPassLoses(env, s, DocId(0), Source(0, 0));
  }

  lemma InitInv(env: Env)
    ensures Inv(env, State(map[], map[], map[]))
  {
  }
}
