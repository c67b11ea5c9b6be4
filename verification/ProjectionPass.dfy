/**
 * A whole projector pass: rounds of projecting, then the fill, whose calls are linked by the cursors they return.
 * Between two calls anything may happen that other transactions can do: marks come and go, filled rows leave their
 * index, documents are deleted.
 */
module ProjectionPass {
  import opened Wrappers
  import opened ProjectionModel
  import opened ProjectionFill

  const START: Cursor := Cursor(0, -1)

  /** Where the fill stands: not begun, off or done, or at a cursor. */
  datatype FillState = NotBegun | Over | At(cursor: Cursor)

  /**
   * A round of workers: what it reports, whether the budget lasts beyond it, and what it and every other transaction
   * have made of the database by then.
   */
  datatype Round = Round(settled: nat, deferred: nat, remaining: bool, inTime: bool,
                         projections: seq<seq<UnfilledRow>>, live: set<DocId>, locked: set<DocId>, marks: set<DocId>)

  datatype PassResult = PassResult(settled: nat, deferred: nat, remaining: bool, filled: nat)

  /** One call of the fill: after which round, where it started, whether it had room, what it chose, what it returned. */
  datatype Call = Call(at: nat, from: Cursor, room: bool, chosen: set<DocId>, r: FillResult)

  function Chosen(calls: seq<Call>): set<DocId> {
    set k, d | 0 <= k < |calls| && d in calls[k].chosen :: d
  }

  function WithRoom(calls: seq<Call>): nat {
    if calls == [] then 0 else WithRoom(calls[..|calls| - 1]) + if calls[|calls| - 1].room then 1 else 0
  }

  function Marked(calls: seq<Call>): nat {
    if calls == [] then 0 else Marked(calls[..|calls| - 1]) + calls[|calls| - 1].r.marked
  }

  /** Every call but the first starts at the cursor the one before it returned. */
  ghost predicate Linked(calls: seq<Call>) {
    && (calls != [] ==> calls[0].from == START)
    && forall k :: 0 < k < |calls| ==> calls[k - 1].r.cursor == Some(calls[k].from)
  }

  // ----- what may happen between calls -----

  /** Rows only leave an index. */
  ghost predicate RowsLeave(before: seq<seq<UnfilledRow>>, after: seq<seq<UnfilledRow>>) {
    && |after| == |before|
    && forall i :: 0 <= i < |after| ==> InIdOrder(after[i]) && forall row :: row in after[i] ==> row in before[i]
  }

  /** No document that has unfilled rows comes into being. */
  ghost predicate NoneAppears(projections: seq<seq<UnfilledRow>>, before: set<DocId>, after: set<DocId>) {
    forall i, row :: 0 <= i < |projections| && row in projections[i] && row.doc in after ==> row.doc in before
  }

  /** The rows past an id. */
  function Past(rows: seq<UnfilledRow>, id: int): set<UnfilledRow> {
    set row | row in rows && row.id > id
  }

  lemma {:induction false} PastCount(rows: seq<UnfilledRow>, id: int)
    requires InIdOrder(rows)
    ensures |Past(rows, id)| == |rows| - RowsUpTo(rows, id)
  {
    if rows == [] {
    } else {
      var n := |rows| - 1;
      if rows[n].id <= id {
        EmptySet(Past(rows, id));
      } else {
        PastCount(rows[..n], id);
        assert rows == rows[..n] + [rows[n]];
        SameSet(Past(rows, id), Past(rows[..n], id) + {rows[n]});
      }
    }
  }

  lemma {:induction false} Fewer<T>(a: set<T>, b: set<T>)
    requires a <= b
    ensures |a| <= |b|
  {
    assert b == a + (b - a);
  }

  /** Rows that leave never put a cursor further from the end. */
  lemma {:induction false} LeavingShortens(before: seq<seq<UnfilledRow>>, after: seq<seq<UnfilledRow>>, cursor: Cursor)
    requires RowsLeave(before, after) && forall rows :: rows in before ==> InIdOrder(rows)
    ensures RowsLeft(after, cursor) <= RowsLeft(before, cursor)
    decreases |before| - cursor.projection
  {
    if cursor.projection < |before| {
      var i := cursor.projection;
      LeavingShortens(before, after, Cursor(i + 1, -1));
      PastCount(before[i], cursor.afterId);
      PastCount(after[i], cursor.afterId);
      Fewer(Past(after[i], cursor.afterId), Past(before[i], cursor.afterId));
    }
  }

  // ----- what the cursor has passed -----

  /** A row of projection `i` the cursor has moved past. */
  predicate Behind(cursor: Cursor, i: int, row: UnfilledRow) {
    i < cursor.projection || (i == cursor.projection && row.id <= cursor.afterId)
  }

  /** Every unfilled row behind the cursor belongs to a document in `seen` or to one that is gone. */
  ghost predicate Covered(projections: seq<seq<UnfilledRow>>, live: set<DocId>, cursor: Cursor, seen: set<DocId>) {
    forall i, row :: 0 <= i < |projections| && row in projections[i] && row.doc in live && Behind(cursor, i, row) ==> row.doc in seen
  }

  /** Where a call left off; past every projection if nothing is left. */
  function After(projections: seq<seq<UnfilledRow>>, r: FillResult): Cursor {
    match r.cursor
    case None => Cursor(|projections|, -1)
    case Some(next) => next
  }

  lemma {:induction false} NoneLeft(projections: seq<seq<UnfilledRow>>, cursor: Cursor, i: int, row: UnfilledRow)
    requires RowsLeft(projections, cursor) == 0 && forall rows :: rows in projections ==> InIdOrder(rows)
    requires cursor.projection <= i < |projections| && row in projections[i]
    ensures Behind(cursor, i, row)
    decreases |projections| - cursor.projection
  {
    var p := cursor.projection;
    assert InIdOrder(projections[p]);
    if i > p {
      NoneLeft(projections, Cursor(p + 1, -1), i, row);
    }
  }

  /** A call with room covers what it passes with the documents it chose. */
  lemma CallCovers(projections: seq<seq<UnfilledRow>>, live: set<DocId>, room: nat, cursor: Cursor, seen: set<DocId>, chosen: set<DocId>,
                   r: FillResult)
    requires forall rows :: rows in projections ==> InIdOrder(rows)
    requires Covered(projections, live, cursor, seen) && Filled(projections, live, room, cursor, chosen, r)
    ensures Covered(projections, live, After(projections, r), seen + chosen)
  {
    hide RowsUpTo, RowsLeft;
    forall i, row | 0 <= i < |projections| && row in projections[i] && row.doc in live && Behind(After(projections, r), i, row)
      ensures row.doc in seen + chosen
    {
      if !Behind(cursor, i, row) {
        match r.cursor
        case None => NoneLeft(projections, cursor, i, row);
        case Some(next) => PassedRow(projections, live, room, cursor, chosen, r, i, row);
      }
    }
  }

  lemma PassedRow(projections: seq<seq<UnfilledRow>>, live: set<DocId>, room: nat, cursor: Cursor, chosen: set<DocId>, r: FillResult,
                  i: int, row: UnfilledRow)
    requires forall rows :: rows in projections ==> InIdOrder(rows)
    requires Filled(projections, live, room, cursor, chosen, r) && r.cursor.Some?
    requires 0 <= i < |projections| && row in projections[i] && row.doc in live
    requires Behind(r.cursor.value, i, row)
    ensures Behind(cursor, i, row) || row.doc in chosen
  {
    hide RowsLeft;
    var next := r.cursor.value;
    assert InIdOrder(projections[i]);
    if cursor.projection <= i < next.projection {
      assert Exhausted(projections, cursor, i);
      assert row.id <= Here(cursor, i).afterId;
    } else if i == next.projection {
      assert PassedOver(projections[i], Here(cursor, i).afterId, next.afterId, live, chosen);
    }
  }

  lemma ChangesKeepCovered(before: seq<seq<UnfilledRow>>, liveBefore: set<DocId>, after: seq<seq<UnfilledRow>>,
                           liveAfter: set<DocId>, cursor: Cursor, seen: set<DocId>)
    requires RowsLeave(before, after) && NoneAppears(after, liveBefore, liveAfter) && Covered(before, liveBefore, cursor, seen)
    ensures Covered(after, liveAfter, cursor, seen)
  {
  }

  // ----- the pass -----

  function RowsAt(projections: seq<seq<UnfilledRow>>, rounds: seq<Round>, k: nat): seq<seq<UnfilledRow>>
    requires k <= |rounds|
  {
    if k == 0 then projections else rounds[k - 1].projections
  }

  function LiveAt(live: set<DocId>, rounds: seq<Round>, k: nat): set<DocId>
    requires k <= |rounds|
  {
    if k == 0 then live else rounds[k - 1].live
  }

  /** The rounds follow one another from this database: rows only leave, and documents with unfilled rows only go. */
  ghost predicate Possible(projections: seq<seq<UnfilledRow>>, live: set<DocId>, rounds: seq<Round>) {
    forall k :: 0 <= k < |rounds| ==>
      && RowsLeave(RowsAt(projections, rounds, k), rounds[k].projections)
      && NoneAppears(rounds[k].projections, LiveAt(live, rounds, k), rounds[k].live)
  }

  /** A round that leaves the fill room and time. */
  predicate MakesWay(round: Round) {
    !round.remaining && round.inTime && |round.marks| < FILL_MARK_CEILING
  }

  predicate AllMakeWay(rounds: seq<Round>) {
    forall k :: 0 <= k < |rounds| ==> MakesWay(rounds[k])
  }

  /** What the fill has done so far, out of `budget` rows to read. */
  ghost predicate Filling(projections: seq<seq<UnfilledRow>>, live: set<DocId>, budget: nat, calls: seq<Call>, fill: FillState, on: bool) {
    match fill
    case NotBegun => on && calls == [] && RowsLeft(projections, START) <= budget
    case At(cursor) =>
      && on && calls != [] && calls[|calls| - 1].r.cursor == Some(cursor)
      && Covered(projections, live, cursor, Chosen(calls))
      && WithRoom(calls) + RowsLeft(projections, cursor) <= budget
    case Over =>
      if on then
        && calls != [] && calls[|calls| - 1].r.cursor == None
        && Covered(projections, live, Cursor(|projections|, -1), Chosen(calls))
        && WithRoom(calls) <= budget + 1
      else calls == []
  }

  // ----- which rounds run, and what the pass makes of them -----

  /** The call found the database as its round left it: it takes as much as there is room for, or nothing. */
  ghost predicate IsCall(rounds: seq<Round>, call: Call) {
    && call.at < |rounds|
    && var round := rounds[call.at];
       var outstanding := |round.marks|;
       && call.room == (outstanding < FILL_MARK_CEILING)
       && if call.room then
            && Filled(round.projections, round.live, FILL_MARK_CEILING - outstanding, call.from, call.chosen, call.r)
            && call.r.marked == |round.marks + (call.chosen - round.locked)| - outstanding
          else call.chosen == {} && call.r == FillResult(0, Some(call.from))
  }

  predicate CalledAfter(calls: seq<Call>, i: nat) {
    exists k :: 0 <= k < |calls| && calls[k].at == i
  }

  /** A round is followed by a call of the fill when it left no marks, and time, and the fill is on. */
  predicate Calls(round: Round, on: bool) {
    on && !round.remaining && round.inTime
  }

  /** The first `n` rounds have run, with these calls between them, and each was one to go on after. */
  ghost predicate RanOn(rounds: seq<Round>, n: nat, on: bool, calls: seq<Call>) {
    && n <= |rounds|
    && (forall i :: 0 <= i < n ==> if rounds[i].remaining then rounds[i].settled > 0 else Calls(rounds[i], on))
    && Between(rounds, n, on, calls)
  }

  ghost predicate Between(rounds: seq<Round>, n: nat, on: bool, calls: seq<Call>)
    requires n <= |rounds|
  {
    && (forall i: nat :: i < n ==> (CalledAfter(calls, i) <==> Calls(rounds[i], on)))
    && (forall k :: 0 <= k < |calls| ==> calls[k].at < n && IsCall(rounds, calls[k]))
    && (forall j, k :: 0 <= j < k < |calls| ==> calls[j].at < calls[k].at)
  }

  /** Why the pass ends after its `n`th round: the budget is spent, the round got nowhere, or the fill is off or done. */
  ghost predicate EndsAfter(rounds: seq<Round>, n: nat, on: bool, fill: FillState)
    requires n <= |rounds|
  {
    n == |rounds| || (n > 0 && var last := rounds[n - 1]; if last.remaining then last.settled == 0 else !last.inTime || fill.Over?)
  }

  function Settled(rounds: seq<Round>): nat {
    if rounds == [] then 0 else Settled(rounds[..|rounds| - 1]) + rounds[|rounds| - 1].settled
  }

  /** What the pass reports of the `n` rounds it ran and the calls it made. */
  ghost predicate Reports(rounds: seq<Round>, n: nat, calls: seq<Call>, fill: FillState, result: PassResult)
    requires n <= |rounds|
  {
    && result.settled == Settled(rounds[..n]) && result.filled == Marked(calls)
    && result.deferred == (if n > 0 && rounds[n - 1].remaining && rounds[n - 1].settled == 0 then rounds[n - 1].deferred else 0)
    && (result.remaining <==> fill.At? || (n > 0 && rounds[n - 1].remaining))
  }

  /** The rounds before the `n`th one were gone on after; those from 0 ran in turn. */
  ghost predicate RanUntil(rounds: seq<Round>, n: nat, on: bool, calls: seq<Call>) {
    && n <= |rounds| && Between(rounds, n, on, calls)
    && forall i :: 0 <= i < n - 1 ==> if rounds[i].remaining then rounds[i].settled > 0 else Calls(rounds[i], on)
  }

  lemma RunsBegin(rounds: seq<Round>, on: bool)
    ensures RanOn(rounds, 0, on, []) && RanUntil(rounds, 0, on, []) && Settled([]) == 0 && rounds[..0] == []
  {
  }

  lemma SettledNext(rounds: seq<Round>, n: nat)
    requires n < |rounds|
    ensures Settled(rounds[..n + 1]) == Settled(rounds[..n]) + rounds[n].settled
  {
    assert rounds[..n + 1][..n] == rounds[..n];
  }

  lemma NoCallNext(rounds: seq<Round>, n: nat, on: bool, calls: seq<Call>)
    requires RanOn(rounds, n, on, calls) && n < |rounds| && !Calls(rounds[n], on)
    ensures RanUntil(rounds, n + 1, on, calls)
    ensures rounds[n].remaining && rounds[n].settled > 0 ==> RanOn(rounds, n + 1, on, calls)
  {
    hide IsCall;
  }

  lemma CallNext(rounds: seq<Round>, n: nat, on: bool, calls: seq<Call>, call: Call)
    requires RanOn(rounds, n, on, calls) && n < |rounds| && Calls(rounds[n], on) && call.at == n && IsCall(rounds, call)
    ensures RanUntil(rounds, n + 1, on, calls + [call]) && RanOn(rounds, n + 1, on, calls + [call])
  {
    hide IsCall;
    var all := calls + [call];
    assert all[|calls|] == call;
    forall i: nat | i < n + 1 ensures CalledAfter(all, i) <==> Calls(rounds[i], on) {
      if CalledAfter(calls, i) {
        var k :| 0 <= k < |calls| && calls[k].at == i;
        assert all[k] == calls[k];
      }
    }
  }

  lemma ChosenLast(calls: seq<Call>, call: Call)
    ensures Chosen(calls + [call]) == Chosen(calls) + call.chosen
  {
    var all := calls + [call];
    forall d ensures d in Chosen(all) <==> d in Chosen(calls) + call.chosen {
      if d in call.chosen {
        assert all[|calls|] == call;
      }
      if d in Chosen(calls) {
        var k :| 0 <= k < |calls| && d in calls[k].chosen;
        assert all[k] == calls[k];
      }
    }
    SameSet(Chosen(all), Chosen(calls) + call.chosen);
  }

  lemma CountLast(calls: seq<Call>, call: Call)
    ensures WithRoom(calls + [call]) == WithRoom(calls) + if call.room then 1 else 0
    ensures Marked(calls + [call]) == Marked(calls) + call.r.marked
  {
    assert (calls + [call])[..|calls|] == calls;
  }

  /** A round costs the fill nothing. */
  lemma RoundKeepsFilling(before: seq<seq<UnfilledRow>>, live: set<DocId>, round: Round, budget: nat, calls: seq<Call>, fill: FillState,
                          on: bool)
    requires forall rows :: rows in before ==> InIdOrder(rows)
    requires RowsLeave(before, round.projections) && NoneAppears(round.projections, live, round.live)
    requires Filling(before, live, budget, calls, fill, on) && (fill.Over? ==> !on)
    ensures Filling(round.projections, round.live, budget, calls, fill, on)
    ensures forall rows :: rows in round.projections ==> InIdOrder(rows)
  {
    hide RowsLeft, Chosen, WithRoom, Covered;
    match fill
    case NotBegun => LeavingShortens(before, round.projections, START);
    case At(cursor) =>
      LeavingShortens(before, round.projections, cursor);
      ChangesKeepCovered(before, live, round.projections, round.live, cursor, Chosen(calls));
    case Over =>
  }

  /** Where the next call of the fill starts. */
  function From(fill: FillState): Cursor
    requires !fill.Over?
  {
    match fill
    case NotBegun => START
    case At(cursor) => cursor
  }

  function Following(r: FillResult): (s: FillState)
    ensures !s.NotBegun?
  {
    match r.cursor
    case None => Over
    case Some(cursor) => At(cursor)
  }

  lemma CallKeepsFilling(projections: seq<seq<UnfilledRow>>, live: set<DocId>, room: nat, budget: nat, calls: seq<Call>, fill: FillState,
                         on: bool, call: Call)
    requires forall rows :: rows in projections ==> InIdOrder(rows)
    requires Filling(projections, live, budget, calls, fill, on) && !fill.Over? && call.from == From(fill) && Linked(calls)
    requires call.room ==> Filled(projections, live, room, call.from, call.chosen, call.r)
    requires !call.room ==> call.chosen == {} && call.r == FillResult(0, Some(call.from))
    ensures on && Filling(projections, live, budget, calls + [call], Following(call.r), true) && Linked(calls + [call])
    ensures Marked(calls + [call]) == Marked(calls) + call.r.marked
    ensures WithRoom(calls + [call]) == WithRoom(calls) + if call.room then 1 else 0
    ensures Following(call.r).Over? ==> call.r.marked == 0
  {
    hide RowsLeft, Chosen, WithRoom, Covered, Exhausted;
    ChosenLast(calls, call);
    CountLast(calls, call);
    StartCovers(projections, live);
    assert calls == [] ==> WithRoom(calls) == 0 && Chosen(calls) == {} by { NoCalls(); }
    if call.room {
      hide Filled;
      CallCovers(projections, live, room, call.from, Chosen(calls), call.chosen, call.r);
      FilledShortens(projections, live, room, call.from, call.chosen, call.r);
    } else {
      assert Chosen(calls) + {} == Chosen(calls);
    }
  }

  lemma RoundIsPossible(projections: seq<seq<UnfilledRow>>, live: set<DocId>, rounds: seq<Round>, k: nat)
    requires k < |rounds| && Possible(projections, live, rounds)
    ensures RowsLeave(RowsAt(projections, rounds, k), rounds[k].projections)
    ensures NoneAppears(rounds[k].projections, LiveAt(live, rounds, k), rounds[k].live)
    ensures RowsAt(projections, rounds, k + 1) == rounds[k].projections && LiveAt(live, rounds, k + 1) == rounds[k].live
    ensures AllMakeWay(rounds) ==> !rounds[k].remaining && rounds[k].inTime && |rounds[k].marks| < FILL_MARK_CEILING
  {
  }

  lemma FillBegins(projections: seq<seq<UnfilledRow>>, live: set<DocId>, rounds: seq<Round>, on: bool)
    ensures Filling(projections, live, RowsLeft(projections, START), [], if on then NotBegun else Over, on)
    ensures Linked([]) && Marked([]) == 0 && WithRoom([]) == 0
    ensures RowsAt(projections, rounds, 0) == projections && LiveAt(live, rounds, 0) == live
  {
  }

  lemma FillEnds(projections: seq<seq<UnfilledRow>>, live: set<DocId>, budget: nat, calls: seq<Call>, fill: FillState, on: bool,
                 rounds: seq<Round>)
    requires Filling(projections, live, budget, calls, fill, on)
    requires on && AllMakeWay(rounds) ==> fill.Over? || WithRoom(calls) == |rounds|
    ensures WithRoom(calls) <= budget + 1
    ensures on && AllMakeWay(rounds) && |rounds| > budget ==> fill.Over?
    ensures fill.At? ==> Covered(projections, live, fill.cursor, Chosen(calls))
    ensures on && fill.Over? ==>
              forall i, row :: 0 <= i < |projections| && row in projections[i] && row.doc in live ==> row.doc in Chosen(calls)
  {
    hide RowsLeft, Chosen, AllMakeWay;
    NoCalls();
  }

  lemma NoCalls()
    ensures WithRoom([]) == 0 && Marked([]) == 0 && Chosen([]) == {}
  {
  }

  lemma StartCovers(projections: seq<seq<UnfilledRow>>, live: set<DocId>)
    ensures Covered(projections, live, START, {})
  {
  }

  lemma FilledShortens(projections: seq<seq<UnfilledRow>>, live: set<DocId>, room: nat, from: Cursor, chosen: set<DocId>, r: FillResult)
    requires Filled(projections, live, room, from, chosen, r)
    ensures r.cursor.Some? ==> RowsLeft(projections, r.cursor.value) < RowsLeft(projections, from)
    ensures r.cursor.None? ==> RowsLeft(projections, from) == 0 && r.marked == 0
  {
  }

  /**
   * Rounds until the marks are gone, then the fill from where it left off, over and over until the budget is spent, a
   * round gets nowhere, or the fill has read every row.
   *
   * The fill reads with room at most once per unfilled row there was, and once more. When it is over, every row still
   * unfilled belongs to a document some call chose or to one that is gone; with room and time for each call it gets there.
   */
  method RunKnowledgeProjectionPass(table: MarkTable, on: bool, rounds: seq<Round>)
    returns (result: PassResult, fill: FillState, ghost calls: seq<Call>, ghost n: nat)
    requires forall rows :: rows in table.projections ==> InIdOrder(rows)
    requires Possible(table.projections, table.live, rounds)
    modifies table
    ensures PassOver(rounds, n, on, calls, fill, result)
    ensures Linked(calls)
    ensures WithRoom(calls) <= RowsLeft(old(table.projections), START) + 1
    ensures fill.At? ==> Covered(table.projections, table.live, fill.cursor, Chosen(calls))
    ensures on && fill.Over? ==> forall i, row :: 0 <= i < |table.projections| && row in table.projections[i] && row.doc in table.live ==>
                                   row.doc in Chosen(calls)
    ensures on && AllMakeWay(rounds) && |rounds| > RowsLeft(old(table.projections), START) ==> fill.Over?
  {
    hide *;
    ghost var rows0, live0, budget := table.projections, table.live, RowsLeft(table.projections, START);
    fill := if on then NotBegun else Over;
    calls, n := [], 0;
    result := PassResult(0, 0, false, 0);
    FillBegins(rows0, live0, rounds, on);
    TallyBegins(rounds, on, fill, result);
    ghost var ended := false;
    for k := 0 to |rounds|
      invariant table.projections == RowsAt(rows0, rounds, k) && table.live == LiveAt(live0, rounds, k)
      invariant forall rows :: rows in table.projections ==> InIdOrder(rows)
      invariant Filling(table.projections, table.live, budget, calls, fill, on) && (fill.Over? ==> !on) && Linked(calls)
      invariant on && AllMakeWay(rounds) ==> WithRoom(calls) == k
      invariant n == k && !ended && Tally(rounds, n, on, calls, fill, result)
    {
      var round := rounds[k];
      n := k + 1;
      RoundIsPossible(rows0, live0, rounds, k);
      RoundKeepsFilling(table.projections, table.live, round, budget, calls, fill, on);
      ghost var tally, stood := result, fill;
      table.projections, table.live := round.projections, round.live;
      table.locked, table.marks := round.locked, round.marks;
      result := result.(settled := result.settled + round.settled, remaining := round.remaining);
      if round.remaining {
        if round.settled > 0 {
          TallyOn(rounds, k, on, calls, fill, tally, result);
          continue;
        }
        result := result.(deferred := round.deferred);
        TallyStops(rounds, k, on, calls, fill, tally, result);
        ended := true;
        break;
      }
      if fill.Over? || !round.inTime {
        TallyStops(rounds, k, on, calls, fill, tally, result);
        ended := true;
        break;
      }
      var from := From(fill);
      var r;
      ghost var chosen;
      r, chosen := table.MarkUnfilledProjectionDocuments(from);
      ghost var call := Call(k, from, |round.marks| < FILL_MARK_CEILING, chosen, r);
      ghost var room: nat := if call.room then FILL_MARK_CEILING - |round.marks| else 0;
      CallKeepsFilling(table.projections, table.live, room, budget, calls, fill, on, call);
      CallIs(rounds, call, table.marks);
      result := result.(filled := result.filled + r.marked);
      fill := Following(r);
      if r.marked > 0 {
        result := result.(remaining := true);
      }
      TallyCalls(rounds, k, on, calls, stood, call, tally, result);
      calls := calls + [call];
      if r.marked == 0 && fill.Over? {
        TallyOver(rounds, n, on, calls, fill, result);
        ended := true;
        break;
      }
    }
    FillEnds(table.projections, table.live, budget, calls, fill, on, rounds);
    if !ended { TallyDone(rounds, on, calls, fill, result); }
    if fill.At? {
      result := result.(remaining := true);
    }
  }

  /** The pass so far: `n` rounds gone on after, and what has been counted. */
  ghost predicate Tally(rounds: seq<Round>, n: nat, on: bool, calls: seq<Call>, fill: FillState, result: PassResult) {
    && RanOn(rounds, n, on, calls) && RanUntil(rounds, n, on, calls)
    && result.settled == Settled(rounds[..n]) && result.deferred == 0 && result.filled == Marked(calls)
    && (result.remaining ==> fill.At? || (n > 0 && rounds[n - 1].remaining))
    && (n > 0 && rounds[n - 1].remaining ==> result.remaining && rounds[n - 1].settled > 0)
    && fill == FillAfter(on, calls)
  }

  /** Where the fill stands after its calls. */
  function FillAfter(on: bool, calls: seq<Call>): FillState {
    if !on then Over else if calls == [] then NotBegun else Following(calls[|calls| - 1].r)
  }

  /** Which rounds ran, why the pass ended, and what it reports. */
  ghost predicate PassOver(rounds: seq<Round>, n: nat, on: bool, calls: seq<Call>, fill: FillState, result: PassResult) {
    && RanUntil(rounds, n, on, calls) && EndsAfter(rounds, n, on, fill) && fill == FillAfter(on, calls)
    && Reports(rounds, n, calls, fill, result)
  }

  lemma TallyBegins(rounds: seq<Round>, on: bool, fill: FillState, result: PassResult)
    requires fill == (if on then NotBegun else Over) && result == PassResult(0, 0, false, 0)
    ensures Tally(rounds, 0, on, [], fill, result)
  {
    RunsBegin(rounds, on);
    NoCalls();
  }

  lemma TallyOn(rounds: seq<Round>, k: nat, on: bool, calls: seq<Call>, fill: FillState, tally: PassResult, result: PassResult)
    requires k < |rounds| && Tally(rounds, k, on, calls, fill, tally) && rounds[k].remaining && rounds[k].settled > 0
    requires result == tally.(settled := tally.settled + rounds[k].settled, remaining := true)
    ensures Tally(rounds, k + 1, on, calls, fill, result)
  {
    NoCallNext(rounds, k, on, calls);
    SettledNext(rounds, k);
    hide RanOn, RanUntil;
  }

  lemma TallyStops(rounds: seq<Round>, k: nat, on: bool, calls: seq<Call>, fill: FillState, tally: PassResult, result: PassResult)
    requires k < |rounds| && Tally(rounds, k, on, calls, fill, tally)
    requires if rounds[k].remaining then rounds[k].settled == 0 else fill.Over? || !rounds[k].inTime
    requires fill.Over? ==> !on
    requires result == tally.(settled := tally.settled + rounds[k].settled, remaining := rounds[k].remaining,
                              deferred := if rounds[k].remaining then rounds[k].deferred else tally.deferred)
    ensures PassOver(rounds, k + 1, on, calls, fill, if fill.At? then result.(remaining := true) else result)
  {
    NoCallNext(rounds, k, on, calls);
    SettledNext(rounds, k);
    hide RanOn, RanUntil;
  }

  lemma TallyCalls(rounds: seq<Round>, k: nat, on: bool, calls: seq<Call>, fill: FillState, call: Call,
                   tally: PassResult, result: PassResult)
    requires k < |rounds| && Tally(rounds, k, on, calls, fill, tally) && on && call.at == k && IsCall(rounds, call)
    requires !rounds[k].remaining && rounds[k].inTime && (Following(call.r).Over? ==> call.r.marked == 0)
    requires result == tally.(settled := tally.settled + rounds[k].settled, remaining := call.r.marked > 0,
                              filled := tally.filled + call.r.marked)
    ensures Tally(rounds, k + 1, on, calls + [call], Following(call.r), result)
  {
    hide RanOn, RanUntil, IsCall, Marked, Settled, CalledAfter;
    CallNext(rounds, k, on, calls, call);
    SettledNext(rounds, k);
    CountLast(calls, call);
    var all := calls + [call];
    assert all[|all| - 1] == call;
  }

  /** Once the fill has nothing left the pass ends. */
  lemma TallyOver(rounds: seq<Round>, n: nat, on: bool, calls: seq<Call>, fill: FillState, result: PassResult)
    requires Tally(rounds, n, on, calls, fill, result) && 0 < n && !rounds[n - 1].remaining && fill.Over?
    ensures PassOver(rounds, n, on, calls, fill, result)
  {
    hide RanOn, RanUntil, Marked, Settled, FillAfter;
  }

  lemma TallyDone(rounds: seq<Round>, on: bool, calls: seq<Call>, fill: FillState, result: PassResult)
    requires Tally(rounds, |rounds|, on, calls, fill, result)
    ensures PassOver(rounds, |rounds|, on, calls, fill, if fill.At? then result.(remaining := true) else result)
  {
    hide RanOn, RanUntil;
  }

  lemma CallIs(rounds: seq<Round>, call: Call, marks: set<DocId>)
    requires call.at < |rounds| && call.room == (|rounds[call.at].marks| < FILL_MARK_CEILING)
    requires call.room ==> Filled(rounds[call.at].projections, rounds[call.at].live, FILL_MARK_CEILING - |rounds[call.at].marks|, call.from,
                                  call.chosen, call.r)
    requires !call.room ==> call.chosen == {} && call.r == FillResult(0, Some(call.from))
    requires marks == rounds[call.at].marks + (call.chosen - rounds[call.at].locked)
    requires |marks| == |rounds[call.at].marks| + call.r.marked
    ensures IsCall(rounds, call)
  {
  }
}
