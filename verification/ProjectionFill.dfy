/**
 * The fill that marks documents of projection rows no source or ACL has reached yet. Each mark it
 * adds is one `Fill` step of the protocol.
 */
module ProjectionFill {
  import opened Wrappers
  import opened ProjectionModel

  const FILL_SCAN_ROWS: nat := 2_000
  const FILL_MARK_CEILING: nat := 100

  datatype UnfilledRow = UnfilledRow(id: nat, doc: DocId)

  /** Where to continue: a projection, and the row id to read past. -1 is before every id. */
  datatype Cursor = Cursor(projection: nat, afterId: int)

  /** The unfilled rows of one projection, as its index holds them. */
  ghost predicate InIdOrder(rows: seq<UnfilledRow>) {
    forall j, k :: 0 <= j < k < |rows| ==> rows[j].id < rows[k].id
  }

  /** How many rows a projection's index holds at or below an id. */
  function RowsUpTo(rows: seq<UnfilledRow>, id: int): (k: nat)
    ensures k <= |rows|
    ensures InIdOrder(rows) ==> forall j :: 0 <= j < |rows| ==> (j < k <==> rows[j].id <= id)
  {
    if rows == [] then 0
    else if rows[|rows| - 1].id <= id then |rows|
    else RowsUpTo(rows[..|rows| - 1], id)
  }

  /** The rows one statement scans. */
  function Scanned(rows: seq<UnfilledRow>, afterId: int): seq<UnfilledRow> {
    var past := rows[RowsUpTo(rows, afterId)..];
    if |past| > FILL_SCAN_ROWS then past[..FILL_SCAN_ROWS] else past
  }

  /** `k` is the first scanned row of its document. */
  ghost predicate IsFirstRow(scanned: seq<UnfilledRow>, k: int) {
    0 <= k < |scanned| && forall j :: 0 <= j < k ==> scanned[j].doc != scanned[k].doc
  }

  ghost predicate HasFirstRow(scanned: seq<UnfilledRow>, d: DocId) {
    exists k :: IsFirstRow(scanned, k) && scanned[k].doc == d
  }

  /** An unfilled row of an existing document that was not chosen. */
  ghost predicate LeftOut(scanned: seq<UnfilledRow>, live: set<DocId>, chosen: set<DocId>, k: int) {
    0 <= k < |scanned| && scanned[k].doc in live && scanned[k].doc !in chosen
  }

  /**
   * The documents the statement chooses: existing ones, in the order of their first row scanned,
   * as many as there is room for.
   */
  ghost predicate Chooses(scanned: seq<UnfilledRow>, live: set<DocId>, room: nat, chosen: set<DocId>) {
    && |chosen| <= room
    && (forall d :: d in chosen ==> d in live && HasFirstRow(scanned, d))
    && (forall j, k :: IsFirstRow(scanned, j) && scanned[j].doc in chosen && LeftOut(scanned, live, chosen, k) ==> j < k)
    && (|chosen| < room ==> forall k :: !LeftOut(scanned, live, chosen, k))
  }

  /** The rows passed: all of them, or those before the first row left out. */
  ghost predicate Passes(scanned: seq<UnfilledRow>, live: set<DocId>, chosen: set<DocId>, passed: int) {
    && 0 <= passed <= |scanned|
    && (forall k :: 0 <= k < passed ==> !LeftOut(scanned, live, chosen, k))
    && (passed < |scanned| ==> LeftOut(scanned, live, chosen, passed))
  }

  lemma {:induction false} FirstRowExists(scanned: seq<UnfilledRow>, i: int) returns (k: int)
    requires 0 <= i < |scanned|
    ensures k <= i && IsFirstRow(scanned, k) && scanned[k].doc == scanned[i].doc
    decreases i
  {
    k := i;
    if !IsFirstRow(scanned, i) {
      var j :| 0 <= j < i && scanned[j].doc == scanned[i].doc;
      k := FirstRowExists(scanned, j);
    }
  }

  lemma FirstRowIsUnique(scanned: seq<UnfilledRow>, j: int, k: int)
    requires IsFirstRow(scanned, j) && IsFirstRow(scanned, k) && scanned[j].doc == scanned[k].doc
    ensures j == k
  {
  }

  /** What the scan knows after `i` rows: everything so far was chosen or is gone, and nothing later was. */
  ghost predicate ScannedTo(scanned: seq<UnfilledRow>, live: set<DocId>, room: nat, chosen: set<DocId>, i: int) {
    && 0 <= i <= |scanned| && |chosen| <= room
    && (forall k :: 0 <= k < i ==> !LeftOut(scanned, live, chosen, k))
    && forall d :: d in chosen ==> d in live && exists k :: IsFirstRow(scanned, k) && scanned[k].doc == d && k < i
  }

  lemma ScanStops(scanned: seq<UnfilledRow>, live: set<DocId>, room: nat, chosen: set<DocId>, i: int)
    requires ScannedTo(scanned, live, room, chosen, i)
    requires i == |scanned| || (LeftOut(scanned, live, chosen, i) && |chosen| == room)
    ensures Chooses(scanned, live, room, chosen) && Passes(scanned, live, chosen, i)
  {
    forall j, k | IsFirstRow(scanned, j) && scanned[j].doc in chosen && LeftOut(scanned, live, chosen, k) ensures j < k {
      var first :| IsFirstRow(scanned, first) && scanned[first].doc == scanned[j].doc && first < i;
      FirstRowIsUnique(scanned, j, first);
    }
  }

  lemma ScanChooses(scanned: seq<UnfilledRow>, live: set<DocId>, room: nat, chosen: set<DocId>, i: int)
    requires ScannedTo(scanned, live, room, chosen, i) && i < |scanned|
    requires LeftOut(scanned, live, chosen, i) && |chosen| < room
    ensures ScannedTo(scanned, live, room, chosen + {scanned[i].doc}, i + 1)
  {
    var k := FirstRowExists(scanned, i);
    assert forall j :: 0 <= j < i ==> !LeftOut(scanned, live, chosen, j);
    assert k < i ==> LeftOut(scanned, live, chosen, k);
    var chosen' := chosen + {scanned[i].doc};
    forall d | d in chosen' ensures d in live && exists k :: IsFirstRow(scanned, k) && scanned[k].doc == d && k < i + 1 {
      if d in chosen {
        var f :| IsFirstRow(scanned, f) && scanned[f].doc == d && f < i;
      }
    }
    assert forall j :: 0 <= j < i + 1 ==> LeftOut(scanned, live, chosen', j) ==> LeftOut(scanned, live, chosen, j);
  }

  /**
   * The fill statement over one projection's index: which documents it chooses, and how many of
   * the scanned rows the cursor may move past.
   */
  method ChooseDocuments(scanned: seq<UnfilledRow>, live: set<DocId>, room: nat) returns (chosen: set<DocId>, passed: nat)
    ensures Chooses(scanned, live, room, chosen) && Passes(scanned, live, chosen, passed)
    ensures room > 0 && scanned != [] ==> passed > 0
  {
    chosen := {};
    passed := 0;
    while passed < |scanned| && (scanned[passed].doc !in live || scanned[passed].doc in chosen || |chosen| < room)
      invariant ScannedTo(scanned, live, room, chosen, passed)
    {
      if scanned[passed].doc in live && scanned[passed].doc !in chosen {
        ScanChooses(scanned, live, room, chosen, passed);
        chosen := chosen + {scanned[passed].doc};
      }
      passed := passed + 1;
    }
    ScanStops(scanned, live, room, chosen, passed);
  }

  datatype FillResult = FillResult(marked: nat, cursor: Option<Cursor>)

  /** The unfilled rows a cursor has yet to pass. */
  function RowsLeft(projections: seq<seq<UnfilledRow>>, cursor: Cursor): nat
    decreases |projections| - cursor.projection
  {
    if cursor.projection >= |projections| then 0
    else |projections[cursor.projection]| - RowsUpTo(projections[cursor.projection], cursor.afterId)
         + RowsLeft(projections, Cursor(cursor.projection + 1, -1))
  }

  /** Every unfilled row the call moved past belongs to a chosen document or to one that is gone. */
  ghost predicate PassedOver(rows: seq<UnfilledRow>, from: int, to: int, live: set<DocId>, chosen: set<DocId>) {
    forall k :: 0 <= k < |rows| && from < rows[k].id <= to && rows[k].doc in live ==> rows[k].doc in chosen
  }

  /**
   * What one statement takes of a projection's rows in id order: those from the first past the cursor up to the last it
   * passes, at most a scan of them. It chooses just the existing documents of those rows, and stops at the end, at the
   * end of its scan, or with no room left before a row of one more document.
   */
  ghost predicate Takes(rows: seq<UnfilledRow>, live: set<DocId>, room: nat, from: int, to: int, chosen: set<DocId>) {
    exists a: nat, b: nat :: TakesRows(rows, live, room, from, to, chosen, a, b)
  }

  ghost predicate TakesRows(rows: seq<UnfilledRow>, live: set<DocId>, room: nat, from: int, to: int, chosen: set<DocId>, a: nat, b: nat) {
    && a < b <= |rows| && b - a <= FILL_SCAN_ROWS
    && (forall k :: 0 <= k < |rows| ==> (rows[k].id <= from <==> k < a))
    && rows[b - 1].id == to
    && (forall d :: d in chosen <==> d in live && exists k :: a <= k < b && rows[k].doc == d)
    && |chosen| <= room
    && (b == |rows| || b - a == FILL_SCAN_ROWS || (|chosen| == room && rows[b].doc in live && rows[b].doc !in chosen))
  }

  lemma TakesIs(rows: seq<UnfilledRow>, live: set<DocId>, room: nat, afterId: int, chosen: set<DocId>, passed: nat)
    requires InIdOrder(rows) && 0 < passed <= |Scanned(rows, afterId)|
    requires Chooses(Scanned(rows, afterId), live, room, chosen) && Passes(Scanned(rows, afterId), live, chosen, passed)
    ensures Takes(rows, live, room, afterId, Scanned(rows, afterId)[passed - 1].id, chosen)
  {
    var a := RowsUpTo(rows, afterId);
    var scanned := Scanned(rows, afterId);
    var b := a + passed;
    forall k | 0 <= k < |scanned| ensures scanned[k] == rows[a + k] {}
    hide Scanned, RowsUpTo, InIdOrder;
    forall d ensures d in chosen <==> d in live && exists k :: a <= k < b && rows[k].doc == d {
      ChosenArePassed(scanned, live, room, chosen, passed, d);
      assert forall k :: a <= k < b ==> rows[k] == scanned[k - a];
    }
    assert passed < |scanned| ==> rows[b] == scanned[passed];
    assert TakesRows(rows, live, room, afterId, scanned[passed - 1].id, chosen, a, b);
  }

  /** The documents chosen are those of the rows passed. */
  lemma ChosenArePassed(scanned: seq<UnfilledRow>, live: set<DocId>, room: nat, chosen: set<DocId>, passed: nat, d: DocId)
    requires Chooses(scanned, live, room, chosen) && Passes(scanned, live, chosen, passed)
    ensures d in chosen <==> d in live && exists k :: 0 <= k < passed && scanned[k].doc == d
  {
    if d in chosen {
      var k :| IsFirstRow(scanned, k) && scanned[k].doc == d;
      assert passed < |scanned| ==> LeftOut(scanned, live, chosen, passed);
      assert 0 <= k < passed;
    }
    if d in live && exists k :: 0 <= k < passed && scanned[k].doc == d {
      var k :| 0 <= k < passed && scanned[k].doc == d;
      assert !LeftOut(scanned, live, chosen, k);
    }
  }

  lemma ScannedIsNext(rows: seq<UnfilledRow>, afterId: int, passed: nat, live: set<DocId>, chosen: set<DocId>)
    requires InIdOrder(rows) && 0 < passed <= |Scanned(rows, afterId)|
    requires forall k :: 0 <= k < passed ==> !LeftOut(Scanned(rows, afterId), live, chosen, k)
    ensures var last := Scanned(rows, afterId)[passed - 1].id;
            && last > afterId && PassedOver(rows, afterId, last, live, chosen)
            && RowsUpTo(rows, last) == RowsUpTo(rows, afterId) + passed
  {
    var n := RowsUpTo(rows, afterId);
    var scanned := Scanned(rows, afterId);
    assert forall k :: 0 <= k < |scanned| ==> scanned[k] == rows[n + k];
    var last := scanned[passed - 1].id;
    assert last == rows[n + passed - 1].id;
    forall k | 0 <= k < |rows| && afterId < rows[k].id <= last && rows[k].doc in live ensures rows[k].doc in chosen {
      assert n <= k < n + passed;
      assert !LeftOut(scanned, live, chosen, k - n);
    }
    var m := RowsUpTo(rows, last);
    assert n + passed - 1 < m;
    assert m < |rows| ==> rows[m].id > last;
    assert n + passed < |rows| ==> rows[n + passed].id > last;
  }

  /** Where a call stands in projection `index`: at the cursor in its own projection, before every row in a later one. */
  function Here(cursor: Cursor, index: nat): Cursor {
    if index == cursor.projection then cursor else Cursor(index, -1)
  }

  /** Projection `i` has no unfilled row past where the call started reading it. */
  predicate Exhausted(projections: seq<seq<UnfilledRow>>, cursor: Cursor, i: int)
  {
    cursor.projection <= i < |projections| && RowsUpTo(projections[i], Here(cursor, i).afterId) == |projections[i]|
  }

  /** What a call with room does: it moves the cursor on over chosen documents' rows, or nothing is left. */
  ghost predicate Filled(projections: seq<seq<UnfilledRow>>, live: set<DocId>, room: nat, cursor: Cursor, chosen: set<DocId>, r: FillResult) {
    match r.cursor
    case None => RowsLeft(projections, cursor) == 0 && r.marked == 0 && chosen == {}
    case Some(next) =>
      && cursor.projection <= next.projection < |projections|
      && RowsLeft(projections, next) < RowsLeft(projections, cursor)
      && (forall i :: cursor.projection <= i < next.projection ==> Exhausted(projections, cursor, i))
      && PassedOver(projections[next.projection], Here(cursor, next.projection).afterId, next.afterId, live, chosen)
      && Takes(projections[next.projection], live, room, Here(cursor, next.projection).afterId, next.afterId, chosen)
  }

  lemma NothingLeft(projections: seq<seq<UnfilledRow>>, here: Cursor)
    requires here.projection >= |projections|
    ensures RowsLeft(projections, here) == 0
  {
  }

  lemma CursorAdvances(projections: seq<seq<UnfilledRow>>, here: Cursor, last: int)
    requires here.projection < |projections|
    requires RowsUpTo(projections[here.projection], last) > RowsUpTo(projections[here.projection], here.afterId)
    ensures RowsLeft(projections, Cursor(here.projection, last)) < RowsLeft(projections, here)
  {
  }

  lemma ProjectionExhausted(projections: seq<seq<UnfilledRow>>, here: Cursor)
    requires here.projection < |projections|
    requires RowsUpTo(projections[here.projection], here.afterId) == |projections[here.projection]|
    ensures RowsLeft(projections, here) == RowsLeft(projections, Cursor(here.projection + 1, -1))
  {
  }

  class MarkTable {
    /** Documents whose rows exist, and those whose row a writer holds locked. */
    var live: set<DocId>
    var locked: set<DocId>
    /** The unfilled rows of each projection that mirrors source and ACL, in index order. */
    var projections: seq<seq<UnfilledRow>>
    var marks: set<DocId>

    constructor (live: set<DocId>, locked: set<DocId>, projections: seq<seq<UnfilledRow>>, marks: set<DocId>)
      ensures this.live == live && this.locked == locked && this.projections == projections && this.marks == marks
    {
      this.live, this.locked, this.projections, this.marks := live, locked, projections, marks;
    }

    /**
     * Marks documents of unfilled rows past the cursor while there is room under the ceiling. The
     * cursor never passes an unfilled row of an existing document that was not chosen, and it
     * comes back empty only once no unfilled row is left past it.
     */
    method MarkUnfilledProjectionDocuments(cursor: Cursor) returns (r: FillResult, ghost chosen: set<DocId>)
      requires forall rows :: rows in projections ==> InIdOrder(rows)
      modifies this`marks
      ensures |old(marks)| >= FILL_MARK_CEILING ==> marks == old(marks) && r == FillResult(0, Some(cursor)) && chosen == {}
      ensures |old(marks)| < FILL_MARK_CEILING ==>
                |marks| <= FILL_MARK_CEILING && Filled(projections, live, FILL_MARK_CEILING - |old(marks)|, cursor, chosen, r)
      ensures marks == old(marks) + (chosen - locked) && |marks| == |old(marks)| + r.marked && chosen <= live
    {
      hide Filled, InIdOrder;
      var outstanding := |marks|;
      if outstanding >= FILL_MARK_CEILING {
        return FillResult(0, Some(cursor)), {};
      }
      r, chosen := FillFrom(cursor, FILL_MARK_CEILING - outstanding);
    }

    /** Tries each projection from the cursor on, until one has unfilled rows. */
    method FillFrom(cursor: Cursor, room: nat) returns (r: FillResult, chosen: set<DocId>)
      requires (forall rows :: rows in projections ==> InIdOrder(rows)) && room > 0
      modifies this`marks
      ensures Filled(projections, live, room, cursor, chosen, r)
      ensures marks == old(marks) + (chosen - locked) && |marks| == |old(marks)| + r.marked && r.marked <= room && chosen <= live
    {
      hide PassedOver, RowsUpTo, InIdOrder, RowsLeft, Takes;
      var index := cursor.projection;
      while index < |projections|
        invariant cursor.projection <= index && marks == old(marks)
        invariant RowsLeft(projections, cursor) == RowsLeft(projections, Here(cursor, index))
        invariant forall i :: cursor.projection <= i < index ==> Exhausted(projections, cursor, i)
        decreases |projections| - index
      {
        var here := Here(cursor, index);
        var marked, last, picked := FillProjection(index, here.afterId, room);
        if last.Some? {
          CursorAdvances(projections, here, last.value);
          return FillResult(marked, Some(Cursor(index, last.value))), picked;
        }
        ProjectionExhausted(projections, here);
        index := index + 1;
      }
      NothingLeft(projections, Here(cursor, index));
      return FillResult(0, None), {};
    }

    /** One projection's statement: scans its next unfilled rows and marks the documents it chooses. */
    method FillProjection(index: nat, afterId: int, room: nat) returns (marked: nat, last: Option<int>, chosen: set<DocId>)
      requires index < |projections| && InIdOrder(projections[index]) && room > 0
      modifies this`marks
      ensures marks == old(marks) + (chosen - locked) && chosen <= live && |chosen| <= room
      ensures |marks| == |old(marks)| + marked && marked <= room
      ensures last.None? ==> marked == 0 && chosen == {} && RowsUpTo(projections[index], afterId) == |projections[index]|
      ensures last.Some? ==> Takes(projections[index], live, room, afterId, last.value, chosen)
      ensures last.Some? ==> PassedOver(projections[index], afterId, last.value, live, chosen)
                             && RowsUpTo(projections[index], last.value) > RowsUpTo(projections[index], afterId)
    {
      var rows := projections[index];
      var scanned := Scanned(rows, afterId);
      if |scanned| == 0 {
        return 0, None, {};
      }
      var passed;
      chosen, passed := ChooseDocuments(scanned, live, room);
      ScannedIsNext(rows, afterId, passed, live, chosen);
      TakesIs(rows, live, room, afterId, chosen, passed);
      MarkedSize(marks, chosen, locked);
      hide PassedOver, RowsUpTo, Scanned, Passes, InIdOrder, Takes;
      marked := |marks + (chosen - locked)| - |marks|;
      marks := marks + (chosen - locked);
      last := Some(scanned[passed - 1].id);
    }
  }

  lemma MarkedSize(marks: set<DocId>, picked: set<DocId>, locked: set<DocId>)
    ensures |marks| <= |marks + (picked - locked)| <= |marks| + |picked|
  {
    var added := (picked - locked) - marks;
    assert marks + (picked - locked) == marks + added;
    assert picked == added + (picked - added);
  }
}
