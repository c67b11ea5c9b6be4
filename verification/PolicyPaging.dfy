/**
 * Paging under a database order of its own. The store orders and compares ids as its collation does, the check on a page
 * as JavaScript does; the pages are read to the end exactly when the two agree where it matters.
 */
module PolicyPaging {
  import opened Wrappers
  import opened PolicyDocuments
  import opened PolicyStore
  import opened PolicyReconciliation

  /** A strict order the database may have, the empty string first. */
  ghost predicate IsOrder(sql: (string, string) -> bool) {
    && (forall a, b :: sql(a, b) ==> !sql(b, a))
    && (forall a, b, c :: sql(a, b) && sql(b, c) ==> sql(a, c))
    && (forall a :: a != "" ==> sql("", a))
  }

  /** Ids as the database orders them. */
  ghost predicate InOrder(sql: (string, string) -> bool, ids: seq<string>) {
    "" !in ids && forall j, k :: 0 <= j < k < |ids| ==> sql(ids[j], ids[k])
  }

  /** The next `limit` ids past `after` in the database's order. */
  ghost predicate IsSqlPage(sql: (string, string) -> bool, rows: seq<string>, ids: seq<string>, after: string, limit: nat) {
    && |rows| <= limit
    && (forall j, k :: 0 <= j < k < |rows| ==> sql(rows[j], rows[k]))
    && (forall k :: 0 <= k < |rows| ==> rows[k] in ids && sql(after, rows[k]))
    && (forall id :: id in ids && sql(after, id) && id !in rows ==> |rows| == limit && forall k :: 0 <= k < |rows| ==> sql(rows[k], id))
  }

  function End(ids: seq<string>, from: nat, batchSize: nat): (end: nat)
    requires from <= |ids|
    ensures from <= end <= |ids|
  {
    if from + batchSize <= |ids| then from + batchSize else |ids|
  }

  function After(ids: seq<string>, from: nat): string
    requires from <= |ids|
  {
    if from == 0 then "" else ids[from - 1]
  }

  lemma EarlierIsNotPast(sql: (string, string) -> bool, ids: seq<string>, from: nat, i: nat)
    requires IsOrder(sql) && InOrder(sql, ids) && i < from <= |ids|
    ensures !sql(After(ids, from), ids[i])
  {
    if i < from - 1 {
      assert sql(ids[i], ids[from - 1]);
    }
  }

  /** The page after `from` ids is the next stretch of them. */
  lemma StretchIsPage(sql: (string, string) -> bool, ids: seq<string>, from: nat, batchSize: nat)
    requires IsOrder(sql) && InOrder(sql, ids) && from <= |ids|
    ensures IsSqlPage(sql, ids[from..End(ids, from, batchSize)], ids, After(ids, from), batchSize)
  {
    var end := End(ids, from, batchSize);
    var rows := ids[from..end];
    forall j | from <= j < end ensures ids[j] in rows {
      assert rows[j - from] == ids[j];
    }
    forall i | 0 <= i < from ensures !sql(After(ids, from), ids[i]) {
      EarlierIsNotPast(sql, ids, from, i);
    }
    forall id | id in ids && sql(After(ids, from), id) && id !in rows
      ensures |rows| == batchSize && forall k :: 0 <= k < |rows| ==> sql(rows[k], id)
    {
      var i :| 0 <= i < |ids| && ids[i] == id;
    }
  }

  /** Each page ends past the page before it, as JavaScript compares. */
  predicate Advances(ids: seq<string>, from: nat, batchSize: nat)
    requires from <= |ids| && batchSize > 0
    decreases |ids| - from
  {
    from == |ids|
    || (Less(After(ids, from), ids[End(ids, from, batchSize) - 1]) && Advances(ids, End(ids, from, batchSize), batchSize))
  }

  /** The paging both loops do: a page is refused as non-advancing exactly when some page does not end past the last. */
  method ReadPages(ids: seq<string>, batchSize: nat) returns (r: Result<nat, Failure>)
    requires batchSize > 0
    ensures r == if Advances(ids, 0, batchSize) then Ok(|ids|) else Err(NonAdvancingPage)
  {
    hide Less;
    var from := 0;
    while true
      invariant from <= |ids| && Advances(ids, from, batchSize) == Advances(ids, 0, batchSize)
      decreases |ids| - from
    {
      var end := End(ids, from, batchSize);
      var rows := ids[from..end];
      var page := AssertPage(rows, After(ids, from), batchSize);
      if page.Err? {
        return Err(page.error);
      }
      if page.value.None? {
        return Ok(from);
      }
      from := end;
    }
  }

  // ----- when orders disagree -----

  lemma {:induction false} AgreeingPagesAdvance(sql: (string, string) -> bool, ids: seq<string>, from: nat, batchSize: nat)
    requires InOrder(sql, ids) && from <= |ids| && batchSize > 0
    requires forall a, b :: a != "" && b != "" && sql(a, b) ==> Less(a, b)
    ensures Advances(ids, from, batchSize)
    decreases |ids| - from
  {
    if from < |ids| {
      var last := ids[End(ids, from, batchSize) - 1];
      assert last in ids;
      if from > 0 { assert ids[from - 1] in ids && sql(ids[from - 1], last); }
      AgreeingPagesAdvance(sql, ids, End(ids, from, batchSize), batchSize);
    }
  }

  /** No page of any table is ever refused exactly when the database orders every two ids as JavaScript does. */
  lemma NeverRefusedExactlyWhenOrdersAgree(sql: (string, string) -> bool)
    requires IsOrder(sql)
    ensures (forall ids, batchSize: nat :: InOrder(sql, ids) && batchSize > 0 ==> Advances(ids, 0, batchSize))
            <==> (forall a, b :: a != "" && b != "" && sql(a, b) ==> Less(a, b))
  {
    if forall a, b :: a != "" && b != "" && sql(a, b) ==> Less(a, b) {
      forall ids, batchSize: nat | InOrder(sql, ids) && batchSize > 0 ensures Advances(ids, 0, batchSize) {
        AgreeingPagesAdvance(sql, ids, 0, batchSize);
      }
    } else {
      var a, b :| a != "" && b != "" && sql(a, b) && !Less(a, b);
      DisagreementStops(a, b);
      assert InOrder(sql, [a, b]);
    }
  }

  /** Two ids the database puts in the other order, read one at a time, stop the loop. */
  lemma DisagreementStops(a: string, b: string)
    requires !Less(a, b)
    ensures !Advances([a, b], 0, 1)
  {
    hide Less;
    assert End([a, b], 0, 1) == 1 && End([a, b], 1, 1) == 2;
    assert !Advances([a, b], 1, 1);
  }
}
