/**
 * Sources that end inside a quote or a comment: closing it at the end of the source changes nothing but the text of the
 * last statement, by what closes it. So every source splits as a closed one does.
 */
module SqlClosing {
  import opened Wrappers
  import opened Whitespace
  import opened SqlScanner
  import opened SqlRoundTrip
  import opened SqlReading

  /** What closes a source that ends inside `ending`. A dollar quote's tag goes on a line of its own, so that none appears sooner. */
  function Closer(ending: Mode): string {
    match ending
    case Neutral => "\n"
    case InLine => "\n"
    case InBlock => "*/"
    case InString => "'"
    case InDollar(tag) => "\n" + tag
  }

  predicate IsTag(tag: string) {
    |tag| >= 2 && tag[0] == '$' && tag[|tag| - 1] == '$' && forall k :: 0 < k < |tag| - 1 ==> IsTagLetter(tag[k])
  }

  /** A standing the scanner can reach: inside a quote something has been read of it, and a dollar quote has a tag. */
  predicate Steady(content: string, st: State) {
    && Standing(content, st) && (st.mode.InDollar? ==> IsTag(st.mode.tag))
    && (st.mode.InDollar? || st.mode == InString ==> st.start.Some? && HasText(st.buf))
  }

  predicate HasText(s: string) {
    exists k :: 0 <= k < |s| && !IsSpace(s[k])
  }

  lemma HasMore(a: string, b: string)
    requires HasText(a) || HasText(b)
    ensures HasText(a + b)
  {
    if HasText(a) {
      var k :| 0 <= k < |a| && !IsSpace(a[k]);
      assert (a + b)[k] == a[k];
    } else {
      var k :| 0 <= k < |b| && !IsSpace(b[k]);
      assert (a + b)[|a| + k] == b[k];
    }
  }

  // ----- up to the end nothing changes -----

  lemma {:induction false} LettersBefore(s: string, after: string, i: nat)
    requires i <= |s| && after != "" && !IsTagLetter(after[0])
    ensures Letters(s + after, i) == Letters(s, i) && i + Letters(s, i) <= |s|
    decreases |s| - i
  {
    if i < |s| && IsTagLetter(s[i]) {
      LettersBefore(s, after, i + 1);
    }
  }

  lemma {:induction false} LettersAreLetters(s: string, i: nat, k: nat)
    requires i <= k < i + Letters(s, i)
    ensures k < |s| && IsTagLetter(s[k])
    decreases k - i
  {
    if i < k {
      LettersAreLetters(s, i + 1, k);
    }
  }

  lemma TagBefore(s: string, after: string, i: nat)
    requires i < |s| && after != "" && !IsTagLetter(after[0]) && after[0] != '$'
    ensures TagAt(s + after, i) == TagAt(s, i)
  {
    LettersBefore(s, after, i + 1);
    hide Letters;
    var end := i + 1 + Letters(s, i + 1);
    assert end < |s| ==> (s + after)[i..end + 1] == s[i..end + 1];
  }

  lemma TagIsTag(s: string, i: nat)
    requires TagAt(s, i) != ""
    ensures IsTag(TagAt(s, i))
  {
    var end := i + 1 + Letters(s, i + 1);
    forall k | i + 1 <= k < end ensures k < |s| && IsTagLetter(s[k]) { LettersAreLetters(s, i + 1, k); }
    hide Letters;
    var tag := s[i..end + 1];
    assert forall k :: 0 <= k < |tag| ==> tag[k] == s[i + k];
  }

  lemma CloserBefore(s: string, after: string, i: nat, tag: string)
    requires i < |s| && IsTag(tag) && after != "" && !IsTagLetter(after[0]) && after[0] != '$'
    ensures StartsWith(s + after, i, tag) <==> StartsWith(s, i, tag)
  {
    var all := s + after;
    if i + |tag| <= |s| {
      assert all[i..i + |tag|] == s[i..i + |tag|];
    } else if i + |tag| <= |all| {
      assert all[i..i + |tag|][|s| - i] == after[0];
    }
  }

  /** The source does not end just before a character that would have made more of its last one. */
  predicate Apart(content: string, st: State, ending: Mode)
    requires st.i < |content|
  {
    st.i + 1 == |content| ==>
      && !(ending == InBlock && st.mode == Neutral && content[st.i] == '/')
      && !(ending == InString && st.mode == InString && content[st.i] == '\'')
  }

  /** Up to the closer the scanner turns as it did. */
  lemma TurnBefore(content: string, st: State, ending: Mode)
    requires Steady(content, st) && st.i < |content| && (ending.InDollar? ==> IsTag(ending.tag)) && Apart(content, st, ending)
    ensures var all := content + Closer(ending);
            Steady(all, st) && Turn(all, st) == Turn(content, st) && Splits(all, st) == Splits(content, st)
  {
    var after := Closer(ending);
    TagBefore(content, after, st.i);
    if st.mode.InDollar? { CloserBefore(content, after, st.i, st.mode.tag); }
    hide TagAt, StartsWith, IsTag, HasText;
    assert (content + after)[st.i] == content[st.i];
    assert st.i + 1 < |content| ==> (content + after)[st.i + 1] == content[st.i + 1];
    assert st.i + 1 == |content| ==> (content + after)[st.i + 1] == after[0];
  }

  lemma TurnSteady(content: string, st: State)
    requires Steady(content, st) && st.i < |content|
    ensures Steady(content, Turn(content, st))
  {
    var c := content[st.i];
    var tag := TagAt(content, st.i);
    assert HasText("'") by { assert !IsSpace("'"[0]); }
    if tag != "" {
      TagIsTag(content, st.i);
      assert HasText(tag) by { assert !IsSpace(tag[0]); }
      HasMore(st.buf, tag);
    }
    HasMore(st.buf, "'") ;
    if HasText(st.buf) {
      HasMore(st.buf, "''");
      HasMore(st.buf, [c]);
    }
    hide TagAt, HasText, IsTag, StartsWith;
    assert [c] == "'" <==> c == '\'';
  }

  /** A source that ends inside a block comment or a string did not end its last turn with what would have closed it. */
  lemma LastTurn(content: string, st: State)
    requires Steady(content, st) && st.i < |content|
    ensures Apart(content, st, Scan(content, st).ending)
  {
    if st.i + 1 == |content| {
      var next := Turn(content, st);
      assert next.i == |content|;
      TurnContinues(content, st);
      AtEnd(content, next);
      hide Scan, StartsWith;
    }
  }

  // ----- what the closer adds -----

  /** The last statement with what closed it taken off again. */
  function Unclosed(statements: seq<Statement>, ending: Mode): seq<Statement> {
    if !(ending == InString || ending.InDollar?) || statements == [] then statements
    else
      var last := statements[|statements| - 1];
      statements[..|statements| - 1] + [last.(sql := Without(last.sql, |Closer(ending)|))]
  }

  function Without(sql: string, n: nat): string {
    if n <= |sql| then TrimRight(sql[..|sql| - n]) else sql
  }

  lemma {:induction false} TrimLeftThen(s: string, after: string)
    requires HasText(s)
    ensures TrimLeft(s + after) == TrimLeft(s) + after && TrimLeft(s) != ""
    decreases s
  {
    if IsSpace(s[0]) {
      var k :| 0 <= k < |s| && !IsSpace(s[k]);
      assert s[1..][k - 1] == s[k];
      assert (s + after)[1..] == s[1..] + after;
      TrimLeftThen(s[1..], after);
    }
  }

  /** Taking the closer off a closed text gives the text as it was. */
  lemma ClosedText(buf: string, closer: string)
    requires HasText(buf) && closer != "" && !IsSpace(closer[|closer| - 1])
    ensures Trim(buf + closer) == TrimLeft(buf) + closer && Trim(buf + closer) != ""
    ensures Without(Trim(buf + closer), |closer|) == Trim(buf) && Trim(buf) != ""
  {
    TrimLeftThen(buf, closer);
    var t := TrimLeft(buf);
    assert (t + closer)[|t + closer| - 1] == closer[|closer| - 1];
    assert (t + closer)[..|t|] == t;
    var k :| 0 <= k < |buf| && !IsSpace(buf[k]);
    TrimKeeps(buf, k);
  }

  lemma FlushedClosed(content: string, buf: string, start: Option<nat>, ending: Mode)
    requires start.Some? && start.value <= |content| && HasText(buf) && (ending == InString || (ending.InDollar? && IsTag(ending.tag)))
    ensures Unclosed(Flushed(content + Closer(ending), buf + Closer(ending), start), ending) == Flushed(content, buf, start)
  {
    ClosedText(buf, Closer(ending));
    hide Trim, HasText, Without;
    assert (content + Closer(ending))[..start.value] == content[..start.value];
  }

  lemma FlushedSame(content: string, after: string, buf: string, start: Option<nat>)
    requires start.Some? ==> start.value <= |content|
    ensures Flushed(content + after, buf, start) == Flushed(content, buf, start)
  {
    hide Trim;
    if start.Some? {
      assert (content + after)[..start.value] == content[..start.value];
    }
  }

  /** The closer's own turns, to the end of the closed source. */
  lemma ClosingTurns(content: string, st: State) returns (last: State)
    requires Steady(content, st) && st.i == |content|
    ensures var all := content + Closer(st.mode);
            && Steady(all, st) && Standing(all, last) && last.i == |all| && last.mode == Neutral && last.start == st.start
            && last.buf == (if st.mode == InString || st.mode.InDollar? then st.buf + Closer(st.mode)
                            else if st.mode == Neutral then st.buf + "\n" else st.buf)
            && Scan(all, st) == Scanned(Flushed(all, last.buf, last.start), Neutral)
  {
    var all := content + Closer(st.mode);
    assert all[st.i] == Closer(st.mode)[0];
    assert !Splits(all, st);
    if st.mode == Neutral { assert TagAt(all, st.i) == ""; }
    TurnContinues(all, st);
    last := Turn(all, st);
    if st.mode.InDollar? {
      DollarCloses(all, last, st.mode.tag);
      TurnContinues(all, last);
      last := Turn(all, last);
      assert st.buf + "\n" + st.mode.tag == st.buf + Closer(st.mode);
    }
    AtEnd(all, last);
    hide Scan, Flushed, TagAt;
  }

  /** After the added line break comes the tag. */
  lemma DollarCloses(all: string, st: State, tag: string)
    requires Standing(all, st) && st.mode == InDollar(tag) && IsTag(tag) && st.i + |tag| == |all| && all[st.i..] == tag
    ensures Turn(all, st) == State(|all|, st.buf + tag, st.start, Neutral)
  {
    assert all[st.i] == all[st.i..][0];
    assert all[st.i..st.i + |tag|] == all[st.i..];
  }

  lemma ClosedAtEnd(content: string, st: State)
    requires Steady(content, st) && st.i == |content|
    ensures var all := content + Closer(st.mode);
            && Steady(all, st) && Scan(all, st).ending == Neutral
            && Scan(content, st) == Scanned(Unclosed(Scan(all, st).statements, st.mode), st.mode)
  {
    var last := ClosingTurns(content, st);
    AtEnd(content, st);
    hide Scan, Flushed, Unclosed, Closer, HasText, IsTag;
    if st.mode == InString || st.mode.InDollar? {
      FlushedClosed(content, st.buf, st.start, st.mode);
    } else {
      OtherEndings(content, st, last.buf);
    }
  }

  lemma OtherEndings(content: string, st: State, buf: string)
    requires Standing(content, st) && st.mode != InString && !st.mode.InDollar?
    requires buf == if st.mode == Neutral then st.buf + "\n" else st.buf
    ensures Unclosed(Flushed(content + Closer(st.mode), buf, st.start), st.mode) == Flushed(content, st.buf, st.start)
  {
    FlushedSame(content, Closer(st.mode), buf, st.start);
    TrimThenSpace(st.buf, '\n');
    hide Trim;
  }

  /** Statements before the last are none of the closer's business. */
  lemma UnclosedAfter(first: seq<Statement>, rest: seq<Statement>, ending: Mode)
    requires rest != [] || !(ending == InString || ending.InDollar?)
    ensures Unclosed(first + rest, ending) == first + Unclosed(rest, ending)
  {
    hide Without;
    if rest != [] {
      var all := first + rest;
      assert all[..|all| - 1] == first + rest[..|rest| - 1];
    }
  }

  /** From a standing, closing what the source ends inside changes only the last statement. */
  lemma {:induction false} ClosedScan(content: string, st: State)
    requires Steady(content, st)
    ensures var m := Scan(content, st).ending;
            var all := content + Closer(m);
            && (m.InDollar? ==> IsTag(m.tag)) && Steady(all, st) && Scan(all, st).ending == Neutral
            && Scan(content, st).statements == Unclosed(Scan(all, st).statements, m)
            && (m == InString || m.InDollar? ==> Scan(all, st).statements != [])
    decreases |content| - st.i
  {
    hide Scan, Turn, Flushed, Splits, Unclosed, Closer, IsTag, Steady;
    StandingIs(content, st);
    if st.i == |content| {
      ClosedAtEnd(content, st);
      AtEnd(content, st);
      if st.mode == InString || st.mode.InDollar? { QuotesEmit(content, st); }
    } else {
      TurnSteady(content, st);
      ClosedScan(content, Turn(content, st));
      ScanGoesOn(content, st);
    }
  }

  lemma StandingIs(content: string, st: State)
    requires Steady(content, st)
    ensures Standing(content, st) && st.i <= |content| && (st.mode.InDollar? ==> IsTag(st.mode.tag))
  {
  }

  lemma QuotesEmit(content: string, st: State)
    requires Steady(content, st) && st.i == |content| && (st.mode == InString || st.mode.InDollar?)
    requires Steady(content + Closer(st.mode), st)
    ensures Scan(content + Closer(st.mode), st).statements != []
  {
    var last := ClosingTurns(content, st);
    ClosedText(st.buf, Closer(st.mode));
    hide Trim, HasText, Without, Scan;
  }

  lemma ScanGoesOn(content: string, st: State)
    requires Steady(content, st) && st.i < |content|
    requires var next := Turn(content, st);
             var m := Scan(content, next).ending;
             var all := content + Closer(m);
             && (m.InDollar? ==> IsTag(m.tag)) && Steady(all, next) && Scan(all, next).ending == Neutral
             && Scan(content, next).statements == Unclosed(Scan(all, next).statements, m)
             && (m == InString || m.InDollar? ==> Scan(all, next).statements != [])
    ensures var m := Scan(content, st).ending;
            var all := content + Closer(m);
            && (m.InDollar? ==> IsTag(m.tag)) && Steady(all, st) && Scan(all, st).ending == Neutral
            && Scan(content, st).statements == Unclosed(Scan(all, st).statements, m)
            && (m == InString || m.InDollar? ==> Scan(all, st).statements != [])
  {
    hide Scan, Turn, Flushed, Splits, Unclosed, Closer, IsTag;
    var next := Turn(content, st);
    TurnContinues(content, st);
    var m := Scan(content, st).ending;
    assert m == Scan(content, next).ending;
    var all := content + Closer(m);
    LastTurn(content, st);
    TurnBefore(content, st, m);
    TurnContinues(all, st);
    FlushedSame(content, Closer(m), st.buf, st.start);
    UnclosedAfter(Flushed(content, st.buf, st.start), Scan(all, next).statements, m);
  }

  /**
   * Whatever a source ends inside, closing it makes it closed statements joined by semicolons, and the source splits into
   * those statements but for what closed the last.
   */
  lemma SplitsAsClosed(content: string)
    ensures var m := Scan(content, START).ending;
            && EndsClosed(content + Closer(m)) && Parsed(content) == Unclosed(Parsed(content + Closer(m)), m)
            && exists statements :: AllClosed(statements) && content + Closer(m) == Join(statements)
                                    && Parsed(content) == Unclosed(Expected(statements, ""), m)
  {
    hide Scan, Join, AllClosed, Expected, Unclosed, Closer;
    ClosedScan(content, START);
    var m := Scan(content, START).ending;
    ClosedExactlyWhenJoined(content + Closer(m));
    var statements :| AllClosed(statements) && content + Closer(m) == Join(statements);
    ClosedParses(statements);
  }

  lemma ClosedParses(statements: seq<seq<Piece>>)
    requires AllClosed(statements)
    ensures Parsed(Join(statements)) == Expected(statements, "")
  {
    SplittingUndoesJoining(statements);
  }
}
