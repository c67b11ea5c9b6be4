/** Sources that end inside a line comment: a line break at the end closes it and changes nothing else. */
module SqlLastLine {
  import opened Wrappers
  import opened Whitespace
  import opened SqlScanner
  import opened SqlRoundTrip
  import opened SqlReading

  /** A standing whose dollar quote, if any, could not close across the end of the source. */
  predicate Steady(content: string, st: State) {
    Standing(content, st) && (st.mode.InDollar? ==> st.mode.tag[|st.mode.tag| - 1] == '$')
  }

  lemma {:induction false} LettersBeforeBreak(s: string, i: nat)
    requires i <= |s|
    ensures Letters(s + "\n", i) == Letters(s, i) && i + Letters(s, i) <= |s|
    decreases |s| - i
  {
    if i < |s| && IsTagLetter(s[i]) {
      LettersBeforeBreak(s, i + 1);
    }
  }

  lemma TagBeforeBreak(s: string, i: nat)
    requires i < |s|
    ensures TagAt(s + "\n", i) == TagAt(s, i)
    ensures TagAt(s, i) != "" ==> TagAt(s, i)[|TagAt(s, i)| - 1] == '$'
  {
    LettersBeforeBreak(s, i + 1);
    hide Letters;
    var end := i + 1 + Letters(s, i + 1);
    assert end < |s| ==> (s + "\n")[i..end + 1] == s[i..end + 1];
  }

  lemma CloserBeforeBreak(s: string, i: nat, tag: string)
    requires i < |s| && tag != "" && tag[|tag| - 1] == '$'
    ensures StartsWith(s + "\n", i, tag) <==> StartsWith(s, i, tag)
  {
    var all := s + "\n";
    if i + |tag| <= |s| {
      assert all[i..i + |tag|] == s[i..i + |tag|];
    } else if i + |tag| == |all| {
      assert all[i..i + |tag|][|tag| - 1] == '\n';
    }
  }

  /** Up to the added line break the scanner turns as it did. */
  lemma TurnBeforeBreak(content: string, st: State)
    requires Steady(content, st) && st.i < |content|
    ensures Steady(content + "\n", st) && Steady(content, Turn(content, st))
    ensures Turn(content + "\n", st) == Turn(content, st) && Splits(content + "\n", st) == Splits(content, st)
  {
    TagBeforeBreak(content, st.i);
    if st.mode.InDollar? { CloserBeforeBreak(content, st.i, st.mode.tag); }
    hide TagAt, StartsWith;
    assert (content + "\n")[st.i] == content[st.i];
  }

  lemma FlushedBeforeBreak(content: string, buf: string, start: Option<nat>)
    requires start.Some? ==> start.value <= |content|
    ensures Flushed(content + "\n", buf, start) == Flushed(content, buf, start)
    ensures Flushed(content + "\n", buf + "\n", start) == Flushed(content, buf, start)
  {
    TrimThenSpace(buf, '\n');
    hide Trim;
    if start.Some? {
      assert (content + "\n")[..start.value] == content[..start.value];
    }
  }

  /** What an added line break leaves open: it ends a line comment and nothing else. */
  function Broken(ending: Mode): Mode {
    if ending == InLine then Neutral else ending
  }

  lemma BreakAtEnd(content: string, st: State)
    requires Steady(content, st) && st.i == |content|
    ensures var all := content + "\n";
            Steady(all, st) && Scan(all, st).ending == Broken(st.mode)
            && (Broken(st.mode) == Neutral ==> Scan(all, st).statements == Flushed(content, st.buf, st.start))
  {
    var all := content + "\n";
    assert all[st.i] == '\n' && !Splits(all, st);
    FlushedBeforeBreak(content, st.buf, st.start);
    assert TagAt(all, st.i) == "";
    var next := Turn(all, st);
    assert next.i == |all|;
    TurnContinues(all, st);
    AtEnd(all, next);
    hide Scan, Flushed, TagAt;
  }

  lemma {:induction false} ScanBeforeBreak(content: string, st: State)
    requires Steady(content, st)
    ensures var all := content + "\n";
            && Steady(all, st) && Scan(all, st).ending == Broken(Scan(content, st).ending)
            && (Broken(Scan(content, st).ending) == Neutral ==> Scan(all, st).statements == Scan(content, st).statements)
    decreases |content| - st.i
  {
    hide Scan, Turn, Flushed, Splits;
    if st.i == |content| {
      BreakAtEnd(content, st);
      AtEnd(content, st);
    } else {
      TurnBeforeBreak(content, st);
      FlushedBeforeBreak(content, st.buf, st.start);
      TurnContinues(content, st);
      TurnContinues(content + "\n", st);
      ScanBeforeBreak(content, Turn(content, st));
    }
  }

  /** A source that ends outside quotes, at most inside a line comment. */
  predicate EndsReadable(content: string) {
    var ending := Scan(content, START).ending;
    ending == Neutral || ending == InLine
  }

  /**
   * A source ends outside quotes and block comments exactly when a line break after it makes it closed statements
   * joined by semicolons, and then it splits into the statements of that joining.
   */
  lemma ReadableExactlyWhenJoined(content: string)
    ensures EndsReadable(content) <==> exists statements :: AllClosed(statements) && content + "\n" == Join(statements)
    ensures forall statements :: AllClosed(statements) && content + "\n" == Join(statements) ==>
              Parsed(content) == Expected(statements, "")
  {
    hide Scan, Join, AllClosed, Expected;
    ScanBeforeBreak(content, START);
    ClosedExactlyWhenJoined(content + "\n");
    forall statements | AllClosed(statements) && content + "\n" == Join(statements)
      ensures Parsed(content) == Expected(statements, "")
    {
      JoiningParses(statements);
    }
  }

  lemma JoiningParses(statements: seq<seq<Piece>>)
    requires AllClosed(statements)
    ensures Parsed(Join(statements)) == Expected(statements, "") && EndsClosed(Join(statements))
  {
    SplittingUndoesJoining(statements);
  }
}
