/** Every source that ends outside quotes and comments is a joining of closed statements. */
module SqlReading {
  import opened Wrappers
  import opened SqlScanner
  import opened SqlRoundTrip

  /** A standing from which the rest of the source closes whatever it opens. */
  ghost predicate Closes(content: string, st: State) {
    Standing(content, st) && Scan(content, st).ending == Neutral
  }

  lemma OpenIsNotAtEnd(content: string, st: State)
    requires Closes(content, st) && st.mode != Neutral
    ensures st.i < |content| && Closes(content, Turn(content, st))
  {
  }

  lemma TurnCloses(content: string, st: State)
    requires Closes(content, st) && st.i < |content|
    ensures Closes(content, Turn(content, st))
  {
    TurnContinues(content, st);
  }

  lemma Rest(content: string, i: nat, k: nat)
    requires i + k <= |content|
    ensures content[i..] == content[i..i + k] + content[i + k..]
  {
  }

  lemma OneOn(content: string, i: nat)
    requires i < |content|
    ensures content[i..] == [content[i]] + content[i + 1..]
  {
  }

  lemma TwoOn(content: string, i: nat)
    requires i + 1 < |content|
    ensures content[i..] == [content[i], content[i + 1]] + content[i + 2..]
  {
  }

  // ----- what is open is closed somewhere -----

  /** What one turn inside a string takes, up to its closing quote. */
  lemma StringStep(content: string, st: State) returns (taken: string)
    requires Closes(content, st) && st.mode == InString
    ensures st.i < |content| && var next := Turn(content, st);
            && Closes(content, next) && next.i == st.i + |taken| && |taken| > 0
            && content[st.i..] == taken + content[next.i..]
            && (next.mode == Neutral ==> taken == "'" && !Is(content, next.i, '\''))
            && (next.mode != Neutral ==> next.mode == InString && (taken == "''" || (|taken| == 1 && taken[0] != '\'')))
  {
    OpenIsNotAtEnd(content, st);
    hide Closes;
    if content[st.i] == '\'' && Is(content, st.i + 1, '\'') {
      TwoOn(content, st.i);
      taken := "''";
    } else {
      OneOn(content, st.i);
      taken := [content[st.i]];
    }
  }

  lemma EscapedGrows(taken: string, more: string, rest: string) returns (body: string)
    requires taken == "''" || (|taken| == 1 && taken[0] != '\'')
    ensures taken + (Escaped(more) + ("'" + rest)) == Escaped(body) + ("'" + rest)
  {
    body := [taken[0]] + more;
    assert body[1..] == more;
    assert Escaped(body) == taken + Escaped(more);
  }

  lemma {:induction false} ReadString(content: string, st: State) returns (body: string, r: State)
    requires Closes(content, st) && st.mode == InString
    ensures Closes(content, r) && r.mode == Neutral && r.i > st.i && r.i <= |content|
    ensures content[st.i..] == Escaped(body) + ("'" + content[r.i..]) && !Is(content, r.i, '\'')
    decreases |content| - st.i
  {
    ClosedIs(content, st);
    var taken := StringStep(content, st);
    var next := Turn(content, st);
    hide Closes, Turn, Is;
    if next.mode == Neutral {
      body, r := "", next;
      assert Escaped(body) + ("'" + content[r.i..]) == "'" + content[r.i..];
    } else {
      hide Escaped;
      var more;
      more, r := ReadString(content, next);
      body := EscapedGrows(taken, more, content[r.i..]);
    }
  }

  lemma ClosedIs(content: string, st: State)
    requires Closes(content, st)
    ensures Standing(content, st)
  {
  }

  lemma PrefixIsSeen(content: string, i: nat, text: string, after: string, part: string)
    requires i <= |content| && content[i..] == text + after && |part| <= |text|
    ensures StartsWith(content, i, part) <==> StartsWith(text, 0, part)
  {
    assert text[0..|part|] == content[i..][..|part|];
    assert content[i..][..|part|] == content[i..i + |part|];
  }

  /** If `part` is not here and first occurs at the end from the next character on, it first occurs at the end. */
  lemma FirstAtEndExtends(content: string, i: nat, c: char, text: string, after: string, part: string)
    requires i < |content| && content[i..] == ([c] + text + part) + after && FirstAtEnd(text, part) && !StartsWith(content, i, part)
    ensures FirstAtEnd([c] + text, part)
  {
    PrefixIsSeen(content, i, [c] + text + part, after, part);
    forall k | 0 <= k < |text| + 1 ensures !StartsWith([c] + text + part, k, part) {
      if k > 0 {
        assert !StartsWith(text + part, k - 1, part);
        assert ([c] + text + part)[k..] == (text + part)[k - 1..];
        if k + |part| <= |text| + 1 + |part| {
          assert ([c] + text + part)[k..k + |part|] == ([c] + text + part)[k..][..|part|];
          assert (text + part)[k - 1..k - 1 + |part|] == (text + part)[k - 1..][..|part|];
        }
      }
    }
  }

  lemma DollarStep(content: string, st: State, tag: string)
    requires Closes(content, st) && st.mode == InDollar(tag) && |tag| > 0 && tag[0] == '$'
    ensures st.i < |content| && var next := Turn(content, st);
            && Closes(content, next)
            && (StartsWith(content, st.i, tag) ==>
                  next.mode == Neutral && next.i == st.i + |tag| && content[st.i..] == tag + content[next.i..])
            && (!StartsWith(content, st.i, tag) ==>
                  next.mode == st.mode && next.i == st.i + 1 && content[st.i..] == [content[st.i]] + content[next.i..])
  {
    OpenIsNotAtEnd(content, st);
    hide Closes;
    if StartsWith(content, st.i, tag) {
      assert content[st.i] == content[st.i..st.i + |tag|][0];
      Rest(content, st.i, |tag|);
    } else {
      OneOn(content, st.i);
    }
  }

  lemma TextGrows(c: char, more: string, tag: string, rest: string)
    ensures [c] + ((more + tag) + rest) == ([c] + more + tag) + rest
  {
  }

  lemma {:induction false} ReadDollar(content: string, st: State, tag: string) returns (text: string, r: State)
    requires Closes(content, st) && st.mode == InDollar(tag) && |tag| > 0 && tag[0] == '$'
    ensures Closes(content, r) && r.mode == Neutral && r.i > st.i && r.i <= |content|
    ensures content[st.i..] == (text + tag) + content[r.i..] && FirstAtEnd(text, tag)
    decreases |content| - st.i
  {
    ClosedIs(content, st);
    DollarStep(content, st, tag);
    var next := Turn(content, st);
    if StartsWith(content, st.i, tag) {
      text, r := "", next;
      assert text + tag == tag;
    } else {
      hide Closes, Turn, StartsWith, FirstAtEnd;
      var more;
      more, r := ReadDollar(content, next, tag);
      TextGrows(content[st.i], more, tag, content[r.i..]);
      FirstAtEndExtends(content, st.i, content[st.i], more, content[r.i..], tag);
      text := [content[st.i]] + more;
    }
  }

  lemma {:induction false} ReadNote(content: string, st: State) returns (note: string, r: State)
    requires Closes(content, st) && st.mode == InLine
    ensures Closes(content, r) && r.mode == Neutral && r.i > st.i
    ensures content[st.i..] == note + ("\n" + content[r.i..]) && '\n' !in note
    decreases |content| - st.i
  {
    OpenIsNotAtEnd(content, st);
    var next := Turn(content, st);
    var c := content[st.i];
    hide Closes;
    OneOn(content, st.i);
    if c == '\n' {
      note, r := "", next;
      assert "" + ("\n" + content[r.i..]) == "\n" + content[r.i..];
    } else {
      var more;
      more, r := ReadNote(content, next);
      note := [c] + more;
      assert [c] + (more + ("\n" + content[r.i..])) == note + ("\n" + content[r.i..]);
    }
  }

  lemma RemarkStep(content: string, st: State)
    requires Closes(content, st) && st.mode == InBlock
    ensures st.i < |content| && var next := Turn(content, st);
            && Closes(content, next)
            && (StartsWith(content, st.i, "*/") ==>
                  next.mode == Neutral && next.i == st.i + 2 && content[st.i..] == "*/" + content[next.i..])
            && (!StartsWith(content, st.i, "*/") ==>
                  next.mode == InBlock && next.i == st.i + 1 && content[st.i..] == [content[st.i]] + content[next.i..])
  {
    OpenIsNotAtEnd(content, st);
    hide Closes;
    OneOn(content, st.i);
    if st.i + 1 < |content| {
      TwoOn(content, st.i);
      assert content[st.i..st.i + 2] == [content[st.i], content[st.i + 1]];
    }
  }

  lemma {:induction false} ReadRemark(content: string, st: State) returns (remark: string, r: State)
    requires Closes(content, st) && st.mode == InBlock
    ensures Closes(content, r) && r.mode == Neutral && r.i > st.i && r.i <= |content|
    ensures content[st.i..] == (remark + "*/") + content[r.i..] && FirstAtEnd(remark, "*/")
    decreases |content| - st.i
  {
    ClosedIs(content, st);
    RemarkStep(content, st);
    var next := Turn(content, st);
    if StartsWith(content, st.i, "*/") {
      remark, r := "", next;
      assert remark + "*/" == "*/";
    } else {
      hide Closes, Turn, StartsWith, FirstAtEnd;
      var more;
      more, r := ReadRemark(content, next);
      TextGrows(content[st.i], more, "*/", content[r.i..]);
      FirstAtEndExtends(content, st.i, content[st.i], more, content[r.i..], "*/");
      remark := [content[st.i]] + more;
    }
  }

  // ----- pieces -----

  /** A piece read at a standing, and the standing after it. */
  ghost predicate ReadAs(content: string, st: State, p: Piece, r: State) {
    && Closes(content, r) && r.mode == Neutral && st.i < r.i
    && content[st.i..] == Source(p) + content[r.i..] && Fits(p, content[r.i..])
  }

  lemma {:induction false} TagName(content: string, i: nat) returns (name: string)
    requires TagAt(content, i) != ""
    ensures TagAt(content, i) == Tag(name) && forall k :: 0 <= k < |name| ==> IsTagLetter(name[k])
  {
    var n := Letters(content, i + 1);
    name := content[i + 1..i + 1 + n];
    LettersAre(content, i + 1);
    hide Letters, IsTagLetter;
    Framed(content, i, n);
  }

  lemma Framed(content: string, i: nat, n: nat)
    requires i + 1 + n < |content|
    ensures content[i..i + 1 + n + 1] == [content[i]] + content[i + 1..i + 1 + n] + [content[i + 1 + n]]
  {
  }

  lemma {:induction false} LettersAre(content: string, i: nat)
    requires i <= |content|
    ensures i + Letters(content, i) <= |content|
    ensures forall k :: i <= k < i + Letters(content, i) ==> IsTagLetter(content[k])
    decreases |content| - i
  {
    if i < |content| && IsTagLetter(content[i]) {
      LettersAre(content, i + 1);
    }
  }

  lemma ReadDollarPiece(content: string, st: State) returns (p: Piece, r: State)
    requires Closes(content, st) && st.mode == Neutral && st.i < |content| && TagAt(content, st.i) != ""
    ensures ReadAs(content, st, p, r)
  {
    var tag := TagAt(content, st.i);
    var name := TagName(content, st.i);
    TurnCloses(content, st);
    var next := Turn(content, st);
    Rest(content, st.i, |tag|);
    assert content[st.i..st.i + |tag|] == tag;
    hide Closes, TagAt, FirstAtEnd;
    var text;
    text, r := ReadDollar(content, next, tag);
    p := Dollar(name, text);
    assert tag + ((text + tag) + content[r.i..]) == Source(p) + content[r.i..];
  }

  lemma ReadPlainPiece(content: string, st: State) returns (p: Piece, r: State)
    requires Closes(content, st) && st.mode == Neutral && st.i < |content| && TagAt(content, st.i) == ""
    requires var c := content[st.i];
             c != ';' && c != '\'' && !(c == '-' && Is(content, st.i + 1, '-')) && !(c == '/' && Is(content, st.i + 1, '*'))
    ensures ReadAs(content, st, p, r)
  {
    TurnCloses(content, st);
    r := Turn(content, st);
    p := Plain(content[st.i]);
    TagShift(content, st.i);
    OneOn(content, st.i);
    NextOne(content, st.i + 1);
    hide Closes, TagAt;
  }

  lemma NextOne(content: string, i: nat)
    requires i <= |content|
    ensures forall c :: Is(content[i..], 0, c) <==> Is(content, i, c)
  {
  }

  lemma ReadStringPiece(content: string, st: State) returns (p: Piece, r: State)
    requires Closes(content, st) && st.mode == Neutral && st.i < |content| && content[st.i] == '\''
    ensures ReadAs(content, st, p, r)
  {
    assert TagAt(content, st.i) == "";
    TurnCloses(content, st);
    var next := Turn(content, st);
    OneOn(content, st.i);
    hide Closes, TagAt, Escaped;
    var body;
    body, r := ReadString(content, next);
    p := Quoted(body);
    assert "'" + (Escaped(body) + ("'" + content[r.i..])) == Source(p) + content[r.i..];
    ClosedIs(content, r);
    NextOne(content, r.i);
  }

  lemma CommentStep(content: string, st: State)
    requires Closes(content, st) && st.mode == Neutral && st.i + 1 < |content|
    requires var c := content[st.i]; (c == '-' && content[st.i + 1] == '-') || (c == '/' && content[st.i + 1] == '*')
    ensures var next := Turn(content, st);
            && Closes(content, next) && next.i == st.i + 2
            && next.mode == (if content[st.i] == '-' then InLine else InBlock)
            && content[st.i..] == (if content[st.i] == '-' then "--" else "/*") + content[next.i..]
  {
    assert TagAt(content, st.i) == "";
    TurnCloses(content, st);
    TwoOn(content, st.i);
  }

  lemma ReadCommentPiece(content: string, st: State) returns (p: Piece, r: State)
    requires Closes(content, st) && st.mode == Neutral && st.i + 1 < |content|
    requires var c := content[st.i]; (c == '-' && content[st.i + 1] == '-') || (c == '/' && content[st.i + 1] == '*')
    ensures ReadAs(content, st, p, r)
  {
    ClosedIs(content, st);
    CommentStep(content, st);
    var next := Turn(content, st);
    hide Closes, TagAt, FirstAtEnd, Turn;
    if content[st.i] == '-' {
      var note;
      note, r := ReadNote(content, next);
      p := LineComment(note);
      assert "--" + (note + ("\n" + content[r.i..])) == Source(p) + content[r.i..];
    } else {
      var remark;
      remark, r := ReadRemark(content, next);
      p := BlockComment(remark);
      assert "/*" + ((remark + "*/") + content[r.i..]) == Source(p) + content[r.i..];
    }
  }

  lemma ReadPiece(content: string, st: State) returns (p: Piece, r: State)
    requires Closes(content, st) && st.mode == Neutral && st.i < |content| && content[st.i] != ';'
    ensures ReadAs(content, st, p, r)
  {
    hide Closes, ReadAs, TagAt;
    var c := content[st.i];
    if TagAt(content, st.i) != "" {
      p, r := ReadDollarPiece(content, st);
    } else if c == '\'' {
      p, r := ReadStringPiece(content, st);
    } else if (c == '-' && Is(content, st.i + 1, '-')) || (c == '/' && Is(content, st.i + 1, '*')) {
      p, r := ReadCommentPiece(content, st);
    } else {
      p, r := ReadPlainPiece(content, st);
    }
  }

  // ----- statements -----

  lemma FitsWithout(p: Piece, rest: string, after: string)
    requires Terminator(after) && Fits(p, rest + after)
    ensures Fits(p, rest)
  {
    if p.Plain? {
      LettersStop([p.c] + rest, after, 1);
      assert [p.c] + (rest + after) == [p.c] + rest + after;
    }
  }

  ghost predicate AllClosed(statements: seq<seq<Piece>>) {
    statements != [] && forall k :: 0 <= k < |statements| ==> Closed(statements[k])
  }

  /** The first statement, and what follows it. */
  lemma JoinSplits(statements: seq<seq<Piece>>) returns (after: string)
    requires statements != []
    ensures Terminator(after) && Join(statements) == SourceOf(statements[0]) + after
    ensures after == if |statements| == 1 then "" else ";" + Join(statements[1..])
  {
    after := if |statements| == 1 then "" else ";" + Join(statements[1..]);
    assert SourceOf(statements[0]) + "" == SourceOf(statements[0]);
  }

  lemma ClosedGrows(p: Piece, ps: seq<Piece>)
    requires Closed(ps) && Fits(p, SourceOf(ps))
    ensures Closed([p] + ps) && SourceOf([p] + ps) == Source(p) + SourceOf(ps)
  {
    hide Fits, Source;
    var all := [p] + ps;
    assert all[0] == p && all[1..] == ps;
    assert SourceOf(ps) + "" == SourceOf(ps);
  }

  /** A piece read before a joining belongs to its first statement. */
  lemma PieceJoins(p: Piece, statements: seq<seq<Piece>>)
    requires AllClosed(statements) && Fits(p, Join(statements))
    ensures AllClosed([[p] + statements[0]] + statements[1..])
    ensures Join([[p] + statements[0]] + statements[1..]) == Source(p) + Join(statements)
  {
    hide Fits, Source, Closed, SourceOf, Join;
    var after := JoinSplits(statements);
    FitsWithout(p, SourceOf(statements[0]), after);
    ClosedGrows(p, statements[0]);
    var all := [[p] + statements[0]] + statements[1..];
    assert all[1..] == statements[1..];
    var after' := JoinSplits(all);
    assert Source(p) + SourceOf(statements[0]) + after == Source(p) + (SourceOf(statements[0]) + after);
  }

  lemma SemicolonJoins(statements: seq<seq<Piece>>)
    requires AllClosed(statements)
    ensures AllClosed([[]] + statements) && Join([[]] + statements) == ";" + Join(statements)
  {
    var all := [[]] + statements;
    assert all[1..] == statements;
    assert Closed([]);
    assert "" + (";" + Join(statements)) == ";" + Join(statements);
  }

  lemma {:induction false} ReadStatements(content: string, st: State) returns (statements: seq<seq<Piece>>)
    requires Closes(content, st) && st.mode == Neutral
    ensures AllClosed(statements) && content[st.i..] == Join(statements)
    decreases |content| - st.i
  {
    ClosedIs(content, st);
    if st.i == |content| {
      statements := [[]];
      assert Closed(statements[0]);
    } else if content[st.i] == ';' {
      TurnCloses(content, st);
      AtSemicolon(content, st);
      hide Closes, AllClosed, Join, Turn;
      var rest := ReadStatements(content, Turn(content, st));
      SemicolonJoins(rest);
      OneOn(content, st.i);
      statements := [[]] + rest;
    } else {
      var p, r := ReadPiece(content, st);
      ClosedIs(content, r);
      var rest := ReadStatements(content, r);
      hide Closes, AllClosed, Join, Fits, Source;
      PieceJoins(p, rest);
      statements := [[p] + rest[0]] + rest[1..];
    }
  }

  lemma AtSemicolon(content: string, st: State)
    requires Standing(content, st) && st.i < |content| && st.mode == Neutral && content[st.i] == ';'
    ensures Turn(content, st) == State(st.i + 1, "", None, Neutral)
  {
    hide Letters;
  }

  /** A source ends outside every quote and comment exactly when it is closed statements joined by semicolons. */
  lemma ClosedExactlyWhenJoined(content: string)
    ensures EndsClosed(content) <==> exists statements :: AllClosed(statements) && content == Join(statements)
  {
    hide Join, Closed, Scan;
    assert content[0..] == content;
    if EndsClosed(content) {
      var statements := ReadStatements(content, START);
    }
    if statements :| AllClosed(statements) && content == Join(statements) {
      SplittingUndoesJoining(statements);
    }
  }
}
