/** Splitting a migration into statements: the scanner as a function of where it stands, and the loop that runs it. */
module SqlScanner {
  import opened Wrappers
  import opened Whitespace

  datatype Statement = Statement(sql: string, startLine: nat)

  datatype Mode = Neutral | InLine | InBlock | InString | InDollar(tag: string)

  predicate Is(s: string, i: nat, c: char) {
    i < |s| && s[i] == c
  }

  predicate IsTagLetter(c: char) {
    'A' <= c <= 'Z' || 'a' <= c <= 'z' || c == '_'
  }

  /** How many tag letters stand at `i`. */
  function Letters(s: string, i: nat): (n: nat)
    ensures n > 0 ==> i + n <= |s|
    decreases |s| - i
  {
    if i < |s| && IsTagLetter(s[i]) then 1 + Letters(s, i + 1) else 0
  }

  /** The dollar-quote tag at `i`, or nothing. */
  function TagAt(s: string, i: nat): (tag: string)
    ensures |tag| > 0 ==> |tag| >= 2 && i + |tag| <= |s|
  {
    var end := i + 1 + Letters(s, i + 1);
    if Is(s, i, '$') && Is(s, end, '$') then s[i..end + 1] else ""
  }

  predicate StartsWith(s: string, i: nat, part: string) {
    i + |part| <= |s| && s[i..i + |part|] == part
  }

  function Newlines(s: string): nat {
    if s == "" then 0 else (if s[0] == '\n' then 1 else 0) + Newlines(s[1..])
  }

  /** What a flush emits. */
  function Flushed(content: string, buf: string, start: Option<nat>): seq<Statement>
    requires start.Some? ==> start.value <= |content|
  {
    if start.Some? && Trim(buf) != "" then [Statement(Trim(buf), 1 + Newlines(content[..start.value]))] else []
  }

  function Started(start: Option<nat>, i: nat): Option<nat> {
    if start.None? then Some(i) else start
  }

  /** Where the scanner stands: the next character, what is buffered, where the statement started, and inside what. */
  datatype State = State(i: nat, buf: string, start: Option<nat>, mode: Mode)

  predicate Standing(content: string, st: State) {
    st.i <= |content| && (st.start.Some? ==> st.start.value <= |content|) && (st.mode.InDollar? ==> |st.mode.tag| > 0)
  }

  /** One turn of the loop. */
  function Turn(content: string, st: State): (r: State)
    requires Standing(content, st) && st.i < |content|
    ensures Standing(content, r) && r.i > st.i
  {
    var State(i, buf, start, mode) := st;
    var c := content[i];
    match mode
    case InLine => State(i + 1, buf, start, if c == '\n' then Neutral else InLine)
    case InBlock => if c == '*' && Is(content, i + 1, '/') then State(i + 2, buf, start, Neutral) else State(i + 1, buf, start, InBlock)
    case InString =>
      if c == '\'' && Is(content, i + 1, '\'') then State(i + 2, buf + "''", start, InString)
      else State(i + 1, buf + [c], start, if c == '\'' then Neutral else InString)
    case InDollar(tag) =>
      if c == '$' && StartsWith(content, i, tag) then State(i + |tag|, buf + tag, start, Neutral)
      else State(i + 1, buf + [c], start, mode)
    case Neutral =>
      var tag := TagAt(content, i);
      if tag != "" then State(i + |tag|, buf + tag, Started(start, i), InDollar(tag))
      else if c == '-' && Is(content, i + 1, '-') then State(i + 2, buf, start, InLine)
      else if c == '/' && Is(content, i + 1, '*') then State(i + 2, buf, start, InBlock)
      else if c == '\'' then State(i + 1, buf + [c], Started(start, i), InString)
      else if c == ';' then State(i + 1, "", None, Neutral)
      else State(i + 1, buf + [c], if IsSpace(c) then start else Started(start, i), Neutral)
  }

  /** The one turn that emits. */
  predicate Splits(content: string, st: State) {
    st.i < |content| && st.mode == Neutral && content[st.i] == ';'
  }

  /** What a scan leaves: the statements emitted, and what the source ends inside. */
  datatype Scanned = Scanned(statements: seq<Statement>, ending: Mode)

  function Prepend(first: seq<Statement>, rest: Scanned): Scanned {
    Scanned(first + rest.statements, rest.ending)
  }

  /** Everything emitted from a standing on. */
  function Scan(content: string, st: State): Scanned
    requires Standing(content, st)
    decreases |content| - st.i
  {
    if st.i == |content| then Scanned(Flushed(content, st.buf, st.start), st.mode)
    else if Splits(content, st) then Prepend(Flushed(content, st.buf, st.start), Scan(content, Turn(content, st)))
    else Scan(content, Turn(content, st))
  }

  const START := State(0, "", None, Neutral)

  function Parsed(content: string): seq<Statement> {
    Scan(content, START).statements
  }

  /** Whether every quote and comment is closed at the end of the source. */
  predicate EndsClosed(content: string) {
    Scan(content, START).ending == Neutral
  }

  // ----- the loop -----

  method LineAt(content: string, offset: nat) returns (line: nat)
    requires offset <= |content|
    ensures line == 1 + Newlines(content[..offset])
  {
    line := 1;
    for i := 0 to offset
      invariant line == 1 + Newlines(content[..i])
    {
      NewlinesAppend(content[..i], [content[i]]);
      assert content[..i] + [content[i]] == content[..i + 1];
      if content[i] == '\n' {
        line := line + 1;
      }
    }
  }

  lemma {:induction false} NewlinesAppend(a: string, b: string)
    ensures Newlines(a + b) == Newlines(a) + Newlines(b)
  {
    if a == "" {
      assert a + b == b;
    } else {
      NewlinesAppend(a[1..], b);
      assert (a + b)[1..] == a[1..] + b;
    }
  }

  function ModeOf(inLine: bool, inBlock: bool, inStr: bool, dollarTag: Option<string>): Mode {
    if inLine then InLine else if inBlock then InBlock else if inStr then InString
    else if dollarTag.Some? then InDollar(dollarTag.value) else Neutral
  }

  method Flush(content: string, buf: string, startOffset: Option<nat>) returns (flushed: seq<Statement>)
    requires startOffset.Some? ==> startOffset.value <= |content|
    ensures flushed == Flushed(content, buf, startOffset)
  {
    var sql := Trim(buf);
    flushed := [];
    if |sql| > 0 && startOffset.Some? {
      var line := LineAt(content, startOffset.value);
      flushed := [Statement(sql, line)];
    }
  }

  lemma TurnContinues(content: string, st: State)
    requires Standing(content, st) && st.i < |content|
    ensures Scan(content, st) ==
            if Splits(content, st) then Prepend(Flushed(content, st.buf, st.start), Scan(content, Turn(content, st)))
            else Scan(content, Turn(content, st))
  {
  }

  method ParseStatements(content: string) returns (statements: seq<Statement>)
    ensures statements == Parsed(content)
  {
    hide Scan, Flushed, TagAt;
    statements := [];
    var buf := "";
    var startOffset: Option<nat> := None;
    var inLine, inBlock, inStr := false, false, false;
    var dollarTag: Option<string> := None;
    var i: nat := 0;
    ghost var st := START;
    while i < |content|
      invariant Standing(content, st) && st == State(i, buf, startOffset, ModeOf(inLine, inBlock, inStr, dollarTag))
      invariant inLine ==> !inBlock && !inStr && dollarTag.None?
      invariant inBlock ==> !inStr && dollarTag.None?
      invariant inStr ==> dollarTag.None?
      invariant statements + Scan(content, st).statements == Parsed(content)
    {
      ghost var before := statements;
      TurnContinues(content, st);
      var c := content[i];
      if inLine {
        if c == '\n' { inLine := false; }
      } else if inBlock {
        if c == '*' && Is(content, i + 1, '/') {
          inBlock := false;
          i := i + 1;
        }
      } else if inStr {
        buf := buf + [c];
        if c == '\'' {
          if Is(content, i + 1, '\'') {
            buf := buf + "'";
            assert buf == st.buf + "''";
            i := i + 1;
          } else {
            inStr := false;
          }
        }
      } else if dollarTag.Some? {
        if c == '$' && StartsWith(content, i, dollarTag.value) {
          buf := buf + dollarTag.value;
          i := i + |dollarTag.value| - 1;
          dollarTag := None;
        } else {
          buf := buf + [c];
        }
      } else {
        var tag := TagAt(content, i);
        if |tag| > 0 {
          assert c != ';' by { TagStartsWithDollar(content, i); }
          startOffset := Started(startOffset, i);
          dollarTag := Some(tag);
          buf := buf + tag;
          i := i + |tag| - 1;
        } else if c == '-' && Is(content, i + 1, '-') {
          inLine := true;
          i := i + 1;
        } else if c == '/' && Is(content, i + 1, '*') {
          inBlock := true;
          i := i + 1;
        } else if c == '\'' {
          inStr := true;
          startOffset := Started(startOffset, i);
          buf := buf + [c];
        } else if c == ';' {
          var flushed := Flush(content, buf, startOffset);
          statements := statements + flushed;
          buf := "";
          startOffset := None;
        } else {
          if !IsSpace(c) { startOffset := Started(startOffset, i); }
          buf := buf + [c];
        }
      }
      i := i + 1;
      assert statements == before + (if Splits(content, st) then Flushed(content, st.buf, st.start) else []);
      st := Turn(content, st);
    }
    AtEnd(content, st);
    var flushed := Flush(content, buf, startOffset);
    statements := statements + flushed;
  }

  lemma TagStartsWithDollar(content: string, i: nat)
    requires TagAt(content, i) != ""
    ensures i < |content| && content[i] == '$'
  {
  }

  lemma AtEnd(content: string, st: State)
    requires Standing(content, st) && st.i == |content|
    ensures Scan(content, st) == Scanned(Flushed(content, st.buf, st.start), st.mode)
  {
  }
}
