/** Splitting undoes joining: statements with closed quotes, joined by semicolons, come back as they were. */
module SqlRoundTrip {
  import opened Wrappers
  import opened Whitespace
  import opened SqlScanner

  /** What a statement is made of: bare characters, a string, a dollar-quoted text, and comments. */
  datatype Piece =
    | Plain(c: char)
    | Quoted(body: string)
    | Dollar(name: string, text: string)
    | LineComment(note: string)
    | BlockComment(remark: string)

  function Escaped(body: string): string {
    if body == "" then "" else (if body[0] == '\'' then "''" else [body[0]]) + Escaped(body[1..])
  }

  function Tag(name: string): string {
    "$" + name + "$"
  }

  /** How a piece is written. */
  function Source(p: Piece): string {
    match p
    case Plain(c) => [c]
    case Quoted(body) => "'" + (Escaped(body) + "'")
    case Dollar(name, text) => Tag(name) + (text + Tag(name))
    case LineComment(note) => "--" + (note + "\n")
    case BlockComment(remark) => "/*" + (remark + "*/")
  }

  predicate IsComment(p: Piece) {
    p.LineComment? || p.BlockComment?
  }

  /** What a piece leaves in its statement: a comment leaves nothing, not even a space. */
  function Text(p: Piece): string {
    if IsComment(p) then "" else Source(p)
  }

  /** A statement starts at its first piece that is neither white space nor a comment. */
  predicate Opens(p: Piece) {
    !IsComment(p) && (p.Plain? ==> !IsSpace(p.c))
  }

  function SourceOf(ps: seq<Piece>): string {
    if ps == [] then "" else Source(ps[0]) + SourceOf(ps[1..])
  }

  function TextOf(ps: seq<Piece>): string {
    if ps == [] then "" else Text(ps[0]) + TextOf(ps[1..])
  }

  /** `part` does not occur in `s + part` before its end. */
  predicate FirstAtEnd(s: string, part: string) {
    forall k :: 0 <= k < |s| ==> !StartsWith(s + part, k, part)
  }

  /** A piece reads as itself when this much source follows it. */
  predicate Fits(p: Piece, after: string) {
    match p
    case Plain(c) =>
      && c != ';' && c != '\''
      && (c == '-' ==> !Is(after, 0, '-')) && (c == '/' ==> !Is(after, 0, '*'))
      && TagAt([c] + after, 0) == ""
    case Quoted(_) => !Is(after, 0, '\'')
    case Dollar(name, text) => (forall k :: 0 <= k < |name| ==> IsTagLetter(name[k])) && FirstAtEnd(text, Tag(name))
    case LineComment(note) => '\n' !in note
    case BlockComment(remark) => FirstAtEnd(remark, "*/")
  }

  predicate FitsAll(ps: seq<Piece>, after: string) {
    ps == [] || (Fits(ps[0], SourceOf(ps[1..]) + after) && FitsAll(ps[1..], after))
  }

  /** A statement whose quotes are closed and whose characters open nothing else. */
  predicate Closed(ps: seq<Piece>) {
    FitsAll(ps, "")
  }

  // ----- what follows a statement does not change how it reads -----

  predicate Terminator(after: string) {
    after == "" || after[0] == ';'
  }

  lemma {:induction false} LettersStop(s: string, after: string, i: nat)
    requires Terminator(after) && i <= |s|
    ensures Letters(s + after, i) == Letters(s, i)
    decreases |s| - i
  {
    if i < |s| && IsTagLetter(s[i]) {
      LettersStop(s, after, i + 1);
    }
  }

  lemma FitsBefore(p: Piece, rest: string, after: string)
    requires Terminator(after) && Fits(p, rest)
    ensures Fits(p, rest + after)
  {
    if p.Plain? {
      LettersStop([p.c] + rest, after, 1);
      assert [p.c] + (rest + after) == [p.c] + rest + after;
    }
  }

  lemma {:induction false} ClosedAnywhere(ps: seq<Piece>, after: string)
    requires Terminator(after) && Closed(ps)
    ensures FitsAll(ps, after)
  {
    if ps != [] {
      assert SourceOf(ps[1..]) + "" == SourceOf(ps[1..]);
      FitsBefore(ps[0], SourceOf(ps[1..]), after);
      ClosedAnywhere(ps[1..], after);
    }
  }

  // ----- how each piece is scanned -----

  lemma {:induction false} LettersShift(s: string, k: nat, i: nat)
    requires k + i <= |s|
    ensures Letters(s[k..], i) == Letters(s, k + i)
    decreases |s| - i
  {
    if k + i < |s| && IsTagLetter(s[k + i]) {
      LettersShift(s, k, i + 1);
    }
  }

  lemma TagShift(s: string, i: nat)
    requires i < |s|
    ensures TagAt(s, i) == TagAt(s[i..], 0)
  {
    LettersShift(s, i, 1);
    var n := Letters(s, i + 1);
    if i + 1 + n < |s| {
      assert s[i..][..1 + n + 1] == s[i..i + 1 + n + 1];
    }
  }

  lemma {:induction false} LettersOfName(s: string, name: string, i: nat, k: nat)
    requires k <= |name| && i + |name| < |s| && s[i..i + |name|] == name && s[i + |name|] == '$'
    requires forall j :: 0 <= j < |name| ==> IsTagLetter(name[j])
    ensures Letters(s, i + k) == |name| - k
    decreases |name| - k
  {
    if k < |name| {
      assert s[i + k] == s[i..i + |name|][k];
      LettersOfName(s, name, i, k + 1);
    }
  }

  /** The standing after a piece. */
  function After(st: State, p: Piece): State {
    State(st.i + |Source(p)|, st.buf + Text(p), if Opens(p) then Started(st.start, st.i) else st.start, Neutral)
  }

  ghost predicate At(content: string, st: State, ahead: string) {
    Standing(content, st) && content[st.i..] == ahead
  }

  lemma Ahead(content: string, st: State, ahead: string, k: nat)
    requires At(content, st, ahead) && k < |ahead|
    ensures st.i + k < |content| && content[st.i + k] == ahead[k]
    ensures content[st.i + k..] == ahead[k..] && content[st.i + k + 1..] == ahead[k + 1..]
  {
  }

  lemma PlainScanned(content: string, st: State, p: Piece, after: string)
    requires p.Plain? && st.mode == Neutral && At(content, st, Source(p) + after) && Fits(p, after)
    ensures At(content, After(st, p), after) && Scan(content, st) == Scan(content, After(st, p))
  {
    hide Scan;
    var ahead := Source(p) + after;
    Ahead(content, st, ahead, 0);
    TagShift(content, st.i);
    assert ahead[1..] == after;
    if after != "" { Ahead(content, st, ahead, 1); }
    TurnContinues(content, st);
  }

  /** One turn inside a string takes one character of its body, or the two of an escaped quote. */
  lemma StringTurn(content: string, st: State, step: string, rest: string)
    requires st.mode == InString && At(content, st, step + rest)
    requires step == "''" || (|step| == 1 && step[0] != '\'')
    ensures var r := State(st.i + |step|, st.buf + step, st.start, InString);
            At(content, r, rest) && Scan(content, st) == Scan(content, r)
  {
    hide Scan, TagAt, StartsWith;
    Ahead(content, st, step + rest, 0);
    if |step| == 2 { Ahead(content, st, step + rest, 1); }
    TurnContinues(content, st);
    assert (step + rest)[|step|..] == rest;
    assert |step| == 1 ==> step == [step[0]];
  }

  lemma StringEnds(content: string, st: State, after: string)
    requires st.mode == InString && At(content, st, "'" + after) && !Is(after, 0, '\'')
    ensures var r := State(st.i + 1, st.buf + "'", st.start, Neutral);
            At(content, r, after) && Scan(content, st) == Scan(content, r)
  {
    hide Scan, TagAt, StartsWith;
    Ahead(content, st, "'" + after, 0);
    if after != "" { Ahead(content, st, "'" + after, 1); }
    TurnContinues(content, st);
    assert ("'" + after)[1..] == after;
  }

  lemma {:induction false} StringScanned(content: string, st: State, body: string, after: string)
    requires st.mode == InString && At(content, st, Escaped(body) + "'" + after) && !Is(after, 0, '\'')
    ensures var r := State(st.i + |Escaped(body)| + 1, st.buf + (Escaped(body) + "'"), st.start, Neutral);
            At(content, r, after) && Scan(content, st) == Scan(content, r)
    decreases body
  {
    hide Scan, At, Is;
    if body == "" {
      assert Escaped(body) + "'" + after == "'" + after;
      assert Escaped(body) + "'" == "'";
      StringEnds(content, st, after);
    } else {
      var step := if body[0] == '\'' then "''" else [body[0]];
      var rest := Escaped(body[1..]) + "'" + after;
      assert Escaped(body) == step + Escaped(body[1..]);
      assert Escaped(body) + "'" + after == step + rest;
      StringTurn(content, st, step, rest);
      var next := State(st.i + |step|, st.buf + step, st.start, InString);
      StringScanned(content, next, body[1..], after);
      assert next.buf + (Escaped(body[1..]) + "'") == st.buf + (Escaped(body) + "'");
    }
  }

  lemma StringOpens(content: string, st: State, rest: string)
    requires st.mode == Neutral && At(content, st, "'" + rest)
    ensures var r := State(st.i + 1, st.buf + "'", Started(st.start, st.i), InString);
            At(content, r, rest) && Scan(content, st) == Scan(content, r)
  {
    hide Scan, StartsWith, Letters;
    Ahead(content, st, "'" + rest, 0);
    TurnContinues(content, st);
    assert ("'" + rest)[1..] == rest;
  }

  lemma QuotedScanned(content: string, st: State, p: Piece, after: string)
    requires p.Quoted? && st.mode == Neutral && At(content, st, Source(p) + after) && Fits(p, after)
    ensures At(content, After(st, p), after) && Scan(content, st) == Scan(content, After(st, p))
  {
    hide Scan, At, Escaped;
    assert Source(p) + after == "'" + (Escaped(p.body) + "'" + after);
    StringOpens(content, st, Escaped(p.body) + "'" + after);
    var next := State(st.i + 1, st.buf + "'", Started(st.start, st.i), InString);
    StringScanned(content, next, p.body, after);
    assert next.buf + (Escaped(p.body) + "'") == st.buf + Source(p);
  }

  lemma TagAhead(content: string, st: State, tag: string, after: string)
    requires |tag| > 0 && tag[0] == '$' && At(content, st, tag + after)
    ensures Standing(content, st) && st.i < |content| && content[st.i] == '$' && StartsWith(content, st.i, tag)
  {
    Skipped(content, st, tag, after);
    Ahead(content, st, tag + after, 0);
  }

  lemma DollarCloses(content: string, st: State, tag: string, after: string)
    requires st.mode == InDollar(tag) && |tag| > 0 && tag[0] == '$' && At(content, st, tag + after)
    ensures var r := State(st.i + |tag|, st.buf + tag, st.start, Neutral);
            At(content, r, after) && Scan(content, st) == Scan(content, r)
  {
    hide Scan, TagAt, At, StartsWith;
    TagAhead(content, st, tag, after);
    TurnContinues(content, st);
    Advance(content, st, tag, after, Turn(content, st));
  }

  lemma DollarTurn(content: string, st: State, c: char, rest: string)
    requires st.mode.InDollar? && |st.mode.tag| > 0 && At(content, st, [c] + rest) && !StartsWith(content, st.i, st.mode.tag)
    ensures var r := State(st.i + 1, st.buf + [c], st.start, st.mode);
            At(content, r, rest) && Scan(content, st) == Scan(content, r)
  {
    Skipped(content, st, [c], rest);
    Ahead(content, st, [c] + rest, 0);
    hide Scan, TagAt, StartsWith;
    TurnContinues(content, st);
  }

  lemma {:induction false} DollarTextScanned(content: string, st: State, text: string, after: string)
    requires st.mode.InDollar? && |st.mode.tag| > 0 && st.mode.tag[0] == '$'
    requires At(content, st, text + st.mode.tag + after) && FirstAtEnd(text, st.mode.tag)
    ensures var r := State(st.i + |text| + |st.mode.tag|, st.buf + (text + st.mode.tag), st.start, Neutral);
            At(content, r, after) && Scan(content, st) == Scan(content, r)
    decreases text
  {
    hide Scan, At, FirstAtEnd, StartsWith;
    var tag := st.mode.tag;
    if text == "" {
      assert text + tag + after == tag + after;
      assert text + tag == tag;
      DollarCloses(content, st, tag, after);
    } else {
      TagNotYet(content, st, text, after);
      var rest := text[1..] + tag + after;
      assert text + tag + after == [text[0]] + rest;
      DollarTurn(content, st, text[0], rest);
      FirstAtEndShift(text, tag);
      var next := State(st.i + 1, st.buf + [text[0]], st.start, st.mode);
      DollarTextScanned(content, next, text[1..], after);
      assert next.buf + (text[1..] + tag) == st.buf + (text + tag);
    }
  }

  lemma FirstAtEndShift(text: string, part: string)
    requires text != "" && FirstAtEnd(text, part)
    ensures FirstAtEnd(text[1..], part)
  {
    forall k | 0 <= k < |text| - 1 ensures !StartsWith(text[1..] + part, k, part) {
      assert !StartsWith(text + part, k + 1, part);
      assert (text + part)[k + 1..k + 1 + |part|] == (text[1..] + part)[k..k + |part|];
    }
  }

  lemma TagNotYet(content: string, st: State, text: string, after: string)
    requires st.mode.InDollar? && |st.mode.tag| > 0 && text != ""
    requires At(content, st, text + st.mode.tag + after) && FirstAtEnd(text, st.mode.tag)
    ensures !StartsWith(content, st.i, st.mode.tag)
  {
    var tag := st.mode.tag;
    assert !StartsWith(text + tag, 0, tag);
    assert content[st.i..st.i + |tag|] == content[st.i..][..|tag|] == (text + tag)[0..0 + |tag|];
  }

  lemma DollarOpens(content: string, st: State, name: string, rest: string)
    requires st.mode == Neutral && At(content, st, Tag(name) + rest) && forall k :: 0 <= k < |name| ==> IsTagLetter(name[k])
    ensures var r := State(st.i + |Tag(name)|, st.buf + Tag(name), Started(st.start, st.i), InDollar(Tag(name)));
            At(content, r, rest) && Scan(content, st) == Scan(content, r)
  {
    assert |Tag(name)| > 0;
    hide *;
    OpeningTag(content, st, name, rest);
    TagOpens(content, st, Tag(name), rest);
  }

  lemma TagOpens(content: string, st: State, tag: string, rest: string)
    requires st.mode == Neutral && At(content, st, tag + rest) && tag != "" && st.i < |content| && TagAt(content, st.i) == tag
    ensures var r := State(st.i + |tag|, st.buf + tag, Started(st.start, st.i), InDollar(tag));
            At(content, r, rest) && Scan(content, st) == Scan(content, r)
  {
    hide Scan, TagAt, StartsWith, At;
    TagStartsWithDollar(content, st.i);
    Stands(content, st, tag + rest);
    TurnContinues(content, st);
    Advance(content, st, tag, rest, Turn(content, st));
  }

  lemma Stands(content: string, st: State, ahead: string)
    requires At(content, st, ahead)
    ensures Standing(content, st)
  {
  }

  /** Past a part of what lies ahead, the rest lies ahead. */
  lemma Advance(content: string, st: State, part: string, rest: string, r: State)
    requires At(content, st, part + rest) && Standing(content, r) && r.i == st.i + |part|
    ensures At(content, r, rest)
  {
    Skipped(content, st, part, rest);
  }

  lemma Skipped(content: string, st: State, part: string, rest: string)
    requires At(content, st, part + rest)
    ensures st.i + |part| <= |content| && content[st.i + |part|..] == rest && StartsWith(content, st.i, part)
  {
    assert content[st.i..][|part|..] == rest;
    assert content[st.i..st.i + |part|] == content[st.i..][..|part|];
  }

  lemma DollarScanned(content: string, st: State, p: Piece, after: string)
    requires p.Dollar? && st.mode == Neutral && At(content, st, Source(p) + after) && Fits(p, after)
    ensures At(content, After(st, p), after) && Scan(content, st) == Scan(content, After(st, p))
  {
    hide Scan, TagAt, At, FirstAtEnd;
    var tag := Tag(p.name);
    assert Source(p) + after == tag + (p.text + tag + after);
    DollarOpens(content, st, p.name, p.text + tag + after);
    var next := State(st.i + |tag|, st.buf + tag, Started(st.start, st.i), InDollar(tag));
    DollarTextScanned(content, next, p.text, after);
    assert next.buf + (p.text + tag) == st.buf + Source(p);
  }

  lemma OpeningTag(content: string, st: State, name: string, rest: string)
    requires At(content, st, Tag(name) + rest) && forall k :: 0 <= k < |name| ==> IsTagLetter(name[k])
    ensures st.i < |content| && TagAt(content, st.i) == Tag(name)
  {
    var tag := Tag(name);
    Ahead(content, st, tag + rest, 0);
    Ahead(content, st, tag + rest, |tag| - 1);
    assert content[st.i + 1..st.i + 1 + |name|] == content[st.i..][1..1 + |name|] == name;
    LettersOfName(content, name, st.i + 1, 0);
    assert content[st.i..st.i + |tag|] == content[st.i..][..|tag|] == tag;
  }

  lemma {:induction false} NoteScanned(content: string, st: State, note: string, after: string)
    requires st.mode == InLine && At(content, st, note + "\n" + after) && '\n' !in note
    ensures var r := State(st.i + |note| + 1, st.buf, st.start, Neutral);
            At(content, r, after) && Scan(content, st) == Scan(content, r)
    decreases note
  {
    hide Scan;
    var ahead := note + "\n" + after;
    Ahead(content, st, ahead, 0);
    TurnContinues(content, st);
    if note == "" {
      assert ahead[1..] == after;
    } else {
      assert note[0] in note;
      assert ahead[1..] == note[1..] + "\n" + after;
      NoteScanned(content, Turn(content, st), note[1..], after);
    }
  }

  lemma RemarkTurn(content: string, st: State, c: char, rest: string)
    requires st.mode == InBlock && At(content, st, [c] + rest) && !(c == '*' && Is(rest, 0, '/'))
    ensures var r := State(st.i + 1, st.buf, st.start, InBlock);
            At(content, r, rest) && Scan(content, st) == Scan(content, r)
  {
    Skipped(content, st, [c], rest);
    Ahead(content, st, [c] + rest, 0);
    if rest != "" { Ahead(content, st, [c] + rest, 1); }
    hide Scan, TagAt, StartsWith;
    TurnContinues(content, st);
  }

  lemma RemarkCloses(content: string, st: State, after: string)
    requires st.mode == InBlock && At(content, st, "*/" + after)
    ensures var r := State(st.i + 2, st.buf, st.start, Neutral);
            At(content, r, after) && Scan(content, st) == Scan(content, r)
  {
    Skipped(content, st, "*/", after);
    Ahead(content, st, "*/" + after, 0);
    Ahead(content, st, "*/" + after, 1);
    hide Scan, TagAt, StartsWith;
    TurnContinues(content, st);
  }

  lemma {:induction false} RemarkScanned(content: string, st: State, remark: string, after: string)
    requires st.mode == InBlock && At(content, st, remark + "*/" + after) && FirstAtEnd(remark, "*/")
    ensures var r := State(st.i + |remark| + 2, st.buf, st.start, Neutral);
            At(content, r, after) && Scan(content, st) == Scan(content, r)
    decreases remark
  {
    hide Scan, At, TagAt;
    if remark == "" {
      assert remark + "*/" + after == "*/" + after;
      RemarkCloses(content, st, after);
    } else {
      var rest := remark[1..] + "*/" + after;
      assert remark + "*/" + after == [remark[0]] + rest;
      assert !StartsWith(remark + "*/", 0, "*/");
      assert (remark + "*/")[0..2] == [remark[0], rest[0]];
      RemarkTurn(content, st, remark[0], rest);
      FirstAtEndShift(remark, "*/");
      RemarkScanned(content, State(st.i + 1, st.buf, st.start, InBlock), remark[1..], after);
    }
  }

  lemma CommentOpens(content: string, st: State, opening: string, rest: string)
    requires st.mode == Neutral && At(content, st, opening + rest) && (opening == "--" || opening == "/*")
    ensures var r := State(st.i + 2, st.buf, st.start, if opening == "--" then InLine else InBlock);
            At(content, r, rest) && Scan(content, st) == Scan(content, r)
  {
    hide Scan, StartsWith, Letters;
    Ahead(content, st, opening + rest, 0);
    Ahead(content, st, opening + rest, 1);
    TurnContinues(content, st);
    assert (opening + rest)[2..] == rest;
  }

  lemma CommentScanned(content: string, st: State, p: Piece, after: string)
    requires IsComment(p) && st.mode == Neutral && At(content, st, Source(p) + after) && Fits(p, after)
    ensures At(content, After(st, p), after) && Scan(content, st) == Scan(content, After(st, p))
  {
    hide Scan, TagAt, At, FirstAtEnd;
    assert st.buf + "" == st.buf;
    if p.LineComment? {
      assert Source(p) + after == "--" + (p.note + "\n" + after);
      CommentOpens(content, st, "--", p.note + "\n" + after);
      NoteScanned(content, State(st.i + 2, st.buf, st.start, InLine), p.note, after);
    } else {
      assert Source(p) + after == "/*" + (p.remark + "*/" + after);
      CommentOpens(content, st, "/*", p.remark + "*/" + after);
      RemarkScanned(content, State(st.i + 2, st.buf, st.start, InBlock), p.remark, after);
    }
  }

  lemma PieceScanned(content: string, st: State, p: Piece, after: string)
    requires st.mode == Neutral && At(content, st, Source(p) + after) && Fits(p, after)
    ensures At(content, After(st, p), after) && Scan(content, st) == Scan(content, After(st, p))
  {
    hide Scan, Fits, Source, Standing;
    match p
    case Plain(_) => PlainScanned(content, st, p, after);
    case Quoted(_) => QuotedScanned(content, st, p, after);
    case Dollar(_, _) => DollarScanned(content, st, p, after);
    case LineComment(_) => CommentScanned(content, st, p, after);
    case BlockComment(_) => CommentScanned(content, st, p, after);
  }

  // ----- a whole statement -----

  /** The standing after a statement's pieces. */
  function AfterAll(st: State, ps: seq<Piece>): State
    decreases |ps|
  {
    if ps == [] then st else AfterAll(After(st, ps[0]), ps[1..])
  }

  lemma {:induction false} PiecesScanned(content: string, st: State, ps: seq<Piece>, after: string)
    requires st.mode == Neutral && At(content, st, SourceOf(ps) + after) && FitsAll(ps, after)
    ensures At(content, AfterAll(st, ps), after) && Scan(content, st) == Scan(content, AfterAll(st, ps))
    decreases ps
  {
    hide Scan, At, Fits, Source, Text;
    if ps == [] {
      assert SourceOf(ps) + after == after;
    } else {
      assert SourceOf(ps) + after == Source(ps[0]) + (SourceOf(ps[1..]) + after);
      PieceScanned(content, st, ps[0], SourceOf(ps[1..]) + after);
      PiecesScanned(content, After(st, ps[0]), ps[1..], after);
    }
  }

  predicate IsBlank(ps: seq<Piece>) {
    forall k :: 0 <= k < |ps| ==> !Opens(ps[k])
  }

  /** The source before a statement's first opening piece. */
  function Lead(ps: seq<Piece>): string {
    if ps == [] || Opens(ps[0]) then "" else Source(ps[0]) + Lead(ps[1..])
  }

  lemma {:induction false} AfterAllIs(st: State, ps: seq<Piece>)
    requires st.mode == Neutral
    ensures var r := AfterAll(st, ps);
            r.i == st.i + |SourceOf(ps)| && r.buf == st.buf + TextOf(ps) && r.mode == Neutral
            && r.start == (if st.start.Some? || IsBlank(ps) then st.start else Some(st.i + |Lead(ps)|))
    decreases ps
  {
    hide Source, Text, Opens;
    if ps == [] {
      assert st.buf + "" == st.buf;
    } else {
      AfterAllIs(After(st, ps[0]), ps[1..]);
      assert st.buf + Text(ps[0]) + TextOf(ps[1..]) == st.buf + TextOf(ps);
      assert IsBlank(ps) <==> !Opens(ps[0]) && IsBlank(ps[1..]) by {
        assert forall k :: 0 < k < |ps| ==> ps[k] == ps[1..][k - 1];
        if !Opens(ps[0]) && IsBlank(ps[1..]) {
          forall k | 0 <= k < |ps| ensures !Opens(ps[k]) { if k > 0 { assert !Opens(ps[1..][k - 1]); } }
        }
        if IsBlank(ps) {
          forall k | 0 <= k < |ps| - 1 ensures !Opens(ps[1..][k]) { assert !Opens(ps[k + 1]); }
        }
      }
    }
  }

  lemma OpeningIsNotSpace(p: Piece)
    requires Opens(p)
    ensures Text(p) != "" && !IsSpace(Text(p)[0])
  {
  }

  /** A statement with an opening piece has text left after trimming. */
  lemma {:induction false} OpenedHasText(ps: seq<Piece>) returns (k: nat)
    requires !IsBlank(ps)
    ensures k < |TextOf(ps)| && !IsSpace(TextOf(ps)[k])
    decreases ps
  {
    hide Text, Opens, IsSpace;
    var j :| 0 <= j < |ps| && Opens(ps[j]);
    var text, rest := Text(ps[0]), TextOf(ps[1..]);
    assert TextOf(ps) == text + rest;
    if j == 0 {
      OpeningIsNotSpace(ps[0]);
      k := 0;
    } else {
      assert Opens(ps[1..][j - 1]);
      var i := OpenedHasText(ps[1..]);
      k := |text| + i;
      assert (text + rest)[k] == rest[i];
    }
  }

  // ----- joined statements -----

  /** Statements joined by semicolons. */
  function Join(statements: seq<seq<Piece>>): string {
    if statements == [] then ""
    else if |statements| == 1 then SourceOf(statements[0])
    else SourceOf(statements[0]) + (";" + Join(statements[1..]))
  }

  /** What one statement should come back as, given the source before it: a blank one is dropped. */
  function Kept(ps: seq<Piece>, before: string): seq<Statement> {
    if IsBlank(ps) then [] else [Statement(Trim(TextOf(ps)), 1 + Newlines(before + Lead(ps)))]
  }

  function Expected(statements: seq<seq<Piece>>, before: string): seq<Statement> {
    if statements == [] then []
    else Kept(statements[0], before) + Expected(statements[1..], before + SourceOf(statements[0]) + ";")
  }

  lemma StatementFlushed(content: string, before: string, ps: seq<Piece>, rest: string, start: Option<nat>)
    requires content == before + (SourceOf(ps) + rest)
    requires start == (if IsBlank(ps) then None else Some(|before| + |Lead(ps)|))
    ensures start.Some? ==> start.value <= |content|
    ensures Flushed(content, TextOf(ps), start) == Kept(ps, before)
  {
    hide Trim, Newlines, IsBlank, TextOf, SourceOf, Lead, IsSpace;
    LeadIsPrefix(ps);
    if !IsBlank(ps) {
      var k := OpenedHasText(ps);
      TrimKeeps(TextOf(ps), k);
      assert content[..|before| + |Lead(ps)|] == before + Lead(ps);
    }
  }

  lemma {:induction false} LeadIsPrefix(ps: seq<Piece>)
    ensures Lead(ps) <= SourceOf(ps)
    decreases ps
  {
    if ps != [] && !Opens(ps[0]) {
      LeadIsPrefix(ps[1..]);
    }
  }

  /** The standing at the end of a statement that follows `before`. */
  function EndOf(before: string, ps: seq<Piece>): State {
    State(|before| + |SourceOf(ps)|, TextOf(ps), if IsBlank(ps) then None else Some(|before| + |Lead(ps)|), Neutral)
  }

  lemma ReachesEnd(content: string, before: string, ps: seq<Piece>, rest: string)
    requires content == before + (SourceOf(ps) + rest) && Closed(ps) && Terminator(rest)
    ensures At(content, EndOf(before, ps), rest)
    ensures Scan(content, State(|before|, "", None, Neutral)) == Scan(content, EndOf(before, ps))
  {
    hide Scan, At, Closed, IsBlank, FitsAll, SourceOf, TextOf, Lead, Terminator;
    var st := State(|before|, "", None, Neutral);
    ClosedAnywhere(ps, rest);
    StandsBefore(content, before, SourceOf(ps) + rest);
    PiecesScanned(content, st, ps, rest);
    AfterAllIs(st, ps);
    hide AfterAll;
    assert "" + TextOf(ps) == TextOf(ps);
  }

  /** One statement is scanned up to the end of the source or up to its semicolon. */
  lemma StatementScanned(content: string, before: string, ps: seq<Piece>, rest: string)
    requires content == before + (SourceOf(ps) + rest) && Closed(ps) && Terminator(rest)
    ensures Scan(content, State(|before|, "", None, Neutral)) ==
            if rest == "" then Scanned(Kept(ps, before), Neutral)
            else Prepend(Kept(ps, before), Scan(content, State(|before + SourceOf(ps) + ";"|, "", None, Neutral)))
  {
    hide Scan, Flushed, At, Closed, IsBlank, FitsAll, SourceOf, TextOf, Lead, Kept, Prepend;
    ReachesEnd(content, before, ps, rest);
    StatementFlushed(content, before, ps, rest, EndOf(before, ps).start);
    if rest == "" {
      StandsAtEnd(content, EndOf(before, ps));
      AtEnd(content, EndOf(before, ps));
    } else {
      assert rest == ";" + rest[1..];
      SemicolonSplits(content, EndOf(before, ps), rest[1..]);
    }
  }

  /** Splitting what follows `before`, a whole number of statements, finds exactly the statements. */
  lemma {:induction false} JoinedScanned(content: string, before: string, statements: seq<seq<Piece>>)
    requires statements != [] && content == before + Join(statements)
    requires forall k :: 0 <= k < |statements| ==> Closed(statements[k])
    ensures Scan(content, State(|before|, "", None, Neutral)) == Scanned(Expected(statements, before), Neutral)
    decreases statements
  {
    var ps := statements[0];
    var rest := if |statements| == 1 then "" else ";" + Join(statements[1..]);
    var after := before + SourceOf(ps) + ";";
    JoinIs(content, before, statements, rest, after);
    hide Scan, Closed, Kept, SourceOf, Join, Expected;
    StatementScanned(content, before, ps, rest);
    if |statements| > 1 {
      JoinedScanned(content, after, statements[1..]);
    }
  }

  lemma JoinIs(content: string, before: string, statements: seq<seq<Piece>>, rest: string, after: string)
    requires statements != [] && content == before + Join(statements)
    requires rest == (if |statements| == 1 then "" else ";" + Join(statements[1..]))
    requires after == before + SourceOf(statements[0]) + ";"
    ensures content == before + (SourceOf(statements[0]) + rest)
    ensures |statements| > 1 ==> content == after + Join(statements[1..])
    ensures Expected(statements, before) ==
            if |statements| == 1 then Kept(statements[0], before) else Kept(statements[0], before) + Expected(statements[1..], after)
  {
    hide SourceOf, Kept;
    var source := SourceOf(statements[0]);
    assert source + "" == source;
    if |statements| == 1 {
      assert Expected(statements[1..], after) == [];
    } else {
      assert Join(statements) == source + rest;
    }
  }

  lemma StandsBefore(content: string, before: string, ahead: string)
    requires content == before + ahead
    ensures At(content, State(|before|, "", None, Neutral), ahead)
  {
  }

  lemma StandsAtEnd(content: string, st: State)
    requires At(content, st, "")
    ensures Standing(content, st) && st.i == |content|
  {
  }

  lemma SemicolonSplits(content: string, st: State, rest: string)
    requires st.mode == Neutral && At(content, st, ";" + rest)
    ensures Standing(content, st) && Standing(content, State(st.i + 1, "", None, Neutral))
    ensures Scan(content, st) == Prepend(Flushed(content, st.buf, st.start), Scan(content, State(st.i + 1, "", None, Neutral)))
  {
    hide Scan, Flushed, Letters;
    Ahead(content, st, ";" + rest, 0);
    TurnContinues(content, st);
  }

  /** Splitting undoes joining, comments and blank statements and all. */
  lemma SplittingUndoesJoining(statements: seq<seq<Piece>>)
    requires statements != [] && forall k :: 0 <= k < |statements| ==> Closed(statements[k])
    ensures Parsed(Join(statements)) == Expected(statements, "") && EndsClosed(Join(statements))
  {
    assert "" + Join(statements) == Join(statements);
    JoinedScanned(Join(statements), "", statements);
  }

  /** A statement as an author writes one: no comments, no white space around it. */
  predicate IsTidy(ps: seq<Piece>) {
    ps != [] && Closed(ps) && (forall k :: 0 <= k < |ps| ==> !IsComment(ps[k])) && Opens(ps[0]) && Opens(ps[|ps| - 1])
  }

  /** The source before the statement numbered `k`. */
  function Preceding(statements: seq<seq<Piece>>, k: nat): string
    requires k <= |statements|
  {
    if k == 0 then "" else SourceOf(statements[0]) + ";" + Preceding(statements[1..], k - 1)
  }

  lemma {:induction false} NoCommentsKeepSource(ps: seq<Piece>)
    requires forall k :: 0 <= k < |ps| ==> !IsComment(ps[k])
    ensures TextOf(ps) == SourceOf(ps)
    decreases ps
  {
    hide Source;
    if ps != [] {
      assert !IsComment(ps[0]);
      forall k | 0 <= k < |ps| - 1 ensures !IsComment(ps[1..][k]) { assert !IsComment(ps[k + 1]); }
      NoCommentsKeepSource(ps[1..]);
    }
  }

  lemma ClosingIsNotSpace(p: Piece)
    requires Opens(p)
    ensures Text(p) != "" && !IsSpace(Text(p)[|Text(p)| - 1])
  {
  }

  lemma {:induction false} LastCharacter(ps: seq<Piece>)
    requires ps != [] && Opens(ps[|ps| - 1])
    ensures TextOf(ps) != "" && !IsSpace(TextOf(ps)[|TextOf(ps)| - 1])
    decreases ps
  {
    hide Text, Opens, IsSpace;
    if |ps| == 1 {
      ClosingIsNotSpace(ps[0]);
      assert TextOf(ps) == Text(ps[0]) + "";
      assert Text(ps[0]) + "" == Text(ps[0]);
    } else {
      LastCharacter(ps[1..]);
      assert TextOf(ps) == Text(ps[0]) + TextOf(ps[1..]);
    }
  }

  lemma TidyIsKept(ps: seq<Piece>, before: string)
    requires IsTidy(ps)
    ensures Kept(ps, before) == [Statement(SourceOf(ps), 1 + Newlines(before))]
  {
    hide Closed, Newlines, Trim, IsSpace, Source;
    NoCommentsKeepSource(ps);
    LastCharacter(ps);
    OpeningIsNotSpace(ps[0]);
    assert TextOf(ps)[0] == Text(ps[0])[0];
    TrimOfTrimmed(TextOf(ps));
    assert before + "" == before;
  }

  /** Tidy statements, joined, come back one for one, each exactly as written and with the line it starts on. */
  lemma {:induction false} TidyStatementsComeBack(statements: seq<seq<Piece>>, before: string, k: nat)
    requires k < |statements| && forall j :: 0 <= j < |statements| ==> IsTidy(statements[j])
    ensures |Expected(statements, before)| == |statements|
    ensures Expected(statements, before)[k] == Statement(SourceOf(statements[k]), 1 + Newlines(before + Preceding(statements, k)))
    decreases statements
  {
    hide IsTidy, SourceOf, Newlines, Kept;
    TidyIsKept(statements[0], before);
    var after := before + SourceOf(statements[0]) + ";";
    if |statements| > 1 {
      TidyStatementsComeBack(statements[1..], after, if k > 0 then k - 1 else 0);
    }
    if k == 0 {
      assert before + "" == before;
    } else {
      assert after + Preceding(statements[1..], k - 1) == before + Preceding(statements, k);
    }
  }

  lemma SplitExactly(statements: seq<seq<Piece>>)
    requires statements != [] && forall k :: 0 <= k < |statements| ==> IsTidy(statements[k])
    ensures |Parsed(Join(statements))| == |statements|
    ensures forall k :: 0 <= k < |statements| ==>
              Parsed(Join(statements))[k] == Statement(SourceOf(statements[k]), 1 + Newlines(Preceding(statements, k)))
  {
    SplittingUndoesJoining(statements);
    forall k | 0 <= k < |statements|
      ensures |Expected(statements, "")| == |statements|
      ensures Expected(statements, "")[k] == Statement(SourceOf(statements[k]), 1 + Newlines(Preceding(statements, k)))
    {
      TidyStatementsComeBack(statements, "", k);
      assert "" + Preceding(statements, k) == Preceding(statements, k);
    }
  }

  // ----- comments change only line numbers -----

  function Sqls(statements: seq<Statement>): seq<string> {
    if statements == [] then [] else [statements[0].sql] + Sqls(statements[1..])
  }

  /** Two statements that differ at most in their comments. */
  predicate SameText(a: seq<seq<Piece>>, b: seq<seq<Piece>>) {
    |a| == |b| && forall k :: 0 <= k < |a| ==> TextOf(a[k]) == TextOf(b[k])
  }

  lemma {:induction false} BlankHasNoText(ps: seq<Piece>)
    requires IsBlank(ps)
    ensures forall k :: 0 <= k < |TextOf(ps)| ==> IsSpace(TextOf(ps)[k])
    decreases ps
  {
    if ps != [] {
      assert !Opens(ps[0]);
      forall k | 0 <= k < |ps| - 1 ensures !Opens(ps[1..][k]) { assert !Opens(ps[k + 1]); }
      BlankHasNoText(ps[1..]);
    }
  }

  lemma SameTextSameBlank(a: seq<Piece>, b: seq<Piece>)
    requires TextOf(a) == TextOf(b) && IsBlank(a)
    ensures IsBlank(b)
  {
    BlankHasNoText(a);
    if !IsBlank(b) {
      var k := OpenedHasText(b);
    }
  }

  lemma KeptFirst(a: seq<seq<Piece>>, before: string, after: string)
    requires a != [] && after == before + SourceOf(a[0]) + ";"
    ensures Sqls(Expected(a, before)) ==
            if IsBlank(a[0]) then Sqls(Expected(a[1..], after)) else [Trim(TextOf(a[0]))] + Sqls(Expected(a[1..], after))
  {
    hide IsBlank, Trim, Newlines, TextOf, SourceOf;
    if IsBlank(a[0]) {
      assert [] + Expected(a[1..], after) == Expected(a[1..], after);
    } else {
      assert Expected(a, before)[1..] == Expected(a[1..], after);
    }
  }

  lemma {:induction false} CommentsKeepExpected(a: seq<seq<Piece>>, b: seq<seq<Piece>>, before: string, before': string)
    requires SameText(a, b)
    ensures Sqls(Expected(a, before)) == Sqls(Expected(b, before'))
    decreases a
  {
    hide IsBlank, Trim, Newlines, TextOf, SourceOf;
    if a != [] {
      if IsBlank(a[0]) { SameTextSameBlank(a[0], b[0]); }
      if IsBlank(b[0]) { SameTextSameBlank(b[0], a[0]); }
      var after, after' := before + SourceOf(a[0]) + ";", before' + SourceOf(b[0]) + ";";
      CommentsKeepExpected(a[1..], b[1..], after, after');
      KeptFirst(a, before, after);
      KeptFirst(b, before', after');
    }
  }

  /** Adding, removing or rewriting comments changes no statement's text. */
  lemma CommentsChangeOnlyLines(a: seq<seq<Piece>>, b: seq<seq<Piece>>)
    requires a != [] && SameText(a, b)
    requires forall k :: 0 <= k < |a| ==> Closed(a[k]) && Closed(b[k])
    ensures Sqls(Parsed(Join(a))) == Sqls(Parsed(Join(b)))
  {
    hide Closed, TextOf, Expected, Sqls, Join;
    SplittingUndoesJoining(a);
    SplittingUndoesJoining(b);
    CommentsKeepExpected(a, b, "", "");
  }
}
