/** The path check accepts exactly the strings the grammar describes. */
module PathAcceptance {
  import opened Wrappers
  import opened IconPaths
  import opened PathGrammar

  // ----- what is written is accepted -----

  lemma ValueStart(o: Operand, kind: Kind, after: string)
    requires OperandOk(o, kind, after)
    ensures ValueText(o.value) != "" && !IsSepChar(ValueText(o.value)[0])
  {
    if kind == NumberOperand {
      var n := o.value.number;
      if n.whole != "" { assert IsDigit(n.whole[0]); }
      assert n.sign != "" || n.whole != "" || FractionText(n.fraction) != "";
      hide ExponentText, Delimited;
    }
  }

  lemma OperandScanned(d: string, i: nat, o: Operand, kind: Kind, after: string)
    requires i <= |d| && d[i..] == OperandText(o) + after && OperandOk(o, kind, after)
    ensures ScanOperand(d, i, kind) == Ok(i + |OperandText(o)|)
    ensures d[i + |OperandText(o)|..] == after
  {
    var text := ValueText(o.value);
    var before := SkipSep(d, i);
    ValueStart(o, kind, after);
    TextAfterSep(d, i, o.sep, text, after);
    hide IsNumber, Delimited, NumberText, SkipSep, ScanNumber, IsSep, IsSepChar;
    if kind == NumberOperand {
      NumberScanned(d, before, o.value.number, after);
    } else {
      OneAhead(d, before, o.value.c, after);
    }
  }

  lemma TextAfterSep(d: string, i: nat, sep: string, text: string, after: string)
    requires i <= |d| && d[i..] == sep + text + after && IsSep(sep) && text != "" && !IsSepChar(text[0])
    ensures SkipSep(d, i) == i + |sep| && d[SkipSep(d, i)..] == text + after
  {
    hide SkipSep, IsSepChar;
    assert sep + text + after == sep + (text + after);
    SepScanned(d, i, sep, text + after);
  }

  lemma {:induction false} OperandsScanned(d: string, i: nat, ops: seq<Operand>, kinds: seq<Kind>, after: string)
    requires i <= |d| && d[i..] == OperandsText(ops) + after && OperandsOk(ops, kinds, after)
    ensures ScanOperands(d, i, kinds) == Ok(i + |OperandsText(ops)|)
    ensures d[i + |OperandsText(ops)|..] == after
    decreases |ops|
  {
    hide OperandOk, OperandText, ScanOperand;
    if ops != [] {
      var last := |ops| - 1;
      var rest := OperandText(ops[last]) + after;
      assert OperandsText(ops) + after == OperandsText(ops[..last]) + rest;
      OperandsScanned(d, i, ops[..last], kinds[..last], rest);
      OperandScanned(d, i + |OperandsText(ops[..last])|, ops[last], kinds[last], after);
    }
  }

  lemma {:induction false} SkipTwice(d: string, i: nat)
    requires i <= |d|
    ensures SkipSep(d, SkipSep(d, i)) == SkipSep(d, i)
    decreases |d| - i
  {
    if i < |d| && IsSepChar(d[i]) {
      SkipTwice(d, i + 1);
    }
  }

  /** Separators before a group are skipped in any case. */
  lemma {:induction false} SkippedFirst(d: string, i: nat, kinds: seq<Kind>)
    requires i <= |d| && kinds != []
    ensures ScanOperands(d, SkipSep(d, i), kinds) == ScanOperands(d, i, kinds)
    decreases |kinds|
  {
    if |kinds| == 1 {
      SkipTwice(d, i);
      assert kinds[..0] == [];
    } else {
      SkippedFirst(d, i, kinds[..|kinds| - 1]);
    }
  }

  /** A group that scans does not begin with a letter. */
  lemma {:induction false} GroupStart(d: string, i: nat, kinds: seq<Kind>)
    requires i <= |d| && kinds != [] && ScanOperands(d, i, kinds).Ok?
    ensures SkipSep(d, i) < |d| && !IsLetter(d[SkipSep(d, i)])
    decreases |kinds|
  {
    if |kinds| == 1 {
      assert kinds[..0] == [];
      assert ScanOperand(d, i, kinds[0]).Ok?;
    } else {
      GroupStart(d, i, kinds[..|kinds| - 1]);
    }
  }

  /** One turn of the outer loop, at a group or a closepath. */
  ghost predicate TurnsAt(d: string, i: nat, cmd: Option<char>, start: nat, c: char)
    requires i <= |d|
  {
    var at := SkipSep(d, i);
    && at < |d| && IsCommand(c)
    && if IsLetter(d[at]) then c == d[at] && start == at + 1 else cmd == Some(c) && !IsClose(c) && start == at
  }

  lemma StepsTurn(d: string, i: nat, cmd: Option<char>, start: nat, c: char, end: nat)
    requires i <= |d| && (cmd.Some? ==> IsCommand(cmd.value)) && TurnsAt(d, i, cmd, start, c)
    requires start <= |d| && ScanOperands(d, start, KindsOf(c)) == Ok(end)
    ensures Steps(d, i, cmd) == Steps(d, end, Some(c))
  {
    if KindsOf(c) == [] { assert ScanOperands(d, start, []) == Ok(start); }
    hide ScanOperands, KindsOf, SkipSep, GroupError;
  }

  lemma LetterStepScanned(d: string, i: nat, s: Step, cmd: Option<char>, after: string)
    requires i <= |d| && (cmd.Some? ==> IsCommand(cmd.value)) && d[i..] == StepText(s) + after && StepOk(s, cmd, after) && s.letter.Some?
    ensures i + |StepText(s)| <= |d| && d[i + |StepText(s)|..] == after
    ensures Steps(d, i, cmd) == Steps(d, i + |StepText(s)|, s.letter)
  {
    hide OperandsOk, ScanOperands, OperandsText, IsSep, KindsOf, Steps, SkipSep;
    var c := s.letter.value;
    var text := OperandsText(s.operands);
    assert d[i..] == s.sep + ([c] + (text + after));
    SepScanned(d, i, s.sep, [c] + (text + after));
    var at := SkipSep(d, i);
    assert d[at] == d[at..][0] == c;
    assert d[at + 1..] == d[at..][1..] == text + after;
    OperandsScanned(d, at + 1, s.operands, KindsOf(c), after);
    StepsTurn(d, i, cmd, at + 1, c, at + 1 + |text|);
  }

  lemma RepeatScanned(d: string, i: nat, s: Step, cmd: Option<char>, after: string)
    requires i <= |d| && (cmd.Some? ==> IsCommand(cmd.value)) && d[i..] == StepText(s) + after && StepOk(s, cmd, after) && s.letter.None?
    ensures i + |StepText(s)| <= |d| && d[i + |StepText(s)|..] == after
    ensures Steps(d, i, cmd) == Steps(d, i + |StepText(s)|, cmd)
  {
    hide OperandsOk, ScanOperands, OperandsText, IsSep, KindsOf, Steps, SkipSep;
    var text := OperandsText(s.operands);
    assert StepText(s) == "" + text;
    assert "" + text == text;
    OperandsScanned(d, i, s.operands, KindsOf(cmd.value), after);
    SkippedFirst(d, i, KindsOf(cmd.value));
    GroupStart(d, i, KindsOf(cmd.value));
    StepsTurn(d, i, cmd, SkipSep(d, i), cmd.value, i + |text|);
  }

  lemma StepScanned(d: string, i: nat, s: Step, cmd: Option<char>, after: string)
    requires i <= |d| && (cmd.Some? ==> IsCommand(cmd.value)) && d[i..] == StepText(s) + after && StepOk(s, cmd, after)
    ensures i + |StepText(s)| <= |d| && d[i + |StepText(s)|..] == after
    ensures CommandOf(s, cmd).Some? && IsCommand(CommandOf(s, cmd).value)
    ensures Steps(d, i, cmd) == Steps(d, i + |StepText(s)|, CommandOf(s, cmd))
  {
    hide StepText, Steps, OperandsOk, IsSep;
    if s.letter.Some? { LetterStepScanned(d, i, s, cmd, after); } else { RepeatScanned(d, i, s, cmd, after); }
  }

  lemma {:induction false} StepsScanned(d: string, i: nat, steps: seq<Step>, cmd: Option<char>, trail: string)
    requires i <= |d| && (cmd.Some? ==> IsCommand(cmd.value))
    requires d[i..] == PathText(steps, trail) && StepsOk(steps, cmd, trail)
    ensures Steps(d, i, cmd) == None
    decreases |steps|
  {
    hide StepText, Steps, IsSep, StepOk, IsCommand, CommandOf;
    if steps == [] {
      TrailScanned(d, i, cmd, trail);
    } else {
      StepScanned(d, i, steps[0], cmd, PathText(steps[1..], trail));
      StepsScanned(d, i + |StepText(steps[0])|, steps[1..], CommandOf(steps[0], cmd), trail);
    }
  }

  lemma TrailScanned(d: string, i: nat, cmd: Option<char>, trail: string)
    requires i <= |d| && (cmd.Some? ==> IsCommand(cmd.value)) && d[i..] == trail && IsSep(trail)
    ensures Steps(d, i, cmd) == None
  {
    assert d[i..] == trail + "";
    SepScanned(d, i, trail, "");
  }

  lemma PathAccepted(d: string, steps: seq<Step>, trail: string)
    requires IsPath(steps, trail) && d == PathText(steps, trail)
    ensures Validated(d) == None
  {
    assert d[0..] == d;
    StepsScanned(d, 0, steps, None, trail);
    MovetoFirst(d, steps, trail);
    hide Steps, SkipSep;
  }

  lemma MovetoFirst(d: string, steps: seq<Step>, trail: string)
    requires IsPath(steps, trail) && d == PathText(steps, trail)
    ensures SkipSep(d, 0) < |d| && steps[0].letter == Some(d[SkipSep(d, 0)])
  {
    var s := steps[0];
    var rest := OperandsText(s.operands) + PathText(steps[1..], trail);
    assert IsSep(s.sep);
    hide OperandsOk, OperandsText, PathText, SkipSep, IsSep;
    PathUnfolds(steps, trail);
    assert d[0..] == d;
    SepScanned(d, 0, s.sep, [s.letter.value] + rest);
    OneAhead(d, SkipSep(d, 0), s.letter.value, rest);
  }

  lemma PathUnfolds(steps: seq<Step>, trail: string)
    requires steps != [] && steps[0].letter.Some?
    ensures PathText(steps, trail) ==
            steps[0].sep + ([steps[0].letter.value] + (OperandsText(steps[0].operands) + PathText(steps[1..], trail)))
  {
    hide OperandsText;
  }

  // ----- what is accepted was written so -----

  lemma OperandRead(d: string, i: nat, kind: Kind) returns (o: Operand)
    requires i <= |d| && ScanOperand(d, i, kind).Ok?
    ensures var end := ScanOperand(d, i, kind).value;
            d[i..end] == OperandText(o) && OperandOk(o, kind, d[end..])
  {
    var before := SkipSep(d, i);
    var end := ScanOperand(d, i, kind).value;
    SkippedIsSep(d, i);
    hide SkipSep, IsNumber, Delimited, NumberText, IsSep;
    assert d[i..end] == d[i..before] + d[before..end];
    if kind == NumberOperand {
      var n := ScannedIsNumber(d, before);
      o := Operand(d[i..before], Num(n));
    } else {
      o := Operand(d[i..before], Flag(d[before]));
      assert d[before..end] == [d[before]];
    }
  }

  lemma {:induction false} OperandsRead(d: string, i: nat, kinds: seq<Kind>) returns (ops: seq<Operand>)
    requires i <= |d| && ScanOperands(d, i, kinds).Ok?
    ensures var end := ScanOperands(d, i, kinds).value;
            d[i..end] == OperandsText(ops) && OperandsOk(ops, kinds, d[end..])
    decreases |kinds|
  {
    if kinds == [] {
      ops := [];
    } else {
      var last := |kinds| - 1;
      var front := OperandsRead(d, i, kinds[..last]);
      var mid := ScanOperands(d, i, kinds[..last]).value;
      var o := OperandRead(d, mid, kinds[last]);
      var end := ScanOperands(d, i, kinds).value;
      ops := front + [o];
      hide ScanOperands, ScanOperand;
      OperandJoins(d, i, mid, end, front, o, kinds);
    }
  }

  lemma OneMoreOperand(front: seq<Operand>, o: Operand, kinds: seq<Kind>, after: string)
    requires kinds != [] && OperandsOk(front, kinds[..|kinds| - 1], OperandText(o) + after) && OperandOk(o, kinds[|kinds| - 1], after)
    ensures OperandsOk(front + [o], kinds, after) && OperandsText(front + [o]) == OperandsText(front) + OperandText(o)
  {
    hide OperandOk, OperandText;
    var ops := front + [o];
    assert ops[..|ops| - 1] == front;
  }

  lemma OperandJoins(d: string, i: nat, mid: nat, end: nat, front: seq<Operand>, o: Operand, kinds: seq<Kind>)
    requires i <= mid <= end <= |d| && kinds != []
    requires d[i..mid] == OperandsText(front) && OperandsOk(front, kinds[..|kinds| - 1], d[mid..])
    requires d[mid..end] == OperandText(o) && OperandOk(o, kinds[|kinds| - 1], d[end..])
    ensures d[i..end] == OperandsText(front + [o]) && OperandsOk(front + [o], kinds, d[end..])
  {
    hide OperandOk, OperandText, OperandsOk, OperandsText;
    assert d[mid..] == d[mid..end] + d[end..];
    assert d[i..end] == d[i..mid] + d[mid..end];
    OneMoreOperand(front, o, kinds, d[end..]);
  }

  lemma StepRead(d: string, i: nat, start: nat, end: nat, c: char, cmd: Option<char>) returns (s: Step)
    requires i <= |d| && (cmd.Some? ==> IsCommand(cmd.value)) && TurnsAt(d, i, cmd, start, c)
    requires start <= |d| && ScanOperands(d, start, KindsOf(c)) == Ok(end)
    ensures i <= end <= |d| && d[i..end] == StepText(s) && StepOk(s, cmd, d[end..]) && CommandOf(s, cmd) == Some(c)
    ensures IsLetter(d[SkipSep(d, i)]) ==> s.letter == Some(c)
  {
    hide OperandsOk, OperandsText, ScanOperands, KindsOf, IsCommand;
    var at := SkipSep(d, i);
    if IsLetter(d[at]) {
      var ops := OperandsRead(d, start, KindsOf(c));
      SkippedIsSep(d, i);
      s := Step(d[i..at], Some(c), ops);
      assert d[i..end] == d[i..at] + [d[at]] + d[start..end];
    } else {
      SkippedFirst(d, i, KindsOf(c));
      var ops := OperandsRead(d, i, KindsOf(c));
      s := Step("", None, ops);
      assert StepText(s) == "" + OperandsText(ops);
      assert "" + OperandsText(ops) == OperandsText(ops);
    }
  }

  /** A turn of an accepting run is at a group that scans. */
  lemma AcceptingTurn(d: string, i: nat, cmd: Option<char>) returns (start: nat, c: char, end: nat)
    requires i <= |d| && (cmd.Some? ==> IsCommand(cmd.value)) && Steps(d, i, cmd) == None && SkipSep(d, i) < |d|
    ensures TurnsAt(d, i, cmd, start, c) && start <= |d|
    ensures ScanOperands(d, start, KindsOf(c)) == Ok(end) && i < end && Steps(d, end, Some(c)) == None
  {
    var at := SkipSep(d, i);
    if IsLetter(d[at]) {
      start, c := at + 1, d[at];
    } else {
      start, c := at, cmd.value;
    }
    if IsClose(c) {
      end := start;
      assert ScanOperands(d, start, []) == Ok(start);
    } else {
      hide ScanOperands, KindsOf, GroupError, SkipSep;
      end := ScanOperands(d, start, KindsOf(c)).value;
    }
  }

  lemma {:induction false} StepsRead(d: string, i: nat, cmd: Option<char>) returns (steps: seq<Step>, trail: string)
    requires i <= |d| && (cmd.Some? ==> IsCommand(cmd.value)) && Steps(d, i, cmd) == None
    ensures d[i..] == PathText(steps, trail) && StepsOk(steps, cmd, trail)
    ensures var at := SkipSep(d, i); at < |d| && IsLetter(d[at]) ==> steps != [] && steps[0].letter == Some(d[at])
    decreases |d| - i
  {
    hide StepText, StepOk, Steps, SkipSep, IsCommand, KindsOf, ScanOperands;
    if SkipSep(d, i) == |d| {
      SkippedIsSep(d, i);
      assert d[i..|d|] == d[i..];
      steps, trail := [], d[i..];
    } else {
      var start, c, end := AcceptingTurn(d, i, cmd);
      var s := StepRead(d, i, start, end, c, cmd);
      hide TurnsAt;
      var rest;
      rest, trail := StepsRead(d, end, Some(c));
      steps := [s] + rest;
      assert steps[1..] == rest;
      assert d[i..] == d[i..end] + d[end..];
    }
  }

  /** The check accepts a string exactly when it is path data. */
  lemma AcceptsExactlyPaths(d: string)
    ensures Validated(d) == None <==> exists steps, trail :: IsPath(steps, trail) && d == PathText(steps, trail)
  {
    if Validated(d) == None {
      var steps, trail := StepsRead(d, 0, None);
      assert d[0..] == d;
      assert IsPath(steps, trail);
    }
    if steps, trail :| IsPath(steps, trail) && d == PathText(steps, trail) {
      PathAccepted(d, steps, trail);
    }
  }

  // ----- canonical printing -----

  /** The shape of path data, whatever separates its parts. */
  predicate IsShaped(steps: seq<Step>, cmd: Option<char>)
    decreases |steps|
  {
    steps == [] ||
    var s := steps[0];
    && CommandOf(s, cmd).Some? && IsCommand(CommandOf(s, cmd).value)
    && (s.letter.None? ==> !IsClose(cmd.value))
    && ValuesOk(s.operands, KindsOf(CommandOf(s, cmd).value))
    && IsShaped(steps[1..], CommandOf(s, cmd))
  }

  predicate ValuesOk(ops: seq<Operand>, kinds: seq<Kind>) {
    && |ops| == |kinds|
    && forall k :: 0 <= k < |ops| ==>
         if kinds[k] == NumberOperand then ops[k].value.Num? && IsNumber(ops[k].value.number)
         else ops[k].value.Flag? && (ops[k].value.c == '0' || ops[k].value.c == '1')
  }

  function SpacedOperands(ops: seq<Operand>): (r: seq<Operand>)
    ensures |r| == |ops|
  {
    if ops == [] then [] else SpacedOperands(ops[..|ops| - 1]) + [ops[|ops| - 1].(sep := " ")]
  }

  /** Path data with one space before every part. */
  function Spaced(steps: seq<Step>): seq<Step> {
    if steps == [] then []
    else [Step(if steps[0].letter.Some? then " " else "", steps[0].letter, SpacedOperands(steps[0].operands))] + Spaced(steps[1..])
  }

  predicate Calm(after: string) {
    after == "" || after[0] == ' '
  }

  lemma SpacedOperandOk(o: Operand, kind: Kind, after: string)
    requires Calm(after) && o.sep == " "
    requires if kind == NumberOperand then o.value.Num? && IsNumber(o.value.number) else o.value.Flag? && (o.value.c == '0' || o.value.c == '1')
    ensures OperandOk(o, kind, after) && Calm(OperandText(o) + after)
  {
    hide IsNumber, NumberText;
  }

  lemma {:induction false} SpacedOperandsOk(ops: seq<Operand>, kinds: seq<Kind>, after: string)
    requires ValuesOk(ops, kinds) && Calm(after)
    ensures OperandsOk(SpacedOperands(ops), kinds, after) && Calm(OperandsText(SpacedOperands(ops)) + after)
    decreases |ops|
  {
    if ops == [] {
      assert "" + after == after;
    } else {
      var last := |ops| - 1;
      var front := SpacedOperands(ops[..last]);
      var o := ops[last].(sep := " ");
      hide OperandOk, OperandText, OperandsOk, OperandsText, IsNumber, Calm;
      SpacedOperandOk(o, kinds[last], after);
      SpacedOperandsOk(ops[..last], kinds[..last], OperandText(o) + after);
      OneMoreOperand(front, o, kinds, after);
      assert OperandsText(front) + OperandText(o) + after == OperandsText(front) + (OperandText(o) + after);
    }
  }

  lemma {:induction false} SpacedStepsOk(steps: seq<Step>, cmd: Option<char>)
    requires IsShaped(steps, cmd)
    ensures StepsOk(Spaced(steps), cmd, "") && Calm(PathText(Spaced(steps), ""))
    decreases |steps|
  {
    if steps != [] {
      hide ValuesOk, StepOk, StepText, SpacedOperands, IsCommand, KindsOf;
      var s := steps[0];
      var spaced := Spaced(steps);
      assert spaced[1..] == Spaced(steps[1..]);
      SpacedStepsOk(steps[1..], CommandOf(s, cmd));
      SpacedStepOk(s, spaced[0], cmd, PathText(spaced[1..], ""));
    }
  }

  lemma SpacedStepOk(s: Step, spaced: Step, cmd: Option<char>, after: string)
    requires CommandOf(s, cmd).Some? && IsCommand(CommandOf(s, cmd).value) && (s.letter.None? ==> !IsClose(cmd.value))
    requires ValuesOk(s.operands, KindsOf(CommandOf(s, cmd).value)) && Calm(after)
    requires spaced == Step(if s.letter.Some? then " " else "", s.letter, SpacedOperands(s.operands))
    ensures StepOk(spaced, cmd, after) && CommandOf(spaced, cmd) == CommandOf(s, cmd) && Calm(StepText(spaced) + after)
  {
    hide OperandsOk, ValuesOk, OperandsText, SpacedOperands, IsCommand, KindsOf;
    SpacedOperandsOk(s.operands, KindsOf(CommandOf(s, cmd).value), after);
    assert s.letter.None? ==> StepText(spaced) + after == OperandsText(spaced.operands) + after;
  }

  /** Every command sequence that starts with a moveto is accepted when printed with single spaces. */
  lemma CanonicalIsAccepted(steps: seq<Step>)
    requires steps != [] && (steps[0].letter == Some('M') || steps[0].letter == Some('m')) && IsShaped(steps, None)
    ensures Validated(PathText(Spaced(steps), "")) == None
  {
    SpacedStepsOk(steps, None);
    PathAccepted(PathText(Spaced(steps), ""), Spaced(steps), "");
  }
}
