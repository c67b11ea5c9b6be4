/**
 * What is reported of a path that is refused: after how many whole groups it breaks, where, and for want of what, said by
 * the grammar alone.
 */
module PathErrors {
  import opened Wrappers
  import opened IconPaths
  import opened PathGrammar
  import opened PathAcceptance

  // ----- what a fault is -----

  /** A number, or a flag, is written at the start of a text. */
  ghost predicate Begins(kind: Kind, text: string) {
    match kind
    case NumberOperand => exists n, after :: IsNumber(n) && text == NumberText(n) + after
    case FlagOperand => text != "" && (text[0] == '0' || text[0] == '1')
  }

  /** Separators, and then something else or nothing. */
  predicate Splits(text: string, sep: string, rest: string) {
    text == sep + rest && IsSep(sep) && (rest != "" ==> !IsSepChar(rest[0]))
  }

  /** A group of `c` from `start` has some of its operands and then not the next: what it wanted and where. */
  ghost predicate Wants(d: string, start: nat, c: char, ops: seq<Operand>, sep: string, left: string, e: PathError)
    requires start <= |d| && IsCommand(c)
  {
    && |ops| < |KindsOf(c)| && d[start..] == OperandsText(ops) + (sep + left)
    && Splits(sep + left, sep, left) && OperandsOk(ops, KindsOf(c)[..|ops|], sep + left)
    && !Begins(KindsOf(c)[|ops|], left)
    && e.reason == (if KindsOf(c)[|ops|] == FlagOperand then ExpectedFlag else ExpectedNumber)
    && e.offset == (if c == 'a' || c == 'A' then start else |d| - |left|)
  }

  ghost predicate GroupFault(d: string, start: nat, c: char, e: PathError)
    requires start <= |d| && IsCommand(c)
  {
    exists ops, sep, left :: Wants(d, start, c, ops, sep, left, e)
  }

  /** Whole groups, followed by `rest`. */
  predicate GroupsOk(steps: seq<Step>, cmd: Option<char>, rest: string)
    decreases |steps|
  {
    steps == [] || (StepOk(steps[0], cmd, PathText(steps[1..], rest)) && GroupsOk(steps[1..], CommandOf(steps[0], cmd), rest))
  }

  /** The command in force after some groups. */
  function CommandAfter(steps: seq<Step>, cmd: Option<char>): Option<char> {
    if steps == [] then cmd else CommandAfter(steps[1..], CommandOf(steps[0], cmd))
  }

  /** What stands at `at`, where a letter names a command and anything else repeats the last one. */
  ghost predicate FaultAt(d: string, at: nat, cmd: Option<char>, e: PathError)
    requires at < |d| && (cmd.Some? ==> IsCommand(cmd.value))
  {
    if IsLetter(d[at]) then
      if IsCommand(d[at]) then GroupFault(d, at + 1, d[at], e) else e == PathError(UnknownCommand, at)
    else if cmd.None? || IsClose(cmd.value) then e == PathError(ExpectedCommand, at)
    else GroupFault(d, at, cmd.value, e)
  }

  /** From `i`, after command `cmd`: whole groups, separators, and then a fault. */
  ghost predicate Breaks(d: string, i: nat, cmd: Option<char>, steps: seq<Step>, sep: string, rest: string, e: PathError)
    requires i <= |d|
  {
    && d[i..] == PathText(steps, sep + rest) && GroupsOk(steps, cmd, sep + rest)
    && Splits(sep + rest, sep, rest) && 0 < |rest| <= |d|
    && (CommandAfter(steps, cmd).Some? ==> IsCommand(CommandAfter(steps, cmd).value))
    && FaultAt(d, |d| - |rest|, CommandAfter(steps, cmd), e)
  }

  /** The error a path has: nothing but separators, no moveto first, or a fault after whole groups. */
  ghost predicate HasFault(d: string, e: PathError) {
    if IsSep(d) then e == PathError(EmptyPath, 0)
    else
      exists sep, rest :: Splits(d, sep, rest) && rest != "" &&
        if rest[0] != 'M' && rest[0] != 'm' then e == PathError(NoMoveto, |sep|)
        else exists steps, sep', rest' :: Breaks(d, 0, None, steps, sep', rest', e)
  }

  // ----- numbers that are there are scanned -----

  lemma NumberStarts(d: string, i: nat, n: Number, after: string)
    requires i <= |d| && d[i..] == NumberText(n) + after && IsNumber(n)
    ensures ScanNumber(d, i).Some?
  {
    var rest := FractionText(n.fraction) + (ExponentText(n.exponent) + after);
    TextSplits(n, after, ExponentText(n.exponent) + after, rest);
    FirstOfNumber(n, rest, ExponentText(n.exponent) + after);
    hide ExponentText, DigitsEnd, ExponentEnd;
    SignScanned(d, i, n.sign, n.whole + rest);
    DigitsStart(d, SignEnd(d, i), n, rest, ExponentText(n.exponent) + after);
  }

  lemma FirstOfNumber(n: Number, rest: string, tail: string)
    requires IsNumber(n) && rest == FractionText(n.fraction) + tail
    ensures !Is(n.whole + rest, 0, '+') && !Is(n.whole + rest, 0, '-')
  {
    if n.whole == "" { assert rest[0] == '.'; } else { assert IsDigit(n.whole[0]); }
  }

  lemma DigitsStart(d: string, start: nat, n: Number, rest: string, tail: string)
    requires start <= |d| && d[start..] == n.whole + rest && IsNumber(n) && rest == FractionText(n.fraction) + tail
    ensures var whole := DigitsEnd(d, start); whole > start || FractionEnd(d, whole) > whole + 1
  {
    if n.whole != "" {
      assert d[start] == d[start..][0] == n.whole[0];
      assert DigitsEnd(d, start + 1) >= start + 1;
    } else {
      assert d[start] == d[start..][0] == '.';
      assert d[start + 1] == d[start..][1] == n.fraction.value[0];
      assert DigitsEnd(d, start) == start;
      assert DigitsEnd(d, start + 2) >= start + 2;
    }
  }

  /** An operand scans exactly when one begins after the separators. */
  lemma ScansWhatBegins(d: string, i: nat, kind: Kind)
    requires i <= |d|
    ensures ScanOperand(d, i, kind).Ok? <==> Begins(kind, d[SkipSep(d, i)..])
    ensures ScanOperand(d, i, kind).Err? ==> ScanOperand(d, i, kind).error == SkipSep(d, i)
  {
    var at := SkipSep(d, i);
    if kind == NumberOperand {
      if ScanNumber(d, at).Some? {
        var end := ScanNumber(d, at).value;
        var n := ScannedIsNumber(d, at);
        assert d[at..] == NumberText(n) + d[end..];
      }
      if n, after :| IsNumber(n) && d[at..] == NumberText(n) + after {
        NumberStarts(d, at, n, after);
      }
    } else if at < |d| {
      assert d[at..][0] == d[at];
    }
  }

  // ----- groups that break off -----

  /** A group that fails has scanned some operands, and fails at the next. */
  lemma {:induction false} FailingOperand(d: string, i: nat, kinds: seq<Kind>) returns (n: nat, mid: nat)
    requires i <= |d| && ScanOperands(d, i, kinds).Err?
    ensures n < |kinds| && ScanOperands(d, i, kinds[..n]) == Ok(mid) && mid <= |d|
    ensures ScanOperand(d, mid, kinds[n]).Err?
    ensures ScanOperands(d, i, kinds).error == (kinds[n], ScanOperand(d, mid, kinds[n]).error)
    decreases |kinds|
  {
    var last := |kinds| - 1;
    if ScanOperands(d, i, kinds[..last]).Ok? {
      n, mid := last, ScanOperands(d, i, kinds[..last]).value;
    } else {
      n, mid := FailingOperand(d, i, kinds[..last]);
      assert kinds[..last][..n] == kinds[..n];
    }
  }

  lemma GroupBreaks(d: string, start: nat, c: char)
    requires start <= |d| && IsCommand(c) && ScanOperands(d, start, KindsOf(c)).Err?
    ensures GroupFault(d, start, c, GroupError(c, start, ScanOperands(d, start, KindsOf(c)).error))
  {
    hide *;
    var kinds := KindsOf(c);
    var n, mid := FailingOperand(d, start, kinds);
    var ops := OperandsRead(d, start, kinds[..n]);
    var at := SkipSep(d, mid);
    SkippedIsSep(d, mid);
    ScansWhatBegins(d, mid, kinds[n]);
    OperandsCount(ops, kinds[..n], d[mid..]);
    Cut(d, start, mid, at);
    SplitsHere(d, mid, at);
    MakesFault(d, start, c, ops, d[mid..at], d[at..], at);
  }

  lemma Cut(d: string, start: nat, mid: nat, at: nat)
    requires start <= mid <= at <= |d|
    ensures d[start..] == d[start..mid] + (d[mid..at] + d[at..]) && d[mid..] == d[mid..at] + d[at..]
  {
  }

  lemma SplitsHere(d: string, mid: nat, at: nat)
    requires mid <= at <= |d| && at == SkipSep(d, mid) && IsSep(d[mid..at])
    ensures Splits(d[mid..at] + d[at..], d[mid..at], d[at..])
  {
    hide SkipSep;
    if at < |d| { assert d[at..][0] == d[at]; }
  }

  lemma MakesFault(d: string, start: nat, c: char, ops: seq<Operand>, sep: string, left: string, at: nat)
    requires start <= |d| && at <= |d| && IsCommand(c) && |ops| < |KindsOf(c)| && d[start..] == OperandsText(ops) + (sep + left)
    requires Splits(sep + left, sep, left) && OperandsOk(ops, KindsOf(c)[..|ops|], sep + left)
    requires !Begins(KindsOf(c)[|ops|], left) && at + |left| == |d|
    ensures GroupFault(d, start, c, GroupError(c, start, (KindsOf(c)[|ops|], at)))
  {
    hide KindsOf, Begins, OperandsOk, OperandsText, Splits;
    LowerIs(c);
    assert Wants(d, start, c, ops, sep, left, GroupError(c, start, (KindsOf(c)[|ops|], at)));
  }

  lemma OperandsCount(ops: seq<Operand>, kinds: seq<Kind>, after: string)
    requires OperandsOk(ops, kinds, after)
    ensures |ops| == |kinds|
  {
  }

  lemma LowerIs(c: char)
    ensures Lower(c) == 'a' <==> c == 'a' || c == 'A'
  {
  }

  lemma WantsIsReported(d: string, start: nat, c: char, ops: seq<Operand>, sep: string, left: string, e: PathError)
    requires start <= |d| && IsCommand(c) && Wants(d, start, c, ops, sep, left, e)
    ensures ScanOperands(d, start, KindsOf(c)).Err?
    ensures e == GroupError(c, start, ScanOperands(d, start, KindsOf(c)).error)
  {
    hide KindsOf, Begins, OperandOk, OperandsOk, OperandsText, IsSep, IsSepChar, SkipSep, ScanOperand, ScanOperands, Splits;
    var kinds := KindsOf(c);
    var n := |ops|;
    OperandsScanned(d, start, ops, kinds[..n], sep + left);
    var mid := start + |OperandsText(ops)|;
    SplitsIs(sep + left, sep, left);
    SepScanned(d, mid, sep, left);
    ScansWhatBegins(d, mid, kinds[n]);
    assert |d| - |left| == mid + |sep| by { assert |d[start..]| == |OperandsText(ops)| + |sep + left|; }
    LowerIs(c);
    NextFails(d, start, kinds, n, mid);
  }

  lemma NextFails(d: string, i: nat, kinds: seq<Kind>, n: nat, mid: nat)
    requires i <= |d| && n < |kinds| && mid <= |d| && ScanOperands(d, i, kinds[..n]) == Ok(mid) && ScanOperand(d, mid, kinds[n]).Err?
    ensures ScanOperands(d, i, kinds) == Err((kinds[n], ScanOperand(d, mid, kinds[n]).error))
  {
    assert kinds[..n + 1][..n] == kinds[..n];
    hide ScanOperand;
    FailsThroughout(d, i, kinds, n);
  }

  lemma SplitsIs(text: string, sep: string, rest: string)
    requires Splits(text, sep, rest)
    ensures text == sep + rest && IsSep(sep) && (rest != "" ==> !IsSepChar(rest[0]))
  {
  }

  // ----- paths that break off -----

  /** What the outer loop reports at a fault. */
  lemma FaultIsReported(d: string, i: nat, cmd: Option<char>, e: PathError)
    requires i <= |d| && (cmd.Some? ==> IsCommand(cmd.value)) && SkipSep(d, i) < |d|
    requires FaultAt(d, SkipSep(d, i), cmd, e)
    ensures Steps(d, i, cmd) == Some(e)
  {
    hide SkipSep, ScanOperands, GroupError, KindsOf, GroupFault, IsCommand;
    var at := SkipSep(d, i);
    if IsLetter(d[at]) {
      if IsCommand(d[at]) { FaultyGroup(d, at + 1, d[at], e); }
    } else if cmd.Some? && !IsClose(cmd.value) {
      FaultyGroup(d, at, cmd.value, e);
    }
  }

  lemma FaultyGroup(d: string, start: nat, c: char, e: PathError)
    requires start <= |d| && IsCommand(c) && GroupFault(d, start, c, e)
    ensures !IsClose(c) && ScanOperands(d, start, KindsOf(c)).Err?
    ensures e == GroupError(c, start, ScanOperands(d, start, KindsOf(c)).error)
  {
    var ops, sep, left :| Wants(d, start, c, ops, sep, left, e);
    WantsIsReported(d, start, c, ops, sep, left, e);
  }

  lemma {:induction false} BreakIsReported(d: string, i: nat, cmd: Option<char>, steps: seq<Step>, sep: string, rest: string, e: PathError)
    requires i <= |d| && (cmd.Some? ==> IsCommand(cmd.value)) && Breaks(d, i, cmd, steps, sep, rest, e)
    ensures Steps(d, i, cmd) == Some(e)
    decreases |steps|
  {
    hide Steps, FaultAt, StepOk, StepText, SkipSep, IsCommand, IsSep, IsSepChar;
    if steps == [] {
      SepScanned(d, i, sep, rest);
      FaultIsReported(d, i, cmd, e);
    } else {
      StepScanned(d, i, steps[0], cmd, PathText(steps[1..], sep + rest));
      BreakIsReported(d, i + |StepText(steps[0])|, CommandOf(steps[0], cmd), steps[1..], sep, rest, e);
    }
  }

  /** A turn that does not report stands at a group that scans. */
  lemma GoingTurn(d: string, i: nat, cmd: Option<char>) returns (start: nat, c: char, end: nat, fault: bool)
    requires i <= |d| && (cmd.Some? ==> IsCommand(cmd.value)) && Steps(d, i, cmd).Some?
    ensures SkipSep(d, i) < |d|
    ensures fault ==> FaultAt(d, SkipSep(d, i), cmd, Steps(d, i, cmd).value)
    ensures !fault ==> TurnsAt(d, i, cmd, start, c) && start <= |d| && ScanOperands(d, start, KindsOf(c)) == Ok(end)
                       && i < end && Steps(d, end, Some(c)) == Steps(d, i, cmd)
  {
    var at := SkipSep(d, i);
    start, c, end, fault := 0, 'z', 0, true;
    if IsLetter(d[at]) && IsCommand(d[at]) {
      start, c := at + 1, d[at];
    } else if !IsLetter(d[at]) && cmd.Some? && !IsClose(cmd.value) {
      start, c := at, cmd.value;
    } else {
      return;
    }
    assert ScanOperands(d, start, []) == Ok(start);
    if ScanOperands(d, start, KindsOf(c)).Ok? {
      fault, end := false, ScanOperands(d, start, KindsOf(c)).value;
    } else {
      hide ScanOperands, KindsOf, SkipSep, GroupError, GroupFault;
      GroupBreaks(d, start, c);
    }
  }

  lemma {:induction false} ReportedIsBreak(d: string, i: nat, cmd: Option<char>) returns (steps: seq<Step>, sep: string, rest: string)
    requires i <= |d| && (cmd.Some? ==> IsCommand(cmd.value)) && Steps(d, i, cmd).Some?
    ensures Breaks(d, i, cmd, steps, sep, rest, Steps(d, i, cmd).value)
    decreases |d| - i
  {
    hide Steps, FaultAt, StepOk, StepText, SkipSep, IsCommand, IsSep, IsSepChar, KindsOf, ScanOperands;
    var start, c, end, fault := GoingTurn(d, i, cmd);
    if fault {
      var at := SkipSep(d, i);
      SkippedIsSep(d, i);
      steps, sep, rest := [], d[i..at], d[at..];
      assert d[i..] == sep + rest;
      assert rest[0] == d[at];
    } else {
      TurnIsCommand(d, i, cmd, start, c);
      var s := StepRead(d, i, start, end, c, cmd);
      hide TurnsAt;
      steps, sep, rest := ReportedIsBreak(d, end, Some(c));
      StepJoins(d, i, end, cmd, c, s, steps, sep, rest, Steps(d, i, cmd).value);
      steps := [s] + steps;
    }
  }

  lemma TurnIsCommand(d: string, i: nat, cmd: Option<char>, start: nat, c: char)
    requires i <= |d| && TurnsAt(d, i, cmd, start, c)
    ensures IsCommand(c)
  {
  }

  lemma StepJoins(d: string, i: nat, end: nat, cmd: Option<char>, c: char, s: Step, steps: seq<Step>, sep: string, rest: string, e: PathError)
    requires i <= end <= |d| && Breaks(d, end, Some(c), steps, sep, rest, e)
    requires d[i..end] == StepText(s) && StepOk(s, cmd, d[end..]) && CommandOf(s, cmd) == Some(c)
    ensures Breaks(d, i, cmd, [s] + steps, sep, rest, e)
  {
    hide FaultAt, StepOk, StepText;
    var all := [s] + steps;
    assert all[1..] == steps;
    assert d[i..] == d[i..end] + d[end..];
  }

  /** The check reports an error exactly when the path has it, and a path has no two. */
  lemma ReportsExactlyFaults(d: string, e: PathError)
    ensures Validated(d) == Some(e) <==> HasFault(d, e)
  {
    hide *;
    var at := SkipSep(d, 0);
    FirstPart(d, at);
    if at == |d| {
      OnlySeparators(d, e);
    } else {
      MovetoFaults(d, e);
      FromTheStart(d);
      FirstCharacter(d, at, e);
    }
  }

  lemma FirstPart(d: string, at: nat)
    requires at == SkipSep(d, 0)
    ensures at <= |d| && IsSep(d[..at]) && (at < |d| ==> !IsSepChar(d[at]))
  {
    SkippedIsSep(d, 0);
    assert d[0..at] == d[..at];
  }

  lemma OnlySeparators(d: string, e: PathError)
    requires SkipSep(d, 0) == |d| && IsSep(d[..|d|])
    ensures Validated(d) == Some(e) <==> HasFault(d, e)
  {
    hide SkipSep;
    assert d[..|d|] == d;
  }

  lemma FromTheStart(d: string)
    ensures Steps(d, SkipSep(d, 0), None) == Steps(d, 0, None)
  {
    SkipTwice(d, 0);
    hide SkipSep, ScanOperands, GroupError, KindsOf;
  }

  lemma FirstCharacter(d: string, at: nat, e: PathError)
    requires at == SkipSep(d, 0) && at < |d| && IsSep(d[..at]) && !IsSepChar(d[at])
    requires Steps(d, at, None) == Some(e) <==> exists steps, sep, rest :: Breaks(d, 0, None, steps, sep, rest, e)
    ensures Validated(d) == Some(e) <==> HasFault(d, e)
  {
    hide SkipSep, Steps, Breaks, Splits, IsSep, IsSepChar;
    NotAllSep(d, at);
    SplitsAt(d, at);
    forall sep, rest | Splits(d, sep, rest) && rest != "" ensures |sep| == at && rest == d[at..] {
      SplitAt(d, sep, rest);
    }
  }

  lemma SplitsAt(d: string, at: nat)
    requires at < |d| && IsSep(d[..at]) && !IsSepChar(d[at])
    ensures Splits(d, d[..at], d[at..]) && d[at..] != "" && d[at..][0] == d[at]
  {
    assert d == d[..at] + d[at..];
  }

  lemma NotAllSep(d: string, at: nat)
    requires at < |d| && !IsSepChar(d[at])
    ensures !IsSep(d)
  {
  }

  lemma SplitAt(d: string, sep: string, rest: string)
    requires Splits(d, sep, rest) && rest != ""
    ensures |sep| == SkipSep(d, 0) && rest == d[SkipSep(d, 0)..]
  {
    assert d[0..] == d;
    SepScanned(d, 0, sep, rest);
  }

  lemma MovetoFaults(d: string, e: PathError)
    requires |d| > 0
    ensures Steps(d, 0, None) == Some(e) <==> exists steps, sep, rest :: Breaks(d, 0, None, steps, sep, rest, e)
  {
    hide Steps, Breaks;
    if Steps(d, 0, None) == Some(e) {
      var steps, sep, rest := ReportedIsBreak(d, 0, None);
    }
    if steps, sep, rest :| Breaks(d, 0, None, steps, sep, rest, e) {
      BreakIsReported(d, 0, None, steps, sep, rest, e);
    }
  }
}
