/** The SVG path data check: the scanners as functions and as the loops that run them. */
module IconPaths {
  import opened Wrappers

  datatype Kind = NumberOperand | FlagOperand

  datatype Reason = EmptyPath | NoMoveto | UnknownCommand | ExpectedCommand | ExpectedNumber | ExpectedFlag

  datatype PathError = PathError(reason: Reason, offset: nat)

  predicate IsSepChar(c: char) {
    c == ' ' || c == '\t' || c == '\n' || c == '\r' || c == '\U{000C}' || c == ','
  }

  predicate IsDigit(c: char) {
    '0' <= c <= '9'
  }

  predicate IsLetter(c: char) {
    'a' <= c <= 'z' || 'A' <= c <= 'Z'
  }

  function Lower(c: char): char {
    if 'A' <= c <= 'Z' then (c as int + 32) as char else c
  }

  predicate Is(d: string, i: nat, c: char) {
    i < |d| && d[i] == c
  }

  predicate IsCommand(c: char) {
    Lower(c) in {'m', 'l', 'h', 'v', 'c', 's', 'q', 't', 'a', 'z'}
  }

  predicate IsClose(c: char) {
    Lower(c) == 'z'
  }

  /** The operands one group of a command takes; repeated groups of a moveto are linetos, which take as many. */
  function KindsOf(c: char): (kinds: seq<Kind>)
    requires IsCommand(c)
    ensures kinds == [] <==> IsClose(c)
  {
    var n := NumberOperand;
    match Lower(c)
    case 'a' => [n, n, n, FlagOperand, FlagOperand, n, n]
    case 'h' => [n]
    case 'v' => [n]
    case 'm' => [n, n]
    case 'l' => [n, n]
    case 't' => [n, n]
    case 's' => [n, n, n, n]
    case 'q' => [n, n, n, n]
    case 'c' => [n, n, n, n, n, n]
    case _ => []
  }

  // ----- the scanners as functions -----

  function SkipSep(d: string, i: nat): (j: nat)
    requires i <= |d|
    ensures i <= j <= |d| && (j < |d| ==> !IsSepChar(d[j]))
    decreases |d| - i
  {
    if i < |d| && IsSepChar(d[i]) then SkipSep(d, i + 1) else i
  }

  function DigitsEnd(d: string, i: nat): (j: nat)
    requires i <= |d|
    ensures i <= j <= |d|
    decreases |d| - i
  {
    if i < |d| && IsDigit(d[i]) then DigitsEnd(d, i + 1) else i
  }

  function SignEnd(d: string, i: nat): (j: nat)
    requires i <= |d|
    ensures i <= j <= |d|
  {
    if Is(d, i, '+') || Is(d, i, '-') then i + 1 else i
  }

  /** The end of an exponent at `i`, or `i` if none with digits begins there. */
  function ExponentEnd(d: string, i: nat): (j: nat)
    requires i <= |d|
    ensures i <= j <= |d|
  {
    if Is(d, i, 'e') || Is(d, i, 'E') then
      var digits := SignEnd(d, i + 1);
      var end := DigitsEnd(d, digits);
      if end > digits then end else i
    else i
  }

  /** The end of the fraction after an integer part ending at `i`. */
  function FractionEnd(d: string, i: nat): (j: nat)
    requires i <= |d|
    ensures i <= j <= |d|
  {
    if Is(d, i, '.') then DigitsEnd(d, i + 1) else i
  }

  function ScanNumber(d: string, i: nat): (r: Option<nat>)
    requires i <= |d|
    ensures r.Some? ==> i < r.value <= |d|
  {
    var start := SignEnd(d, i);
    var whole := DigitsEnd(d, start);
    var fraction := FractionEnd(d, whole);
    if whole == start && fraction <= whole + 1 then None else Some(ExponentEnd(d, fraction))
  }

  /** Where one operand ends, or where it should have begun. */
  function ScanOperand(d: string, i: nat, kind: Kind): (r: Result<nat, nat>)
    requires i <= |d|
    ensures r.Ok? ==> i < r.value <= |d|
    ensures r.Err? ==> r.error <= |d|
  {
    var before := SkipSep(d, i);
    match kind
    case NumberOperand => var end := ScanNumber(d, before); if end.Some? then Ok(end.value) else Err(before)
    case FlagOperand => if Is(d, before, '0') || Is(d, before, '1') then Ok(before + 1) else Err(before)
  }

  /** Where a group of operands ends, or the kind and place of the first one missing. */
  function ScanOperands(d: string, i: nat, kinds: seq<Kind>): (r: Result<nat, (Kind, nat)>)
    requires i <= |d|
    ensures r.Ok? ==> i <= r.value <= |d| && (kinds != [] ==> i < r.value)
    ensures r.Err? ==> r.error.1 <= |d|
    decreases |kinds|
  {
    if kinds == [] then Ok(i)
    else
      var last := kinds[|kinds| - 1];
      match ScanOperands(d, i, kinds[..|kinds| - 1])
      case Err(e) => Err(e)
      case Ok(j) => match ScanOperand(d, j, last) case Ok(k) => Ok(k) case Err(at) => Err((last, at))
  }

  /** What is reported for a group: arcs report the group's start, others the missing operand's place. */
  function GroupError(c: char, i: nat, missing: (Kind, nat)): PathError {
    PathError(if missing.0 == FlagOperand then ExpectedFlag else ExpectedNumber, if Lower(c) == 'a' then i else missing.1)
  }

  /** The outer loop from `i`, after command `cmd`. */
  function Steps(d: string, i: nat, cmd: Option<char>): Option<PathError>
    requires i <= |d| && (cmd.Some? ==> IsCommand(cmd.value))
    decreases |d| - i
  {
    var at := SkipSep(d, i);
    if at == |d| then None
    else if IsLetter(d[at]) then
      if !IsCommand(d[at]) then Some(PathError(UnknownCommand, at))
      else if IsClose(d[at]) then Steps(d, at + 1, Some(d[at]))
      else
        match ScanOperands(d, at + 1, KindsOf(d[at]))
        case Ok(end) => Steps(d, end, Some(d[at]))
        case Err(missing) => Some(GroupError(d[at], at + 1, missing))
    else if cmd.None? || IsClose(cmd.value) then Some(PathError(ExpectedCommand, at))
    else
      match ScanOperands(d, at, KindsOf(cmd.value))
      case Ok(end) => Steps(d, end, cmd)
      case Err(missing) => Some(GroupError(cmd.value, at, missing))
  }

  function Validated(d: string): Option<PathError> {
    var i := SkipSep(d, 0);
    if i == |d| then Some(PathError(EmptyPath, 0))
    else if d[i] != 'M' && d[i] != 'm' then Some(PathError(NoMoveto, i))
    else Steps(d, i, None)
  }

  // ----- the loops -----

  method Skip(d: string, i: nat) returns (j: nat)
    requires i <= |d|
    ensures j == SkipSep(d, i)
  {
    j := i;
    while j < |d| && IsSepChar(d[j])
      invariant i <= j <= |d| && SkipSep(d, j) == SkipSep(d, i)
    {
      j := j + 1;
    }
  }

  method ScanDigits(d: string, i: nat) returns (j: nat, digits: nat)
    requires i <= |d|
    ensures j == DigitsEnd(d, i) && digits == j - i
  {
    j, digits := i, 0;
    while j < |d| && IsDigit(d[j])
      invariant i <= j <= |d| && DigitsEnd(d, j) == DigitsEnd(d, i) && digits == j - i
    {
      j, digits := j + 1, digits + 1;
    }
  }

  method ReadNumber(d: string, start: nat) returns (r: Option<nat>)
    requires start <= |d|
    ensures r == ScanNumber(d, start)
  {
    var i := start;
    if i < |d| && (d[i] == '+' || d[i] == '-') { i := i + 1; }
    var digits: nat;
    i, digits := ScanDigits(d, i);
    if i < |d| && d[i] == '.' {
      var more: nat;
      i, more := ScanDigits(d, i + 1);
      digits := digits + more;
    }
    if digits == 0 {
      return None;
    }
    if i < |d| && (d[i] == 'e' || d[i] == 'E') {
      var j := i + 1;
      if j < |d| && (d[j] == '+' || d[j] == '-') { j := j + 1; }
      var expDigits: nat;
      j, expDigits := ScanDigits(d, j);
      if expDigits > 0 { i := j; }
    }
    r := Some(i);
  }

  /** Scans the operands of one group in turn. */
  method ScanGroup(d: string, start: nat, kinds: seq<Kind>) returns (r: Result<nat, (Kind, nat)>)
    requires start <= |d|
    ensures r == ScanOperands(d, start, kinds)
  {
    var i := start;
    for n := 0 to |kinds|
      invariant i <= |d| && ScanOperands(d, start, kinds[..n]) == Ok(i)
    {
      assert kinds[..n + 1][..n] == kinds[..n];
      FailsThroughout(d, start, kinds, n);
      var before := Skip(d, i);
      if kinds[n] == NumberOperand {
        var next := ReadNumber(d, before);
        if next.None? {
          return Err((NumberOperand, before));
        }
        i := next.value;
      } else {
        if !Is(d, before, '0') && !Is(d, before, '1') {
          return Err((FlagOperand, before));
        }
        i := before + 1;
      }
    }
    assert kinds[..|kinds|] == kinds;
    r := Ok(i);
  }

  /** A group fails as its first failing operand does. */
  lemma {:induction false} FailsThroughout(d: string, i: nat, kinds: seq<Kind>, n: nat)
    requires i <= |d| && n < |kinds|
    ensures ScanOperands(d, i, kinds[..n + 1]).Err? ==> ScanOperands(d, i, kinds) == ScanOperands(d, i, kinds[..n + 1])
    decreases |kinds|
  {
    if n + 1 < |kinds| {
      var fewer := kinds[..|kinds| - 1];
      FailsThroughout(d, i, fewer, n);
      assert fewer[..n + 1] == kinds[..n + 1];
    } else {
      assert kinds[..n + 1] == kinds;
    }
  }

  /** The first structural error of a path, if any. */
  method ValidatePath(d: string) returns (error: Option<PathError>)
    ensures error == Validated(d)
  {
    var i := Skip(d, 0);
    if i >= |d| {
      return Some(PathError(EmptyPath, 0));
    }
    if d[i] != 'M' && d[i] != 'm' {
      return Some(PathError(NoMoveto, i));
    }
    var cmd: Option<char> := None;
    while i < |d|
      invariant i <= |d| && (cmd.Some? ==> IsCommand(cmd.value))
      invariant Steps(d, i, cmd) == Validated(d)
      decreases |d| - i
    {
      i := Skip(d, i);
      if i >= |d| { break; }
      var ch := d[i];
      if IsLetter(ch) {
        if !IsCommand(ch) {
          return Some(PathError(UnknownCommand, i));
        }
        cmd := Some(ch);
        i := i + 1;
        if IsClose(ch) { continue; }
      } else if cmd.None? || IsClose(cmd.value) {
        return Some(PathError(ExpectedCommand, i));
      }
      var group := ScanGroup(d, i, KindsOf(cmd.value));
      if group.Err? {
        return Some(GroupError(cmd.value, i, group.error));
      }
      i := group.value;
    }
    error := None;
  }
}
