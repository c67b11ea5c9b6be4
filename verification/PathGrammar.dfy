/** A grammar for path data, independent of the scanners, and that the check accepts exactly what it describes. */
module PathGrammar {
  import opened Wrappers
  import opened IconPaths

  // ----- the grammar -----

  datatype Exponent = Exponent(letter: char, sign: string, digits: string)

  datatype Number = Number(sign: string, whole: string, fraction: Option<string>, exponent: Option<Exponent>)

  datatype Value = Num(number: Number) | Flag(c: char)

  /** An operand with the separators written before it. */
  datatype Operand = Operand(sep: string, value: Value)

  /** One group: a command letter after separators, or none to repeat the last command, and its operands. */
  datatype Step = Step(sep: string, letter: Option<char>, operands: seq<Operand>)

  predicate IsDigits(s: string) {
    forall k :: 0 <= k < |s| ==> IsDigit(s[k])
  }

  predicate IsSep(s: string) {
    forall k :: 0 <= k < |s| ==> IsSepChar(s[k])
  }

  predicate IsSign(s: string) {
    s == "" || s == "+" || s == "-"
  }

  predicate IsNumber(n: Number) {
    && IsSign(n.sign) && IsDigits(n.whole)
    && (n.fraction.Some? ==> IsDigits(n.fraction.value))
    && |n.whole| + (if n.fraction.Some? then |n.fraction.value| else 0) > 0
    && (n.exponent.Some? ==> IsExponent(n.exponent.value))
  }

  predicate IsExponent(e: Exponent) {
    (e.letter == 'e' || e.letter == 'E') && IsSign(e.sign) && |e.digits| > 0 && IsDigits(e.digits)
  }

  function ExponentText(e: Option<Exponent>): string {
    if e.Some? then [e.value.letter] + e.value.sign + e.value.digits else ""
  }

  function FractionText(f: Option<string>): string {
    if f.Some? then "." + f.value else ""
  }

  function NumberText(n: Number): string {
    n.sign + (n.whole + (FractionText(n.fraction) + ExponentText(n.exponent)))
  }

  function ValueText(v: Value): string {
    if v.Num? then NumberText(v.number) else [v.c]
  }

  function OperandText(o: Operand): string {
    o.sep + ValueText(o.value)
  }

  function OperandsText(ops: seq<Operand>): string {
    if ops == [] then "" else OperandsText(ops[..|ops| - 1]) + OperandText(ops[|ops| - 1])
  }

  function StepText(s: Step): string {
    (if s.letter.Some? then s.sep + [s.letter.value] else "") + OperandsText(s.operands)
  }

  /** Path data as written: the groups and any separators after the last. */
  function PathText(steps: seq<Step>, trail: string): string {
    if steps == [] then trail else StepText(steps[0]) + PathText(steps[1..], trail)
  }

  /** An exponent begins here: a letter, an optional sign, a digit. */
  predicate BeginsExponent(after: string) {
    |after| > 0 && (after[0] == 'e' || after[0] == 'E') &&
    ((|after| > 1 && IsDigit(after[1])) || (|after| > 2 && (after[1] == '+' || after[1] == '-') && IsDigit(after[2])))
  }

  predicate BeginsDigit(after: string) {
    after != "" && IsDigit(after[0])
  }

  /** What follows a number cannot be taken for more of it. */
  predicate Delimited(n: Number, after: string) {
    && !BeginsDigit(after)
    && (n.exponent.None? ==> !BeginsExponent(after))
    && (n.exponent.None? && n.fraction.None? ==> !Is(after, 0, '.'))
  }

  predicate OperandOk(o: Operand, kind: Kind, after: string) {
    && IsSep(o.sep)
    && match kind
       case NumberOperand => o.value.Num? && IsNumber(o.value.number) && Delimited(o.value.number, after)
       case FlagOperand => o.value.Flag? && (o.value.c == '0' || o.value.c == '1')
  }

  predicate OperandsOk(ops: seq<Operand>, kinds: seq<Kind>, after: string)
    decreases |ops|
  {
    && |ops| == |kinds|
    && (ops == [] ||
        var last := |ops| - 1;
        OperandOk(ops[last], kinds[last], after) && OperandsOk(ops[..last], kinds[..last], OperandText(ops[last]) + after))
  }

  /** The command a group is drawn by. */
  function CommandOf(s: Step, cmd: Option<char>): Option<char> {
    if s.letter.Some? then s.letter else cmd
  }

  /** A group names a command or repeats one that takes operands, and has the operands it takes. */
  predicate StepOk(s: Step, cmd: Option<char>, after: string) {
    && IsSep(s.sep)
    && CommandOf(s, cmd).Some? && IsCommand(CommandOf(s, cmd).value)
    && (s.letter.None? ==> s.sep == "" && !IsClose(cmd.value))
    && OperandsOk(s.operands, KindsOf(CommandOf(s, cmd).value), after)
  }

  predicate StepsOk(steps: seq<Step>, cmd: Option<char>, trail: string)
    decreases |steps|
  {
    if steps == [] then IsSep(trail)
    else StepOk(steps[0], cmd, PathText(steps[1..], trail)) && StepsOk(steps[1..], CommandOf(steps[0], cmd), trail)
  }

  /** Path data: groups, the first of them naming a moveto. */
  predicate IsPath(steps: seq<Step>, trail: string) {
    steps != [] && (steps[0].letter == Some('M') || steps[0].letter == Some('m')) && StepsOk(steps, None, trail)
  }

  // ----- separators and digits -----

  lemma {:induction false} SepScanned(d: string, i: nat, sep: string, rest: string)
    requires i <= |d| && d[i..] == sep + rest && IsSep(sep) && (rest != "" ==> !IsSepChar(rest[0]))
    ensures SkipSep(d, i) == i + |sep| && d[SkipSep(d, i)..] == rest
    decreases sep
  {
    if sep == "" {
      if rest != "" { assert d[i] == d[i..][0]; }
    } else {
      assert d[i] == d[i..][0] == sep[0];
      assert d[i + 1..] == d[i..][1..] == sep[1..] + rest;
      SepScanned(d, i + 1, sep[1..], rest);
    }
  }

  lemma {:induction false} SkippedIsSep(d: string, i: nat)
    requires i <= |d|
    ensures IsSep(d[i..SkipSep(d, i)])
    decreases |d| - i
  {
    if i < |d| && IsSepChar(d[i]) {
      SkippedIsSep(d, i + 1);
      var j := SkipSep(d, i);
      assert forall k :: 0 < k < j - i ==> d[i..j][k] == d[i + 1..j][k - 1];
    }
  }

  lemma {:induction false} DigitsScanned(d: string, i: nat, digits: string, rest: string)
    requires i <= |d| && d[i..] == digits + rest && IsDigits(digits) && !BeginsDigit(rest)
    ensures DigitsEnd(d, i) == i + |digits| && d[DigitsEnd(d, i)..] == rest
    decreases digits
  {
    if digits == "" {
      if rest != "" { assert d[i] == d[i..][0]; }
    } else {
      assert d[i] == d[i..][0] == digits[0];
      assert d[i + 1..] == d[i..][1..] == digits[1..] + rest;
      DigitsScanned(d, i + 1, digits[1..], rest);
    }
  }

  lemma {:induction false} ScannedAreDigits(d: string, i: nat)
    requires i <= |d|
    ensures IsDigits(d[i..DigitsEnd(d, i)]) && !BeginsDigit(d[DigitsEnd(d, i)..])
    decreases |d| - i
  {
    if i < |d| && IsDigit(d[i]) {
      ScannedAreDigits(d, i + 1);
      var j := DigitsEnd(d, i);
      assert forall k :: 0 < k < j - i ==> d[i..j][k] == d[i + 1..j][k - 1];
    }
  }

  lemma SignScanned(d: string, i: nat, sign: string, rest: string)
    requires i <= |d| && d[i..] == sign + rest && IsSign(sign) && !Is(rest, 0, '+') && !Is(rest, 0, '-')
    ensures SignEnd(d, i) == i + |sign| && d[SignEnd(d, i)..] == rest
  {
    if sign == "" {
      if rest != "" { assert d[i] == d[i..][0]; }
    } else {
      assert d[i] == d[i..][0] == sign[0];
      assert d[i + 1..] == d[i..][1..] == rest;
    }
  }

  // ----- numbers -----

  /** A number written out, and not run on by what follows it, is scanned to its end. */
  lemma NumberScanned(d: string, i: nat, n: Number, after: string)
    requires i <= |d| && d[i..] == NumberText(n) + after && IsNumber(n) && Delimited(n, after)
    ensures ScanNumber(d, i) == Some(i + |NumberText(n)|)
    ensures d[i + |NumberText(n)|..] == after
  {
    var tail := ExponentText(n.exponent) + after;
    var rest := FractionText(n.fraction) + tail;
    TextSplits(n, after, tail, rest);
    TailStart(n, after, tail);
    WholeStart(n, rest, tail);
    ScannedInParts(d, i, n, after, tail, rest);
    assert |NumberText(n)| == |n.sign| + |n.whole| + |FractionText(n.fraction)| + |ExponentText(n.exponent)|;
  }

  lemma TextSplits(n: Number, after: string, tail: string, rest: string)
    requires tail == ExponentText(n.exponent) + after && rest == FractionText(n.fraction) + tail
    ensures NumberText(n) + after == n.sign + (n.whole + rest)
  {
    hide ExponentText, FractionText;
  }

  lemma ScannedInParts(d: string, i: nat, n: Number, after: string, tail: string, rest: string)
    requires tail == ExponentText(n.exponent) + after && rest == FractionText(n.fraction) + tail
    requires i <= |d| && d[i..] == n.sign + (n.whole + rest) && IsNumber(n) && Delimited(n, after)
    requires !BeginsDigit(tail) && (n.fraction.None? ==> !Is(tail, 0, '.'))
    requires !Is(n.whole + rest, 0, '+') && !Is(n.whole + rest, 0, '-') && !BeginsDigit(rest)
    ensures var end := i + |n.sign| + |n.whole| + |FractionText(n.fraction)| + |ExponentText(n.exponent)|;
            ScanNumber(d, i) == Some(end) && d[end..] == after
  {
    hide SignEnd, DigitsEnd, FractionEnd, ExponentEnd, IsDigits, ExponentText, BeginsDigit, BeginsExponent, Is;
    SignScanned(d, i, n.sign, n.whole + rest);
    var start := SignEnd(d, i);
    DigitsScanned(d, start, n.whole, rest);
    var whole := DigitsEnd(d, start);
    FractionScanned(d, whole, n.fraction, tail);
    var fraction := FractionEnd(d, whole);
    ExponentScanned(d, fraction, n.exponent, after);
  }

  lemma TailStart(n: Number, after: string, tail: string)
    requires IsNumber(n) && Delimited(n, after) && tail == ExponentText(n.exponent) + after
    ensures !BeginsDigit(tail) && (n.fraction.None? ==> !Is(tail, 0, '.'))
  {
  }

  /** After the sign comes a digit or a point. */
  lemma WholeStart(n: Number, rest: string, tail: string)
    requires IsNumber(n) && rest == FractionText(n.fraction) + tail && !BeginsDigit(tail)
    ensures !Is(n.whole + rest, 0, '+') && !Is(n.whole + rest, 0, '-') && !BeginsDigit(rest)
  {
    if n.whole == "" {
      assert rest[0] == '.';
    } else {
      assert IsDigit(n.whole[0]);
    }
  }

  lemma FractionScanned(d: string, i: nat, f: Option<string>, tail: string)
    requires i <= |d| && d[i..] == FractionText(f) + tail && !BeginsDigit(tail)
    requires if f.Some? then IsDigits(f.value) else !Is(tail, 0, '.')
    ensures FractionEnd(d, i) == i + |FractionText(f)| && d[FractionEnd(d, i)..] == tail
  {
    if f.Some? {
      assert d[i] == d[i..][0] == '.';
      assert d[i + 1..] == d[i..][1..] == f.value + tail;
      DigitsScanned(d, i + 1, f.value, tail);
    } else if tail != "" {
      assert d[i] == d[i..][0] == tail[0];
    }
  }

  lemma OneAhead(d: string, i: nat, c: char, rest: string)
    requires i <= |d| && d[i..] == [c] + rest
    ensures i < |d| && d[i] == c && d[i + 1..] == rest
  {
    assert d[i] == d[i..][0];
    assert d[i + 1..] == d[i..][1..];
  }

  lemma ExponentScanned(d: string, i: nat, e: Option<Exponent>, after: string)
    requires i <= |d| && d[i..] == ExponentText(e) + after && !BeginsDigit(after)
    requires if e.Some? then IsExponent(e.value) else !BeginsExponent(after)
    ensures ExponentEnd(d, i) == i + |ExponentText(e)| && d[ExponentEnd(d, i)..] == after
  {
    if e.Some? {
      var x := e.value;
      var rest := x.sign + (x.digits + after);
      ExponentSplits(x, after);
      OneAhead(d, i, x.letter, rest);
      ExponentDigitsScanned(d, i + 1, x, after);
      hide SignEnd, DigitsEnd, ExponentText, IsSign, IsDigits, BeginsExponent, BeginsDigit;
    } else {
      NoExponent(d, i);
    }
  }

  lemma ExponentSplits(x: Exponent, after: string)
    ensures ExponentText(Some(x)) + after == [x.letter] + (x.sign + (x.digits + after))
    ensures |ExponentText(Some(x))| == 1 + |x.sign| + |x.digits|
  {
  }

  lemma ExponentDigitsScanned(d: string, i: nat, x: Exponent, after: string)
    requires i <= |d| && d[i..] == x.sign + (x.digits + after) && IsExponent(x) && !BeginsDigit(after)
    ensures var digits := SignEnd(d, i);
            var end := DigitsEnd(d, digits);
            digits == i + |x.sign| && end == digits + |x.digits| && d[end..] == after
  {
    assert IsDigit(x.digits[0]);
    assert !Is(x.digits + after, 0, '+') && !Is(x.digits + after, 0, '-');
    hide SignEnd, DigitsEnd, IsDigits, IsSign, BeginsDigit;
    SignScanned(d, i, x.sign, x.digits + after);
    DigitsScanned(d, SignEnd(d, i), x.digits, after);
  }

  lemma NoExponent(d: string, i: nat)
    requires i <= |d|
    ensures ExponentEnd(d, i) == i <==> !BeginsExponent(d[i..])
  {
    if i < |d| && (d[i] == 'e' || d[i] == 'E') {
      var digits := SignEnd(d, i + 1);
      assert d[i..][0] == d[i];
      if i + 1 < |d| { assert d[i..][1] == d[i + 1]; }
      if i + 2 < |d| { assert d[i..][2] == d[i + 2]; }
    } else if i < |d| {
      assert d[i..][0] == d[i];
    }
  }

  /** Whatever is scanned as a number is one, and is not run on by what follows it. */
  lemma ScannedIsNumber(d: string, i: nat) returns (n: Number)
    requires i <= |d| && ScanNumber(d, i).Some?
    ensures IsNumber(n) && d[i..ScanNumber(d, i).value] == NumberText(n) && Delimited(n, d[ScanNumber(d, i).value..])
  {
    var start := SignEnd(d, i);
    var whole := DigitsEnd(d, start);
    var fraction := FractionEnd(d, whole);
    var end := ExponentEnd(d, fraction);
    ScannedAreDigits(d, start);
    var f := FractionAt(d, whole);
    var e := ExponentAt(d, fraction);
    n := Number(d[i..start], d[start..whole], f, e);
    InParts(d, i, start, whole, fraction, end);
    if f.None? { PointAhead(d, whole); }
    hide SignEnd, DigitsEnd, BeginsExponent, FractionText, ExponentText, IsDigits;
    assert NumberText(n) == d[i..start] + (d[start..whole] + (d[whole..fraction] + d[fraction..end]));
  }

  lemma InParts(d: string, a: nat, b: nat, c: nat, e: nat, f: nat)
    requires a <= b <= c <= e <= f <= |d|
    ensures d[a..f] == d[a..b] + (d[b..c] + (d[c..e] + d[e..f]))
  {
  }

  lemma PointAhead(d: string, i: nat)
    requires i <= |d| && !Is(d, i, '.')
    ensures !Is(d[i..], 0, '.') && FractionEnd(d, i) == i
  {
  }

  lemma FractionAt(d: string, i: nat) returns (f: Option<string>)
    requires i <= |d| && !BeginsDigit(d[i..])
    ensures d[i..FractionEnd(d, i)] == FractionText(f) && !BeginsDigit(d[FractionEnd(d, i)..])
    ensures if f.Some? then IsDigits(f.value) && |f.value| == FractionEnd(d, i) - i - 1 else !Is(d, i, '.')
  {
    if Is(d, i, '.') {
      ScannedAreDigits(d, i + 1);
      var end := DigitsEnd(d, i + 1);
      f := Some(d[i + 1..end]);
      assert d[i..end] == [d[i]] + d[i + 1..end];
    } else {
      f := None;
    }
  }

  lemma ExponentAt(d: string, i: nat) returns (e: Option<Exponent>)
    requires i <= |d| && !BeginsDigit(d[i..])
    ensures d[i..ExponentEnd(d, i)] == ExponentText(e) && !BeginsDigit(d[ExponentEnd(d, i)..])
    ensures if e.Some? then IsExponent(e.value) else !BeginsExponent(d[ExponentEnd(d, i)..])
  {
    var end := ExponentEnd(d, i);
    if end == i {
      NoExponent(d, i);
      e := None;
    } else {
      var digits := SignEnd(d, i + 1);
      ScannedAreDigits(d, digits);
      e := Some(Exponent(d[i], d[i + 1..digits], d[digits..end]));
      assert d[i..end] == [d[i]] + d[i + 1..digits] + d[digits..end];
    }
  }
}
