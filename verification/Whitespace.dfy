/** JavaScript's white space and `trim`. */
module Whitespace {

  /** The characters JavaScript's `trim` and `\s` treat as white space. */
  predicate IsSpace(c: char) {
    var n := c as int;
    9 <= n <= 13 || n == 0x20 || n == 0xA0 || n == 0x1680 || 0x2000 <= n <= 0x200A
    || n == 0x2028 || n == 0x2029 || n == 0x202F || n == 0x205F || n == 0x3000 || n == 0xFEFF
  }

  function TrimLeft(s: string): string {
    if s != "" && IsSpace(s[0]) then TrimLeft(s[1..]) else s
  }

  function TrimRight(s: string): string {
    if s != "" && IsSpace(s[|s| - 1]) then TrimRight(s[..|s| - 1]) else s
  }

  function Trim(s: string): string {
    TrimRight(TrimLeft(s))
  }

  lemma {:induction false} TrimLeftKeeps(s: string, k: nat) returns (j: nat)
    requires k < |s| && !IsSpace(s[k])
    ensures j < |TrimLeft(s)| && !IsSpace(TrimLeft(s)[j])
    decreases s
  {
    j := k;
    if IsSpace(s[0]) {
      j := TrimLeftKeeps(s[1..], k - 1);
    }
  }

  lemma {:induction false} TrimRightKeeps(s: string, k: nat)
    requires k < |s| && !IsSpace(s[k])
    ensures TrimRight(s) != ""
    decreases |s|
  {
    if IsSpace(s[|s| - 1]) {
      TrimRightKeeps(s[..|s| - 1], k);
    }
  }

  lemma TrimKeeps(s: string, k: nat)
    requires k < |s| && !IsSpace(s[k])
    ensures Trim(s) != ""
  {
    var j := TrimLeftKeeps(s, k);
    TrimRightKeeps(TrimLeft(s), j);
  }

  lemma TrimOfTrimmed(s: string)
    requires s != "" && !IsSpace(s[0]) && !IsSpace(s[|s| - 1])
    ensures Trim(s) == s
  {
  }

  lemma {:induction false} TrimLeftThenSpace(s: string, c: char)
    requires IsSpace(c)
    ensures TrimLeft(s + [c]) == if TrimLeft(s) == "" then "" else TrimLeft(s) + [c]
    decreases s
  {
    if s == "" {
      assert s + [c] == [c] && TrimLeft([c][1..]) == "";
    } else {
      assert (s + [c])[1..] == s[1..] + [c];
      if IsSpace(s[0]) {
        TrimLeftThenSpace(s[1..], c);
      }
    }
  }

  /** Trimming does not see a space at the end. */
  lemma TrimThenSpace(s: string, c: char)
    requires IsSpace(c)
    ensures Trim(s + [c]) == Trim(s)
  {
    TrimLeftThenSpace(s, c);
    var t := TrimLeft(s);
    assert (t + [c])[..|t|] == t;
  }
}
