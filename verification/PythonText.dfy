/**
 Python's `str.strip` on Latin-1 text, and `str.lower` as far as it matters when the
 outcome is compared with ASCII letters: no other Latin-1 character becomes one.
 */
module PythonText {

  predicate IsSpace(c: char) {
    var n := c as int;
    9 <= n <= 13 || 28 <= n <= 32 || n == 133 || n == 160
  }

  function StripLeft(s: string): string {
    if s != "" && IsSpace(s[0]) then StripLeft(s[1..]) else s
  }

  function StripRight(s: string): string {
    if s != "" && IsSpace(s[|s| - 1]) then StripRight(s[..|s| - 1]) else s
  }

  function Strip(s: string): string { StripRight(StripLeft(s)) }

  function LowerChar(c: char): char { if 'A' <= c <= 'Z' then c - 'A' + 'a' else c }

  function Lower(s: string): string { seq(|s|, i requires 0 <= i < |s| => LowerChar(s[i])) }

  /** Everything in `s` before i and from j on is blank. */
  predicate BlankOutside(s: string, i: nat, j: nat)
    requires i <= j <= |s|
  {
    (forall k :: 0 <= k < i ==> IsSpace(s[k])) && (forall k :: j <= k < |s| ==> IsSpace(s[k]))
  }

  /** `core` neither starts nor ends with a blank. */
  predicate Solid(core: string) { core != "" ==> !IsSpace(core[0]) && !IsSpace(core[|core| - 1]) }

  predicate TrimsAt(s: string, core: string, i: nat, j: nat) {
    i <= j <= |s| && core == s[i..j] && BlankOutside(s, i, j)
  }

  /** `s` is `core` with blanks around it. */
  ghost predicate Trims(s: string, core: string) { Solid(core) && exists i: nat, j: nat :: TrimsAt(s, core, i, j) }

  lemma {:induction false} StripLeftAt(s: string) returns (i: nat)
    ensures i <= |s| && StripLeft(s) == s[i..]
    ensures (forall k :: 0 <= k < i ==> IsSpace(s[k])) && (i < |s| ==> !IsSpace(s[i]))
  {
    i := 0;
    if s != "" && IsSpace(s[0]) {
      i := StripLeftAt(s[1..]);
      i := i + 1;
    }
  }

  lemma {:induction false} StripRightAt(s: string) returns (j: nat)
    ensures j <= |s| && StripRight(s) == s[..j]
    ensures (forall k :: j <= k < |s| ==> IsSpace(s[k])) && (0 < j ==> !IsSpace(s[j - 1]))
  {
    j := |s|;
    if s != "" && IsSpace(s[|s| - 1]) {
      j := StripRightAt(s[..|s| - 1]);
      assert s[..|s| - 1][..j] == s[..j];
    }
  }

  lemma StripTrims(s: string) returns (i: nat, j: nat)
    ensures TrimsAt(s, Strip(s), i, j) && Solid(Strip(s))
  {
    i := StripLeftAt(s);
    j := StripRightAt(s[i..]);
    j := i + j;
    assert s[i..][..j - i] == s[i..j];
    assert forall k :: j <= k < |s| ==> s[k] == s[i..][k - i];
  }

  lemma TrimsOnce(s: string, one: string, two: string)
    requires Trims(s, one) && Trims(s, two)
    ensures one == two
  {
    var i: nat, j: nat :| TrimsAt(s, one, i, j);
    var m: nat, n: nat :| TrimsAt(s, two, m, n);
    if one != "" { assert one[0] == s[i] && one[|one| - 1] == s[j - 1]; }
    if two != "" { assert two[0] == s[m] && two[|two| - 1] == s[n - 1]; }
  }

  lemma StripIff(s: string, core: string)
    ensures Strip(s) == core <==> Trims(s, core)
  {
    var i, j := StripTrims(s);
    if Trims(s, core) { TrimsOnce(s, core, Strip(s)); }
  }

  lemma SliceOfSlice(s: string, i: nat, j: nat, m: nat, n: nat)
    requires i <= j <= |s| && m <= n <= j - i
    ensures s[i..j][m..n] == s[i + m..i + n]
  {
    var one, two := s[i..j][m..n], s[i + m..i + n];
    assert |one| == |two|;
    forall k | 0 <= k < |one| ensures one[k] == two[k] {}
  }

  /** Cutting blanks off does not change what is left in the end. */
  lemma StripCut(s: string, i: nat, j: nat)
    requires i <= j <= |s| && BlankOutside(s, i, j)
    ensures Strip(s[i..j]) == Strip(s)
  {
    var m, n := StripTrims(s[i..j]);
    SliceOfSlice(s, i, j, m, n);
    assert forall k :: i <= k < j ==> s[k] == s[i..j][k - i];
    assert TrimsAt(s, Strip(s[i..j]), i + m, i + n);
    StripIff(s, Strip(s[i..j]));
  }
}
