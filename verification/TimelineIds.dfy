/**
 Fresh event ids (`nextSkillTestTimelineEventId` in static/js/app/skill-test.js).

 The search counts in JavaScript numbers.  Beyond 2^53 the counter no longer moves,
 and when the id it is stuck on is taken the loop never ends; `None` stands for that.
 How a number prints is a parameter: it is the decimal numeral below 10^21.
 */
module TimelineIds {
  import opened Options
  import opened Decimal
  import opened JsNumber

  type Printer = Num -> string

  function Candidate(prefix: string, x: Num, text: Printer): string {
    prefix + "_" + text(x)
  }

  /** The digits after `prefix_`, when that is what the id is. */
  function Digits(id: string, prefix: string): Option<string> {
    var head := prefix + "_";
    if head < id && AllDigits(id[|head|..]) then Some(id[|head|..]) else None
  }

  /** `Number(match[1]) + 1`, or 1 when the id does not match. */
  function After(id: string, prefix: string): Num {
    var digits := Digits(id, prefix);
    if digits.Some? then Inc(Round(Read(digits.value))) else Finite(1)
  }

  /** The number the search starts from. */
  function Start(ids: seq<string>, prefix: string): Num {
    if ids == [] then Finite(1)
    else Max(Start(ids[..|ids| - 1], prefix), After(ids[|ids| - 1], prefix))
  }

  predicate IsDouble(x: Num) { x.Finite? ==> x.n < Limit() && Representable(x.n) }

  lemma RoundIsDouble(n: nat)
    ensures IsDouble(Round(n))
  {
    NearestRepresentable(n);
  }

  lemma SmallIsDouble(n: nat)
    requires n <= TWO53
    ensures IsDouble(Finite(n))
  {
    LimitIsHigh();
    if n == TWO53 { assert UnitFrom(n, 1) == UnitFrom(n, 2) == 2; }
  }

  lemma {:induction false} StartIsDouble(ids: seq<string>, prefix: string)
    ensures IsDouble(Start(ids, prefix))
  {
    SmallIsDouble(1);
    if ids != [] {
      StartIsDouble(ids[..|ids| - 1], prefix);
      var digits := Digits(ids[|ids| - 1], prefix);
      if digits.Some? {
        RoundIsDouble(Read(digits.value));
        match Round(Read(digits.value)) {
          case Finite(n) => RoundIsDouble(n + 1);
          case Infinity =>
        }
      }
    }
  }

  /** How many times the counter can still move. */
  function Moves(x: Num): nat {
    match x
    case Infinity => 0
    case Finite(n) => if n < TWO53 then TWO53 - n + 1 else if Inc(x) == x then 0 else 1
  }

  lemma MovesDecrease(x: Num)
    requires IsDouble(x) && Inc(x) != x
    ensures IsDouble(Inc(x)) && Moves(Inc(x)) < Moves(x)
  {
    if x.n < TWO53 {
      IncExact(x.n);
      SmallIsDouble(x.n + 1);
      if x.n + 1 == TWO53 { IncStuck(); }
    } else {
      IncSettles(x.n);
      RoundIsDouble(x.n + 1);
      NearestRepresentable(x.n + 1);
    }
  }

  /** The while loop from counter `x`: the first free candidate, or `None` when there is no end to it. */
  function Search(x: Num, prefix: string, taken: set<string>, text: Printer): Option<string>
    requires IsDouble(x)
    decreases Moves(x)
  {
    if Candidate(prefix, x, text) !in taken then Some(Candidate(prefix, x, text))
    else if Inc(x) == x then None
    else
      MovesDecrease(x);
      Search(Inc(x), prefix, taken, text)
  }

  function NextId(ids: seq<string>, prefix: string, reserved: set<string>, text: Printer): Option<string> {
    StartIsDouble(ids, prefix);
    Search(Start(ids, prefix), prefix, (set i | i in ids) + reserved, text)
  }

  method NextEventId(ids: seq<string>, prefix: string, reserved: set<string>, text: Printer)
    returns (id: Option<string>)
    ensures id == NextId(ids, prefix, reserved, text)
    ensures id.Some? ==> id.value !in ids && id.value !in reserved
  {
    var used := set i | i in ids;
    var next := Finite(1);
    for i := 0 to |ids|
      invariant next == Start(ids[..i], prefix)
    {
      assert ids[..i + 1][..i] == ids[..i];
      next := Max(next, After(ids[i], prefix));
    }
    assert ids[..|ids|] == ids;
    StartIsDouble(ids, prefix);
    var candidate := Candidate(prefix, next, text);
    while candidate in used || candidate in reserved
      invariant IsDouble(next) && candidate == Candidate(prefix, next, text)
      invariant Search(next, prefix, used + reserved, text) == NextId(ids, prefix, reserved, text)
      decreases Moves(next)
    {
      if Inc(next) == next { return None; }  // the source loop would go round for ever
      MovesDecrease(next);
      next := Inc(next);
      candidate := Candidate(prefix, next, text);
    }
    id := Some(candidate);
  }

  /** The counters the loop can ever reach from `x`. */
  ghost predicate Reaches(x: Num, y: Num) {
    if x.Finite? && x.n <= TWO53 then y.Finite? && x.n <= y.n <= TWO53
    else y == x || y == Inc(x)
  }

  lemma {:induction false} SearchFrees(x: Num, prefix: string, taken: set<string>, text: Printer)
    requires IsDouble(x)
    ensures Search(x, prefix, taken, text).Some? ==> Search(x, prefix, taken, text).value !in taken
    ensures Search(x, prefix, taken, text).Some?
            <==> exists y :: Reaches(x, y) && Candidate(prefix, y, text) !in taken
    decreases Moves(x)
  {
    assert Reaches(x, x);
    if Candidate(prefix, x, text) in taken {
      if x.Finite? && x.n < TWO53 { IncExact(x.n); }
      if x == Finite(TWO53) { IncStuck(); }
      if Inc(x) != x {
        if x.n >= TWO53 { IncSettles(x.n); }
        MovesDecrease(x);
        SearchFrees(Inc(x), prefix, taken, text);
        StepReaches(x);
      }
    }
  }

  lemma StepReaches(x: Num)
    requires IsDouble(x) && Inc(x) != x
    ensures forall y :: Reaches(x, y) <==> y == x || Reaches(Inc(x), y)
  {
    if x.n < TWO53 {
      IncExact(x.n);
    } else {
      IncSettles(x.n);
      NearestRepresentable(x.n + 1);
      if x.n == TWO53 { IncStuck(); }
      if Inc(x) == Finite(TWO53) { IncOnce(x.n); }
    }
  }

  /** A fresh id is found exactly when some number the counter can reach is free. */
  lemma NextIdIff(ids: seq<string>, prefix: string, reserved: set<string>, text: Printer)
    ensures NextId(ids, prefix, reserved, text).Some?
            <==> exists y :: Reaches(Start(ids, prefix), y)
                             && Candidate(prefix, y, text) !in ids && Candidate(prefix, y, text) !in reserved
    ensures NextId(ids, prefix, reserved, text).Some? ==>
              var id := NextId(ids, prefix, reserved, text).value; id !in ids && id !in reserved
  {
    StartIsDouble(ids, prefix);
    SearchFrees(Start(ids, prefix), prefix, (set i | i in ids) + reserved, text);
  }

  // ------------------------------------------------------ when there is room

  ghost predicate PrintsDecimal(text: Printer) {
    forall n: nat :: n <= TWO53 ==> text(Finite(n)) == Print(n)
  }

  lemma CandidatesDiffer(m: nat, n: nat, prefix: string, text: Printer)
    requires PrintsDecimal(text) && m < n <= TWO53
    ensures Candidate(prefix, Finite(m), text) != Candidate(prefix, Finite(n), text)
  {
    if Candidate(prefix, Finite(m), text) == Candidate(prefix, Finite(n), text) {
      assert Candidate(prefix, Finite(m), text)[|prefix + "_"|..] == Print(m);
      assert Candidate(prefix, Finite(n), text)[|prefix + "_"|..] == Print(n);
      PrintInjective(m, n);
    }
  }

  function CandidateSet(s: nat, k: nat, prefix: string, text: Printer): set<string> {
    if k == 0 then {} else CandidateSet(s, k - 1, prefix, text) + {Candidate(prefix, Finite(s + k - 1), text)}
  }

  lemma {:induction false} CandidateSetMember(s: nat, k: nat, prefix: string, text: Printer, c: string) returns (n: nat)
    requires c in CandidateSet(s, k, prefix, text)
    ensures s <= n < s + k && c == Candidate(prefix, Finite(n), text)
  {
    n := s + k - 1;
    if c != Candidate(prefix, Finite(n), text) { n := CandidateSetMember(s, k - 1, prefix, text, c); }
  }

  lemma {:induction false} CandidateSetSize(s: nat, k: nat, prefix: string, text: Printer)
    requires PrintsDecimal(text) && s + k <= TWO53 + 1
    ensures |CandidateSet(s, k, prefix, text)| == k
  {
    if k > 0 {
      CandidateSetSize(s, k - 1, prefix, text);
      var last := Candidate(prefix, Finite(s + k - 1), text);
      if last in CandidateSet(s, k - 1, prefix, text) {
        var n := CandidateSetMember(s, k - 1, prefix, text, last);
        CandidatesDiffer(n, s + k - 1, prefix, text);
      }
    }
  }

  /** As long as start and number of taken ids together stay within 2^53, a fresh id is found. */
  lemma FreshIdWhenRoom(ids: seq<string>, prefix: string, reserved: set<string>, text: Printer)
    requires PrintsDecimal(text) && Start(ids, prefix).Finite?
    requires Start(ids, prefix).n + |(set i | i in ids) + reserved| <= TWO53
    ensures NextId(ids, prefix, reserved, text).Some?
  {
    var taken := (set i | i in ids) + reserved;
    var s := Start(ids, prefix).n;
    var candidates := CandidateSet(s, |taken| + 1, prefix, text);
    CandidateSetSize(s, |taken| + 1, prefix, text);
    if candidates <= taken { SubsetSize(candidates, taken); }
    var c :| c in candidates && c !in taken;
    var n := CandidateSetMember(s, |taken| + 1, prefix, text, c);
    assert Reaches(Start(ids, prefix), Finite(n));
    NextIdIff(ids, prefix, reserved, text);
  }

  lemma {:induction false} SubsetSize<T>(a: set<T>, b: set<T>)
    requires a <= b
    ensures |a| <= |b|
  {
    if a != {} {
      var x :| x in a;
      SubsetSize(a - {x}, b - {x});
    }
  }

  lemma DigitsOfCandidate(prefix: string, n: nat)
    ensures Digits(prefix + "_" + Print(n), prefix) == Some(Print(n))
    ensures After(prefix + "_" + Print(n), prefix) == Inc(Round(n))
  {
    var head := prefix + "_";
    assert (head + Print(n))[|head|..] == Print(n);
    ReadPrint(n);
  }

  lemma StuckStart(prefix: string, n: nat)
    requires n == TWO53
    ensures Start([prefix + "_" + Print(n)], prefix) == Finite(n)
  {
    var id := prefix + "_" + Print(n);
    DigitsOfCandidate(prefix, n);
    SmallIsDouble(n);
    RoundExact(n);
    IncStuck();
    assert [id][..0] == [];
  }

  /** The candidate that prints 2^53, `<prefix>_9007199254740992`. */
  function StuckId(prefix: string, text: Printer): string { Candidate(prefix, Finite(TWO53), text) }

  /** That one id in use is enough to keep the search from ever ending. */
  lemma SearchCanDiverge(prefix: string, reserved: set<string>, text: Printer)
    requires PrintsDecimal(text)
    ensures NextId([StuckId(prefix, text)], prefix, reserved, text) == None
  {
    var n := TWO53;
    var id := StuckId(prefix, text);
    assert text(Finite(n)) == Print(n);
    StuckStart(prefix, n);
    SmallIsDouble(n);
    IncStuck();
    assert id in [id];
  }

  lemma RoundExact(n: nat)
    requires n < Limit() && Representable(n)
    ensures Round(n) == Finite(n)
  {
    var u := UnitFrom(n, 1);
    assert (n / u) * u == n;
  }
}
