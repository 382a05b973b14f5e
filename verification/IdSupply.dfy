/**
 The numbers that id searches under one prefix draw on.

 Every search starts above the highest number its prefix has come to and takes the
 least free number from there on.  Counting up it never passes 2^53; started above,
 it can only look at two numbers.
 */
module IdSupply {
  import opened Options
  import opened Decimal
  import opened JsNumber
  import opened TimelineIds

  lemma SplitLast<T>(s: seq<T>)
    requires s != []
    ensures s == s[..|s| - 1] + [s[|s| - 1]]
  {
  }

  // ------------------------------------------------------------------ numbers

  function Next(n: nat): nat { if n < TWO53 then n + 1 else TWO53 }

  lemma IncIsNext(n: nat)
    requires n <= TWO53
    ensures Inc(Finite(n)) == Finite(Next(n))
  {
    if n < TWO53 { IncExact(n); } else { IncStuck(); }
  }

  lemma AfterCandidate(prefix: string, n: nat, text: Printer)
    requires PrintsDecimal(text) && n <= TWO53
    ensures After(Candidate(prefix, Finite(n), text), prefix) == Finite(Next(n))
  {
    assert text(Finite(n)) == Print(n);
    DigitsOfCandidate(prefix, n);
    SmallIsDouble(n);
    RoundExact(n);
    IncIsNext(n);
  }

  lemma StartSnoc(ids: seq<string>, id: string, prefix: string)
    ensures Start(ids + [id], prefix) == Max(Start(ids, prefix), After(id, prefix))
  {
    assert (ids + [id])[..|ids|] == ids;
  }

  lemma {:induction false} StartBounds(ids: seq<string>, prefix: string)
    ensures AtMost(Finite(1), Start(ids, prefix))
    ensures forall id :: id in ids ==> AtMost(After(id, prefix), Start(ids, prefix))
  {
    if ids != [] { StartBounds(ids[..|ids| - 1], prefix); }
  }

  predicate Low(x: Num) { AtMost(x, Finite(TWO53)) }

  /**
   Different numbers print differently and without an underscore, and what prints in
   digits only reads back as the same number.
   */
  ghost predicate PrintsNumbers(text: Printer) {
    && (forall x, y :: IsDouble(x) && IsDouble(y) && text(x) == text(y) ==> x == y)
    && (forall x :: IsDouble(x) ==> '_' !in text(x))
    && (forall x :: IsDouble(x) && AllDigits(text(x)) ==> Round(Read(text(x))) == x)
  }

  /** There are such printers: plain decimal numerals are one. */
  lemma DecimalPrints(text: Printer)
    requires forall x: Num :: text(x) == if x.Finite? then Print(x.n) else "Infinity"
    ensures PrintsDecimal(text) && PrintsNumbers(text)
  {
    assert !AllDigits("Infinity") by { assert !IsDigit("Infinity"[0]); }
    forall x, y | IsDouble(x) && IsDouble(y) && text(x) == text(y) ensures x == y {
      if x.Finite? && y.Finite? { PrintInjective(x.n, y.n); }
    }
    forall x | IsDouble(x) && AllDigits(text(x)) ensures Round(Read(text(x))) == x {
      if x.Finite? {
        ReadPrint(x.n);
        RoundExact(x.n);
      }
    }
  }

  /** Ids of different prefixes never meet, for numbers print without an underscore. */
  lemma PrefixesApart(p: string, s: string, q: string, t: string)
    requires '_' !in s && '_' !in t && p + "_" + s == q + "_" + t
    ensures p == q
  {
    var id := p + "_" + s;
    assert id == q + "_" + t;
    assert id[|p|] == '_' && id[|q|] == '_';
    assert p == id[..|p|] && q == id[..|q|];
  }

  lemma ForeignCandidate(p: string, q: string, y: Num, text: Printer)
    requires PrintsDecimal(text) && IsDouble(y) && (Low(y) || PrintsNumbers(text)) && p != q
    ensures After(Candidate(q, y, text), p) == Finite(1)
    ensures forall z :: IsDouble(z) && (Low(z) || PrintsNumbers(text)) ==>
              Candidate(p, z, text) != Candidate(q, y, text)
  {
    var id := Candidate(q, y, text);
    PlainText(y, text);
    if Digits(id, p).Some? {
      assert id == p + "_" + Digits(id, p).value;
      PrefixesApart(p, Digits(id, p).value, q, text(y));
    }
    forall z | IsDouble(z) && (Low(z) || PrintsNumbers(text)) ensures Candidate(p, z, text) != id {
      PlainText(z, text);
      if Candidate(p, z, text) == id { PrefixesApart(p, text(z), q, text(y)); }
    }
  }

  lemma PlainText(y: Num, text: Printer)
    requires PrintsDecimal(text) && IsDouble(y) && (Low(y) || PrintsNumbers(text))
    ensures '_' !in text(y)
  {
    if Low(y) { assert text(Finite(y.n)) == Print(y.n); }
  }

  /** `found` is the id of the least free number `m` from `n` on; there is none when it is missing. */
  ghost predicate LeastFrom(found: Option<string>, n: nat, m: nat, prefix: string, taken: set<string>, text: Printer) {
    && (found.None? ==> forall j: nat :: n <= j <= TWO53 ==> Candidate(prefix, Finite(j), text) in taken)
    && (found.Some? ==>
          n <= m <= TWO53 && found.value == Candidate(prefix, Finite(m), text) && found.value !in taken
          && forall j: nat :: n <= j < m ==> Candidate(prefix, Finite(j), text) in taken)
  }

  lemma LeastStep(found: Option<string>, n: nat, m: nat, prefix: string, taken: set<string>, text: Printer)
    requires LeastFrom(found, n + 1, m, prefix, taken, text) && Candidate(prefix, Finite(n), text) in taken
    ensures LeastFrom(found, n, m, prefix, taken, text)
  {
  }

  /** The search over whole numbers up to 2^53. */
  function CountUp(n: nat, prefix: string, taken: set<string>, text: Printer): Option<string>
    requires n <= TWO53
    decreases TWO53 - n
  {
    if Candidate(prefix, Finite(n), text) !in taken then Some(Candidate(prefix, Finite(n), text))
    else if n == TWO53 then None
    else CountUp(n + 1, prefix, taken, text)
  }

  lemma {:induction false} CountUpLeast(n: nat, prefix: string, taken: set<string>, text: Printer) returns (m: nat)
    requires n <= TWO53
    ensures LeastFrom(CountUp(n, prefix, taken, text), n, m, prefix, taken, text)
    decreases TWO53 - n
  {
    m := n;
    if Candidate(prefix, Finite(n), text) in taken && n < TWO53 {
      m := CountUpLeast(n + 1, prefix, taken, text);
      LeastStep(CountUp(n + 1, prefix, taken, text), n, m, prefix, taken, text);
    }
  }

  lemma {:induction false} SearchCountsUp(n: nat, prefix: string, taken: set<string>, text: Printer)
    requires n <= TWO53 && IsDouble(Finite(n))
    ensures Search(Finite(n), prefix, taken, text) == CountUp(n, prefix, taken, text)
    decreases TWO53 - n
  {
    if Candidate(prefix, Finite(n), text) in taken {
      SearchOn(n, prefix, taken, text);
      if n < TWO53 { SearchCountsUp(n + 1, prefix, taken, text); }
    }
  }

  lemma SearchLeast(n: nat, prefix: string, taken: set<string>, text: Printer) returns (m: nat)
    requires n <= TWO53 && IsDouble(Finite(n))
    ensures LeastFrom(Search(Finite(n), prefix, taken, text), n, m, prefix, taken, text)
  {
    SearchCountsUp(n, prefix, taken, text);
    m := CountUpLeast(n, prefix, taken, text);
  }

  lemma SearchOn(n: nat, prefix: string, taken: set<string>, text: Printer)
    requires n <= TWO53 && IsDouble(Finite(n)) && Candidate(prefix, Finite(n), text) in taken
    ensures n < TWO53 ==>
              IsDouble(Finite(n + 1))
              && Search(Finite(n), prefix, taken, text) == Search(Finite(n + 1), prefix, taken, text)
    ensures n == TWO53 ==> Search(Finite(n), prefix, taken, text).None?
  {
    IncIsNext(n);
    if n < TWO53 { MovesDecrease(Finite(n)); }
  }

  // ------------------------------------------------------------- free numbers

  /** The numbers from `low` to 2^53 whose ids under the prefix are not reserved. */
  ghost function FreeFrom(text: Printer, reserved: set<string>, prefix: string, low: nat): set<nat> {
    set j: nat | low <= j <= TWO53 && Candidate(prefix, Finite(j), text) !in reserved
  }

  lemma FreeNested(text: Printer, reserved: set<string>, prefix: string, a: nat, b: nat)
    requires a <= b
    ensures FreeFrom(text, reserved, prefix, b) <= FreeFrom(text, reserved, prefix, a)
    ensures |FreeFrom(text, reserved, prefix, b)| <= |FreeFrom(text, reserved, prefix, a)|
  {
    SubsetSize(FreeFrom(text, reserved, prefix, b), FreeFrom(text, reserved, prefix, a));
  }

  lemma FreeTaken(text: Printer, reserved: set<string>, prefix: string, low: nat, m: nat)
    requires m in FreeFrom(text, reserved, prefix, low)
    requires forall j :: low <= j < m ==> Candidate(prefix, Finite(j), text) in reserved
    ensures |FreeFrom(text, reserved, prefix, m + 1)| == |FreeFrom(text, reserved, prefix, low)| - 1
  {
    assert FreeFrom(text, reserved, prefix, low) == FreeFrom(text, reserved, prefix, m + 1) + {m};
  }

  function Least(a: int, b: int): int { if a < b then a else b }

  /** How many free numbers a search that starts at `x` can come to. */
  ghost function Room(text: Printer, reserved: set<string>, prefix: string, x: Num): nat {
    if AtMost(x, Finite(TWO53)) then |FreeFrom(text, reserved, prefix, x.n)| else 0
  }

  // ----------------------------------------------------- how far a prefix is

  /**
   The ids `ids` are out, `top` is the number above all that events brought along,
   and `g` is the greatest number handed out; `spare` free numbers are above it.
   */
  ghost predicate Reached(
    text: Printer, reserved: set<string>, prefix: string, top: Num, ids: seq<string>, spare: int, g: nat)
  {
    && g <= TWO53 && AtMost(Finite(1), top)
    && Start(ids, prefix) == (if g == 0 then top else Max(top, Finite(Next(g))))
    && (g > 0 ==> Candidate(prefix, Finite(g), text) in ids)
    && (forall j: nat :: g < j <= TWO53 && Candidate(prefix, Finite(j), text) in ids ==>
          Candidate(prefix, Finite(j), text) in reserved)
    && spare == |FreeFrom(text, reserved, prefix, g + 1)|
  }

  function Higher(a: nat, b: nat): nat { if a < b then b else a }

  lemma FreeAbove(text: Printer, reserved: set<string>, prefix: string, a: nat, b: nat)
    ensures |FreeFrom(text, reserved, prefix, Higher(a, b))|
            == Least(|FreeFrom(text, reserved, prefix, a)|, |FreeFrom(text, reserved, prefix, b)|)
  {
    if a <= b { FreeNested(text, reserved, prefix, a, b); } else { FreeNested(text, reserved, prefix, b, a); }
  }

  /** The search for one more id: it ends exactly when a number is left, and takes the least. */
  lemma OwnSearch(text: Printer, reserved: set<string>, prefix: string, top: Num, ids: seq<string>, spare: int, g: nat)
    returns (m: nat)
    requires Reached(text, reserved, prefix, top, ids, spare, g) && AtMost(top, Finite(TWO53))
    ensures var left, id := Least(spare, Room(text, reserved, prefix, top)), NextId(ids, prefix, reserved, text);
            && (id.Some? <==> left >= 1)
            && (id.Some? ==> id.value == Candidate(prefix, Finite(m), text) && g < m <= TWO53 && top.n <= m
                             && |FreeFrom(text, reserved, prefix, m + 1)| == left - 1)
  {
    var low := Higher(top.n, g + 1);
    FreeAbove(text, reserved, prefix, top.n, g + 1);
    m := NextLeast(text, reserved, prefix, ids, low);
  }

  /** A search that starts at `low`, or is stuck below it, with only reserved ids out from there on. */
  lemma NextLeast(text: Printer, reserved: set<string>, prefix: string, ids: seq<string>, low: nat) returns (m: nat)
    requires Start(ids, prefix) == Finite(if low <= TWO53 then low else TWO53) && low <= TWO53 + 1
    requires low > TWO53 ==> Candidate(prefix, Finite(TWO53), text) in ids
    requires forall j: nat :: low <= j <= TWO53 && Candidate(prefix, Finite(j), text) in ids ==>
               Candidate(prefix, Finite(j), text) in reserved
    ensures var id := NextId(ids, prefix, reserved, text);
            && (id.Some? <==> |FreeFrom(text, reserved, prefix, low)| >= 1)
            && (id.Some? ==> id.value == Candidate(prefix, Finite(m), text) && low <= m <= TWO53
                             && |FreeFrom(text, reserved, prefix, m + 1)|
                                == |FreeFrom(text, reserved, prefix, low)| - 1)
  {
    StartIsDouble(ids, prefix);
    m := LeastFree(text, reserved, (set i | i in ids), prefix, Start(ids, prefix).n, low);
  }

  lemma LeastFree(text: Printer, reserved: set<string>, used: set<string>, prefix: string, s: nat, low: nat)
    returns (m: nat)
    requires IsDouble(Finite(s)) && low <= TWO53 + 1
    requires if low <= TWO53 then s == low else s == TWO53 && Candidate(prefix, Finite(s), text) in used
    requires forall j: nat :: low <= j <= TWO53 && Candidate(prefix, Finite(j), text) in used ==>
               Candidate(prefix, Finite(j), text) in reserved
    ensures var id := Search(Finite(s), prefix, used + reserved, text);
            && (id.Some? <==> |FreeFrom(text, reserved, prefix, low)| >= 1)
            && (id.Some? ==> id.value == Candidate(prefix, Finite(m), text) && low <= m <= TWO53
                             && |FreeFrom(text, reserved, prefix, m + 1)|
                                == |FreeFrom(text, reserved, prefix, low)| - 1)
  {
    m := SearchLeast(s, prefix, used + reserved, text);
    var free := FreeFrom(text, reserved, prefix, low);
    if Search(Finite(s), prefix, used + reserved, text).Some? {
      FoundIsFree(text, reserved, used, prefix, s, low, m);
    } else {
      assert free == {};
    }
  }

  lemma FoundIsFree(text: Printer, reserved: set<string>, used: set<string>, prefix: string, s: nat, low: nat, m: nat)
    requires if low <= TWO53 then s == low else s == TWO53 && Candidate(prefix, Finite(s), text) in used
    requires s <= m <= TWO53 && Candidate(prefix, Finite(m), text) !in used + reserved
    requires forall j :: s <= j < m ==> Candidate(prefix, Finite(j), text) in used + reserved
    requires forall j: nat :: low <= j <= TWO53 && Candidate(prefix, Finite(j), text) in used ==>
               Candidate(prefix, Finite(j), text) in reserved
    ensures low <= m
    ensures |FreeFrom(text, reserved, prefix, low)| >= 1
    ensures |FreeFrom(text, reserved, prefix, m + 1)| == |FreeFrom(text, reserved, prefix, low)| - 1
  {
    assert m in FreeFrom(text, reserved, prefix, low);
    FreeTaken(text, reserved, prefix, low, m);
  }

  // ------------------------------------------------------------ one id further

  /** An id of its own, which is reserved. */
  lemma KeptReaches(text: Printer, reserved: set<string>, prefix: string, top: Num, ids: seq<string>,
                    spare: int, g: nat, id: string)
    requires Reached(text, reserved, prefix, top, ids, spare, g) && id in reserved
    ensures Reached(text, reserved, prefix, Max(top, After(id, prefix)), ids + [id], spare, g)
  {
    StartSnoc(ids, id, prefix);
  }

  /** A fresh id of another prefix. */
  lemma ForeignReaches(text: Printer, reserved: set<string>, prefix: string, top: Num, ids: seq<string>,
                       spare: int, g: nat, other: string, y: Num)
    requires Reached(text, reserved, prefix, top, ids, spare, g)
    requires PrintsDecimal(text) && IsDouble(y) && (Low(y) || PrintsNumbers(text)) && other != prefix
    ensures Reached(text, reserved, prefix, top, ids + [Candidate(other, y, text)], spare, g)
  {
    StartSnoc(ids, Candidate(other, y, text), prefix);
    ForeignCandidate(prefix, other, y, text);
    forall j: nat | j <= TWO53 ensures Candidate(prefix, Finite(j), text) != Candidate(other, y, text) {
      SmallIsDouble(j);
    }
  }

  lemma HigherDiffer(text: Printer, prefix: string, m: nat)
    requires PrintsDecimal(text) && m <= TWO53
    ensures forall j: nat :: m < j <= TWO53 ==>
              Candidate(prefix, Finite(j), text) != Candidate(prefix, Finite(m), text)
  {
    forall j: nat | m < j <= TWO53
      ensures Candidate(prefix, Finite(j), text) != Candidate(prefix, Finite(m), text)
    {
      CandidatesDiffer(m, j, prefix, text);
    }
  }

  /** The next fresh id of this prefix. */
  lemma OwnReaches(text: Printer, reserved: set<string>, prefix: string, top: Num, ids: seq<string>,
                   spare: int, g: nat, m: nat, left: int)
    requires Reached(text, reserved, prefix, top, ids, spare, g)
    requires PrintsDecimal(text) && g < m <= TWO53 && left == |FreeFrom(text, reserved, prefix, m + 1)|
    ensures Reached(text, reserved, prefix, top, ids + [Candidate(prefix, Finite(m), text)], left, m)
  {
    var id := Candidate(prefix, Finite(m), text);
    StartSnoc(ids, id, prefix);
    AfterCandidate(prefix, m, text);
    HigherDiffer(text, prefix, m);
  }

  // ---------------------------------------------------------- above 2^53

  /** Above 2^53 adding one moves a double at most once, and never past another double. */
  lemma IncHigh(x: Num)
    requires IsDouble(x) && !Low(x)
    ensures IsDouble(Inc(x)) && !Low(Inc(x)) && AtMost(x, Inc(x)) && Inc(Inc(x)) == Inc(x)
    ensures forall y :: IsDouble(y) && AtMost(x, y) && x != y ==> AtMost(Inc(x), y)
  {
    if x.Finite? {
      IncSettles(x.n);
      IncOnce(x.n);
      RoundIsDouble(x.n + 1);
      forall y | IsDouble(y) && AtMost(x, y) && x != y ensures AtMost(Inc(x), y) {
        if y.Finite? { EvenAbove(x.n); EvenAbove(y.n); }
      }
    }
  }

  lemma EvenAbove(n: nat)
    requires n > TWO53 && Representable(n)
    ensures n % 2 == 0
  {
    var u := UnitFrom(n, 1);
    assert n == (n / u) * u;
    assert u == 2 * (u / 2);
    EvenProduct(n / u, u / 2);
  }

  lemma EvenProduct(a: nat, b: nat)
    ensures (a * (2 * b)) % 2 == 0
  {
    assert a * (2 * b) == 2 * (a * b);
  }

  /** Neither reserved nor handed out. */
  predicate Open(text: Printer, reserved: set<string>, ids: seq<string>, prefix: string, y: Num) {
    Candidate(prefix, y, text) !in reserved && Candidate(prefix, y, text) !in ids
  }

  /** The search starts at `top`, or one double further when `top` is no longer open. */
  ghost predicate HighAt(text: Printer, reserved: set<string>, prefix: string, top: Num, ids: seq<string>) {
    && IsDouble(top) && !Low(top)
    && (Start(ids, prefix) == top || (Start(ids, prefix) == Inc(top) && !Open(text, reserved, ids, prefix, top)))
  }

  function PickHigh(text: Printer, reserved: set<string>, ids: seq<string>, prefix: string, top: Num): Num {
    if Open(text, reserved, ids, prefix, top) then top else Inc(top)
  }

  lemma HighSearch(text: Printer, reserved: set<string>, prefix: string, top: Num, ids: seq<string>)
    requires HighAt(text, reserved, prefix, top, ids)
    ensures var id, y := NextId(ids, prefix, reserved, text), PickHigh(text, reserved, ids, prefix, top);
            id == if Open(text, reserved, ids, prefix, y) then Some(Candidate(prefix, y, text)) else None
  {
    IncHigh(top);
    StartIsDouble(ids, prefix);
    var used := (set i | i in ids) + reserved;
    SearchStuck(Inc(top), prefix, used, text);
    if Candidate(prefix, top, text) in used && Inc(top) != top { MovesDecrease(top); }
  }

  lemma SearchStuck(x: Num, prefix: string, taken: set<string>, text: Printer)
    requires IsDouble(x) && Inc(x) == x
    ensures Search(x, prefix, taken, text)
            == if Candidate(prefix, x, text) in taken then None else Some(Candidate(prefix, x, text))
  {
  }

  lemma AfterIsDouble(id: string, prefix: string)
    ensures IsDouble(After(id, prefix))
  {
    StartIsDouble([id], prefix);
    assert [id][..0] == [];
    StartBounds([], prefix);
    SmallIsDouble(1);
    if Digits(id, prefix).Some? {
      RoundIsDouble(Read(Digits(id, prefix).value));
      match Round(Read(Digits(id, prefix).value)) {
        case Finite(n) => RoundIsDouble(n + 1);
        case Infinity =>
      }
    }
  }

  lemma AfterPlace(prefix: string, y: Num, text: Printer)
    requires PrintsNumbers(text) && IsDouble(y)
    ensures After(Candidate(prefix, y, text), prefix) in {Inc(y), Finite(1)}
  {
    var id, head := Candidate(prefix, y, text), prefix + "_";
    assert id[|head|..] == text(y);
  }

  lemma HighKept(text: Printer, reserved: set<string>, prefix: string, top: Num, ids: seq<string>, id: string)
    requires HighAt(text, reserved, prefix, top, ids)
    ensures HighAt(text, reserved, prefix, Max(top, After(id, prefix)), ids + [id])
  {
    StartSnoc(ids, id, prefix);
    AfterIsDouble(id, prefix);
    IncHigh(top);
  }

  lemma HighForeign(text: Printer, reserved: set<string>, prefix: string, top: Num, ids: seq<string>,
                    other: string, y: Num)
    requires HighAt(text, reserved, prefix, top, ids)
    requires PrintsDecimal(text) && IsDouble(y) && (Low(y) || PrintsNumbers(text)) && other != prefix
    ensures HighAt(text, reserved, prefix, top, ids + [Candidate(other, y, text)])
  {
    StartSnoc(ids, Candidate(other, y, text), prefix);
    ForeignCandidate(prefix, other, y, text);
    IncHigh(top);
  }

  lemma HighOwn(text: Printer, reserved: set<string>, prefix: string, top: Num, ids: seq<string>)
    requires HighAt(text, reserved, prefix, top, ids) && PrintsNumbers(text)
    ensures var y := PickHigh(text, reserved, ids, prefix, top);
            IsDouble(y) && HighAt(text, reserved, prefix, top, ids + [Candidate(prefix, y, text)])
  {
    var y := PickHigh(text, reserved, ids, prefix, top);
    IncHigh(top);
    StartSnoc(ids, Candidate(prefix, y, text), prefix);
    AfterPlace(prefix, y, text);
  }

  /** An id of its own takes the prefix above 2^53. */
  lemma LowToHigh(text: Printer, reserved: set<string>, prefix: string, top: Num, ids: seq<string>,
                  spare: int, g: nat, id: string)
    requires Reached(text, reserved, prefix, top, ids, spare, g) && Low(top) && !Low(After(id, prefix))
    ensures HighAt(text, reserved, prefix, Max(top, After(id, prefix)), ids + [id])
  {
    StartSnoc(ids, id, prefix);
    AfterIsDouble(id, prefix);
  }

  // -------------------------------------------------------------------- asks

  /** What an event asks of the search: nothing, or the next id of its prefix above `top`. */
  datatype Ask = Nothing | FreshId(prefix: string, top: Num)

  predicate Wants(a: Ask, prefix: string) { a.FreshId? && a.prefix == prefix }

  /** How many ids of the prefix are asked for. */
  function Demand(asks: seq<Ask>, prefix: string): nat {
    if asks == [] then 0
    else
      var init := Demand(asks[..|asks| - 1], prefix);
      if Wants(asks[|asks| - 1], prefix) then init + 1 else init
  }

  /** The free numbers still in reach of a search, less the ids handed out; negative once they have run out. */
  ghost function Spare(text: Printer, reserved: set<string>, asks: seq<Ask>, prefix: string): int {
    if asks == [] then |FreeFrom(text, reserved, prefix, 1)|
    else
      var before, a := Spare(text, reserved, asks[..|asks| - 1], prefix), asks[|asks| - 1];
      if Wants(a, prefix) then Least(before, Room(text, reserved, prefix, a.top)) - 1 else before
  }

  lemma SpareStep(text: Printer, reserved: set<string>, asks: seq<Ask>, a: Ask, prefix: string)
    ensures Spare(text, reserved, asks + [a], prefix)
            == if Wants(a, prefix)
               then Least(Spare(text, reserved, asks, prefix), Room(text, reserved, prefix, a.top)) - 1
               else Spare(text, reserved, asks, prefix)
    ensures Demand(asks + [a], prefix) == Demand(asks, prefix) + if Wants(a, prefix) then 1 else 0
  {
    assert (asks + [a])[..|asks|] == asks;
  }

  /** Seen from each ask, the numbers above `top` are enough for `total` less what was asked before. */
  ghost predicate AllEnough(text: Printer, reserved: set<string>, asks: seq<Ask>, prefix: string, total: nat) {
    if asks == [] then true
    else
      var init, a := asks[..|asks| - 1], asks[|asks| - 1];
      AllEnough(text, reserved, init, prefix, total)
      && (Wants(a, prefix) ==> Room(text, reserved, prefix, a.top) >= total - Demand(init, prefix))
  }

  lemma EnoughStep(text: Printer, reserved: set<string>, asks: seq<Ask>, a: Ask, prefix: string, total: nat)
    ensures AllEnough(text, reserved, asks + [a], prefix, total)
            <==> AllEnough(text, reserved, asks, prefix, total)
                 && (Wants(a, prefix) ==> Room(text, reserved, prefix, a.top) >= total - Demand(asks, prefix))
  {
    assert (asks + [a])[..|asks|] == asks;
  }

  lemma {:induction false} SpareAtLeast(text: Printer, reserved: set<string>, asks: seq<Ask>, prefix: string, t: nat)
    ensures var total := t + Demand(asks, prefix);
            Spare(text, reserved, asks, prefix) >= t
            <==> |FreeFrom(text, reserved, prefix, 1)| >= total && AllEnough(text, reserved, asks, prefix, total)
    decreases |asks|
  {
    if asks != [] {
      var init, a := asks[..|asks| - 1], asks[|asks| - 1];
      SplitLast(asks);
      SpareAtLeast(text, reserved, init, prefix, if Wants(a, prefix) then t + 1 else t);
      SpareStep(text, reserved, init, a, prefix);
      EnoughStep(text, reserved, init, a, prefix, t + Demand(asks, prefix));
    }
  }

  lemma {:induction false} FirstAsk(text: Printer, reserved: set<string>, asks: seq<Ask>, prefix: string, total: nat)
    requires AllEnough(text, reserved, asks, prefix, total) && Demand(asks, prefix) > 0
    requires forall i :: 0 <= i < |asks| && asks[i].FreshId? ==> AtMost(Finite(1), asks[i].top)
    ensures |FreeFrom(text, reserved, prefix, 1)| >= total
  {
    var init, a := asks[..|asks| - 1], asks[|asks| - 1];
    if Demand(init, prefix) > 0 {
      FirstAsk(text, reserved, init, prefix, total);
    } else if AtMost(a.top, Finite(TWO53)) {
      FreeNested(text, reserved, prefix, 1, a.top.n);
    }
  }

  lemma {:induction false} DemandSplit(asks: seq<Ask>, prefix: string, i: nat)
    requires i <= |asks|
    ensures Demand(asks, prefix) == Demand(asks[..i], prefix) + Demand(asks[i..], prefix)
  {
    if i == |asks| {
      assert asks[..i] == asks;
    } else {
      var n := |asks| - 1;
      assert asks[..n][..i] == asks[..i] && asks[i..][..n - i] == asks[..n][i..];
      DemandSplit(asks[..n], prefix, i);
    }
  }

  /** The free numbers above the top of an ask are as many as the ids of its prefix asked for from there on. */
  ghost predicate EnoughFrom(text: Printer, reserved: set<string>, asks: seq<Ask>, i: nat)
    requires i < |asks|
  {
    asks[i].FreshId? ==>
      Room(text, reserved, asks[i].prefix, asks[i].top) >= Demand(asks[i..], asks[i].prefix)
  }

  lemma {:induction false} AllEnoughMeans(text: Printer, reserved: set<string>, asks: seq<Ask>, n: nat, prefix: string)
    requires n <= |asks|
    ensures AllEnough(text, reserved, asks[..n], prefix, Demand(asks, prefix))
            <==> forall i :: 0 <= i < n && Wants(asks[i], prefix) ==> EnoughFrom(text, reserved, asks, i)
  {
    if n > 0 {
      AllEnoughMeans(text, reserved, asks, n - 1, prefix);
      assert asks[..n] == asks[..n - 1] + [asks[n - 1]];
      EnoughStep(text, reserved, asks[..n - 1], asks[n - 1], prefix, Demand(asks, prefix));
      DemandSplit(asks, prefix, n - 1);
    }
  }

  lemma SpareIff(text: Printer, reserved: set<string>, asks: seq<Ask>, prefix: string)
    requires forall i :: 0 <= i < |asks| && asks[i].FreshId? ==> AtMost(Finite(1), asks[i].top)
    ensures Spare(text, reserved, asks, prefix) >= 0
            <==> forall i :: 0 <= i < |asks| && Wants(asks[i], prefix) ==> EnoughFrom(text, reserved, asks, i)
  {
    SpareAtLeast(text, reserved, asks, prefix, 0);
    assert asks[..|asks|] == asks;
    AllEnoughMeans(text, reserved, asks, |asks|, prefix);
    if AllEnough(text, reserved, asks, prefix, Demand(asks, prefix)) && Demand(asks, prefix) > 0 {
      FirstAsk(text, reserved, asks, prefix, Demand(asks, prefix));
    }
  }

  lemma {:induction false} DemandAtMost(asks: seq<Ask>, prefix: string)
    ensures Demand(asks, prefix) <= |asks|
  {
    if asks != [] { DemandAtMost(asks[..|asks| - 1], prefix); }
  }

  lemma {:induction false} FreeCount(text: Printer, reserved: set<string>, prefix: string, low: nat)
    requires low <= TWO53 + 1
    requires forall j: nat :: low <= j <= TWO53 ==> Candidate(prefix, Finite(j), text) !in reserved
    ensures |FreeFrom(text, reserved, prefix, low)| == TWO53 + 1 - low
    decreases TWO53 + 1 - low
  {
    if low <= TWO53 {
      assert low in FreeFrom(text, reserved, prefix, low);
      FreeTaken(text, reserved, prefix, low, low);
      FreeCount(text, reserved, prefix, low + 1);
    } else {
      assert FreeFrom(text, reserved, prefix, low) == {};
    }
  }
}
