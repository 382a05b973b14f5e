/**
 When normalising a timeline draft ends.

 An event needs a fresh id when it has none or repeats an earlier one.  Its search
 starts above the highest number its prefix has come to so far, and the counter
 never passes 2^53; so the numbers can run out, and then the search has no end.
 */
module TimelineEnds {
  import opened Options
  import opened JsNumber
  import opened TimelineIds
  import opened IdSupply
  import opened Timeline
  import opened TimelineNormal

  // ------------------------------------------------------- who needs an id

  function PrefixFor(c: Config, e: Event): string { c.prefixOf(LaneOf(c, e)) }

  /** After the events `init`, `e` cannot keep an id of its own. */
  predicate Needs(init: seq<Event>, e: Event) { TrimmedId(e) == "" || TrimmedId(e) in UsedIds(init) }

  predicate NeedsOf(c: Config, init: seq<Event>, e: Event, prefix: string) {
    Needs(init, e) && PrefixFor(c, e) == prefix
  }

  /** The number above all those the prefix has come to. */
  function Top(events: seq<Event>, prefix: string): Num { Start(UsedIds(events), prefix) }

  function AskOf(c: Config, init: seq<Event>, e: Event): Ask {
    if Needs(init, e) then FreshId(PrefixFor(c, e), Top(init, PrefixFor(c, e))) else Nothing
  }

  function AsksOf(c: Config, events: seq<Event>): seq<Ask> {
    if events == [] then []
    else AsksOf(c, events[..|events| - 1]) + [AskOf(c, events[..|events| - 1], events[|events| - 1])]
  }

  lemma AsksStep(c: Config, init: seq<Event>, e: Event)
    ensures AsksOf(c, init + [e]) == AsksOf(c, init) + [AskOf(c, init, e)]
  {
    assert (init + [e])[..|init|] == init;
  }

  lemma UsedStep(init: seq<Event>, e: Event)
    ensures UsedIds(init + [e]) == if TrimmedId(e) != "" then UsedIds(init) + [TrimmedId(e)] else UsedIds(init)
  {
    assert (init + [e])[..|init|] == init;
  }

  /** An event that needs an id raises no number. */
  lemma NeedyTop(init: seq<Event>, e: Event, prefix: string)
    requires Needs(init, e)
    ensures Top(init + [e], prefix) == Top(init, prefix)
  {
    UsedStep(init, e);
    if TrimmedId(e) != "" {
      StartSnoc(UsedIds(init), TrimmedId(e), prefix);
      StartBounds(UsedIds(init), prefix);
    }
  }

  // ---------------------------------------------------------- ids and carriers

  lemma {:induction false} UsedMembers(events: seq<Event>, id: string)
    requires id != ""
    ensures id in UsedIds(events) <==> exists i :: 0 <= i < |events| && TrimmedId(events[i]) == id
  {
    if events != [] {
      var init, e := events[..|events| - 1], events[|events| - 1];
      assert events == init + [e];
      UsedMembers(init, id);
      UsedStep(init, e);
      if i :| 0 <= i < |init| && TrimmedId(init[i]) == id { assert TrimmedId(events[i]) == id; }
    }
  }

  lemma {:induction false} FirstCarrier(events: seq<Event>, id: string) returns (k: nat)
    requires exists i :: 0 <= i < |events| && TrimmedId(events[i]) == id
    ensures k < |events| && TrimmedId(events[k]) == id
    ensures forall i :: 0 <= i < k ==> TrimmedId(events[i]) != id
  {
    var n := |events| - 1;
    if i :| 0 <= i < n && TrimmedId(events[i]) == id {
      assert TrimmedId(events[..n][i]) == id;
      k := FirstCarrier(events[..n], id);
    } else {
      k := n;
    }
  }

  /** A reserved id is in use after the events exactly when one of them carries it. */
  lemma HoldsIff(c: Config, limit: real, reserved: set<string>, events: seq<Event>, id: string)
    requires ValidConfig(c) && limit >= 1.0 && NormEvents(c, limit, reserved, events).Some?
    requires id in reserved && id != ""
    ensures Holds(NormEvents(c, limit, reserved, events).value, id) <==> id in UsedIds(events)
  {
    UsedMembers(events, id);
    if id in UsedIds(events) {
      var k := FirstCarrier(events, id);
      FirstCarrierKeeps(c, limit, reserved, events, k);
    } else {
      NotGenerated(c, limit, reserved, events, id);
    }
  }

  // ------------------------------------------------------- one event further

  ghost function SpareOf(c: Config, reserved: set<string>, events: seq<Event>, prefix: string): int {
    Spare(c.text, reserved, AsksOf(c, events), prefix)
  }

  lemma SpareOfStep(c: Config, reserved: set<string>, init: seq<Event>, e: Event, prefix: string)
    ensures SpareOf(c, reserved, init + [e], prefix)
            == if NeedsOf(c, init, e, prefix)
               then Least(SpareOf(c, reserved, init, prefix), Room(c.text, reserved, prefix, Top(init, prefix))) - 1
               else SpareOf(c, reserved, init, prefix)
  {
    AsksStep(c, init, e);
    SpareStep(c.text, reserved, AsksOf(c, init), AskOf(c, init, e), prefix);
  }

  /** Where a prefix is after events whose ids `done` carries: still counting, or above 2^53. */
  ghost predicate ReachedBy(
    c: Config, reserved: set<string>, events: seq<Event>, done: seq<Event>, prefix: string, g: nat)
  {
    var top := Top(events, prefix);
    if Low(top) then Reached(c.text, reserved, prefix, top, UsedIds(done), SpareOf(c, reserved, events, prefix), g)
    else HighAt(c.text, reserved, prefix, top, UsedIds(done))
  }

  lemma UsedDone(done: seq<Event>, x: Event, id: string)
    requires x.id == Some(id) && id != "" && Trim(id) == id
    ensures UsedIds(done + [x]) == UsedIds(done) + [id]
  {
    UsedStep(done, x);
  }

  lemma StepKept(c: Config, reserved: set<string>, init: seq<Event>, e: Event, done: seq<Event>, x: Event,
                 prefix: string, g: nat)
    requires ReachedBy(c, reserved, init, done, prefix, g) && !Needs(init, e)
    requires x.id == Some(TrimmedId(e)) && TrimmedId(e) in reserved
    ensures ReachedBy(c, reserved, init + [e], done + [x], prefix, g)
  {
    var id, top, ids, spare := TrimmedId(e), Top(init, prefix), UsedIds(done), SpareOf(c, reserved, init, prefix);
    TrimFixed(if e.id.Some? then e.id.value else "");
    UsedDone(done, x, id);
    KeptTop(init, e, prefix);
    SpareOfStep(c, reserved, init, e, prefix);
    if !Low(top) {
      HighKept(c.text, reserved, prefix, top, ids, id);
    } else if Low(After(id, prefix)) {
      KeptReaches(c.text, reserved, prefix, top, ids, spare, g, id);
    } else {
      LowToHigh(c.text, reserved, prefix, top, ids, spare, g, id);
    }
  }

  lemma KeptTop(init: seq<Event>, e: Event, prefix: string)
    requires !Needs(init, e)
    ensures Top(init + [e], prefix) == Max(Top(init, prefix), After(TrimmedId(e), prefix))
  {
    UsedStep(init, e);
    StartSnoc(UsedIds(init), TrimmedId(e), prefix);
  }

  lemma StepForeign(c: Config, reserved: set<string>, init: seq<Event>, e: Event, done: seq<Event>, x: Event,
                    prefix: string, g: nat, y: Num)
    requires ReachedBy(c, reserved, init, done, prefix, g) && Needs(init, e) && PrefixFor(c, e) != prefix
    requires PrintsDecimal(c.text) && IsDouble(y) && (Low(y) || PrintsNumbers(c.text)) && ValidConfig(c)
    requires x.id == Some(Candidate(PrefixFor(c, e), y, c.text))
    ensures ReachedBy(c, reserved, init + [e], done + [x], prefix, g)
  {
    var top, ids, spare := Top(init, prefix), UsedIds(done), SpareOf(c, reserved, init, prefix);
    CandidateSolid(c, LaneOf(c, e), y);
    UsedDone(done, x, x.id.value);
    NeedyTop(init, e, prefix);
    SpareOfStep(c, reserved, init, e, prefix);
    if Low(top) {
      ForeignReaches(c.text, reserved, prefix, top, ids, spare, g, PrefixFor(c, e), y);
    } else {
      HighForeign(c.text, reserved, prefix, top, ids, PrefixFor(c, e), y);
    }
  }

  lemma StepOwn(c: Config, reserved: set<string>, init: seq<Event>, e: Event, done: seq<Event>, x: Event,
                prefix: string, g: nat, m: nat)
    requires ReachedBy(c, reserved, init, done, prefix, g) && NeedsOf(c, init, e, prefix) && Low(Top(init, prefix))
    requires PrintsDecimal(c.text) && g < m <= TWO53 && ValidConfig(c)
    requires x.id == Some(Candidate(prefix, Finite(m), c.text))
    requires |FreeFrom(c.text, reserved, prefix, m + 1)|
             == Least(SpareOf(c, reserved, init, prefix), Room(c.text, reserved, prefix, Top(init, prefix))) - 1
    ensures ReachedBy(c, reserved, init + [e], done + [x], prefix, m)
  {
    CandidateSolid(c, LaneOf(c, e), Finite(m));
    UsedDone(done, x, x.id.value);
    NeedyTop(init, e, prefix);
    SpareOfStep(c, reserved, init, e, prefix);
    OwnReaches(c.text, reserved, prefix, Top(init, prefix), UsedIds(done), SpareOf(c, reserved, init, prefix), g, m,
               SpareOf(c, reserved, init + [e], prefix));
  }

  lemma StepOwnHigh(c: Config, reserved: set<string>, init: seq<Event>, e: Event, done: seq<Event>, x: Event,
                    prefix: string, g: nat)
    requires ReachedBy(c, reserved, init, done, prefix, g) && NeedsOf(c, init, e, prefix) && !Low(Top(init, prefix))
    requires PrintsNumbers(c.text) && ValidConfig(c)
    requires var y := PickHigh(c.text, reserved, UsedIds(done), prefix, Top(init, prefix));
             x.id == Some(Candidate(prefix, y, c.text))
    ensures ReachedBy(c, reserved, init + [e], done + [x], prefix, g)
  {
    CandidateSolid(c, LaneOf(c, e), PickHigh(c.text, reserved, UsedIds(done), prefix, Top(init, prefix)));
    UsedDone(done, x, x.id.value);
    NeedyTop(init, e, prefix);
    HighOwn(c.text, reserved, prefix, Top(init, prefix), UsedIds(done));
  }

  /** No search starts above 2^53. */
  ghost predicate Countable(c: Config, events: seq<Event>) {
    forall i :: 0 <= i < |events| && Needs(events[..i], events[i]) ==>
      AtMost(Top(events[..i], PrefixFor(c, events[i])), Finite(TWO53))
  }

  lemma CountableInit(c: Config, init: seq<Event>, e: Event)
    requires Countable(c, init + [e])
    ensures Countable(c, init)
    ensures Needs(init, e) ==> AtMost(Top(init, PrefixFor(c, e)), Finite(TWO53))
  {
    var events := init + [e];
    assert events[..|init|] == init && events[|init|] == e;
    forall i | 0 <= i < |init| ensures init[..i] == events[..i] && init[i] == events[i] {}
  }

  ghost predicate AllReserved(reserved: set<string>, events: seq<Event>) {
    forall id :: id in UsedIds(events) ==> id in reserved
  }

  /** Enough is known of how the numbers met here print. */
  ghost predicate Legible(c: Config, events: seq<Event>) {
    PrintsDecimal(c.text) && (Countable(c, events) || PrintsNumbers(c.text))
  }

  /** How far each prefix is after events whose normalisation has ended. */
  lemma {:induction false} Progress(c: Config, limit: real, reserved: set<string>, events: seq<Event>, prefix: string)
    returns (g: nat)
    requires ValidConfig(c) && limit >= 1.0 && Legible(c, events)
    requires AllReserved(reserved, events) && NormEvents(c, limit, reserved, events).Some?
    ensures ReachedBy(c, reserved, events, NormEvents(c, limit, reserved, events).value, prefix, g)
    decreases |events|
  {
    if events == [] {
      g := 0;
    } else {
      var init, e := events[..|events| - 1], events[|events| - 1];
      SplitLast(events);
      EventsInit(c, limit, reserved, init, e);
      g := Progress(c, limit, reserved, init, prefix);
      var own := Progress(c, limit, reserved, init, PrefixFor(c, e));
      g := ProgressStep(c, limit, reserved, init, e, prefix, g, own);
    }
  }

  lemma EventsInit(c: Config, limit: real, reserved: set<string>, init: seq<Event>, e: Event)
    requires AllReserved(reserved, init + [e]) && Legible(c, init + [e])
    ensures AllReserved(reserved, init) && Legible(c, init)
    ensures Needs(init, e) ==> Low(Top(init, PrefixFor(c, e))) || PrintsNumbers(c.text)
    ensures NormEvents(c, limit, reserved, init + [e]).Some? ==> NormEvents(c, limit, reserved, init).Some?
  {
    if Countable(c, init + [e]) { CountableInit(c, init, e); }
    UsedStep(init, e);
    NormStep(c, limit, reserved, init, e);
  }

  lemma ProgressStep(c: Config, limit: real, reserved: set<string>, init: seq<Event>, e: Event, prefix: string,
                     g: nat, own: nat) returns (g': nat)
    requires ValidConfig(c) && limit >= 1.0 && Legible(c, init + [e]) && AllReserved(reserved, init + [e])
    requires NormEvents(c, limit, reserved, init).Some? && NormEvents(c, limit, reserved, init + [e]).Some?
    requires var done := NormEvents(c, limit, reserved, init).value;
             ReachedBy(c, reserved, init, done, prefix, g) && ReachedBy(c, reserved, init, done, PrefixFor(c, e), own)
    ensures ReachedBy(c, reserved, init + [e], NormEvents(c, limit, reserved, init + [e]).value, prefix, g')
  {
    EventsInit(c, limit, reserved, init, e);
    NormStep(c, limit, reserved, init, e);
    var done := NormEvents(c, limit, reserved, init).value;
    if Needs(init, e) {
      var y, m := AskResult(c, limit, reserved, init, e, own);
      var x := Normalized(c, limit, e, IdFor(c, reserved, done, e).value);
      if PrefixFor(c, e) != prefix {
        StepForeign(c, reserved, init, e, done, x, prefix, g, y);
        g' := g;
      } else if Low(Top(init, prefix)) {
        StepOwn(c, reserved, init, e, done, x, prefix, own, m);
        g' := m;
      } else {
        StepOwnHigh(c, reserved, init, e, done, x, prefix, own);
        g' := own;
      }
    } else {
      UsedStep(init, e);
      KeptId(c, limit, reserved, init, e);
      StepKept(c, reserved, init, e, done, Normalized(c, limit, e, TrimmedId(e)), prefix, g);
      g' := g;
    }
  }

  /** What the search of an event comes to: the number `y`, which is `m` while its prefix still counts. */
  lemma AskResult(c: Config, limit: real, reserved: set<string>, init: seq<Event>, e: Event, own: nat)
    returns (y: Num, m: nat)
    requires ValidConfig(c) && limit >= 1.0 && Needs(init, e) && NormEvents(c, limit, reserved, init).Some?
    requires AllReserved(reserved, init) && (Low(Top(init, PrefixFor(c, e))) || PrintsNumbers(c.text))
    requires ReachedBy(c, reserved, init, NormEvents(c, limit, reserved, init).value, PrefixFor(c, e), own)
    ensures var p, done := PrefixFor(c, e), NormEvents(c, limit, reserved, init).value;
            Result(c.text, reserved, p, Top(init, p), UsedIds(done), SpareOf(c, reserved, init, p), own,
                   IdFor(c, reserved, done, e), y, m)
  {
    var p, done := PrefixFor(c, e), NormEvents(c, limit, reserved, init).value;
    NeedyId(c, limit, reserved, init, e);
    if Low(Top(init, p)) {
      y, m := LowResult(c.text, reserved, p, Top(init, p), UsedIds(done), SpareOf(c, reserved, init, p), own);
    } else {
      y, m := PickHigh(c.text, reserved, UsedIds(done), p, Top(init, p)), 0;
      IncHigh(Top(init, p));
      HighSearch(c.text, reserved, p, Top(init, p), UsedIds(done));
    }
  }

  ghost predicate Result(
    text: Printer, reserved: set<string>, p: string, top: Num, ids: seq<string>, spare: int, own: nat,
    id: Option<string>, y: Num, m: nat)
  {
    var left := Least(spare, Room(text, reserved, p, top));
    && (Low(top) ==>
          && (id.Some? <==> left >= 1)
          && (id.Some? ==> y == Finite(m) && own < m <= TWO53 && top.n <= m
                           && |FreeFrom(text, reserved, p, m + 1)| == left - 1))
    && (!Low(top) ==> y == PickHigh(text, reserved, ids, p, top) && (id.Some? <==> Open(text, reserved, ids, p, y)))
    && (id.Some? ==> id.value == Candidate(p, y, text) && IsDouble(y) && (Low(y) || PrintsNumbers(text)))
  }

  lemma LowResult(text: Printer, reserved: set<string>, p: string, top: Num, ids: seq<string>, spare: int, own: nat)
    returns (y: Num, m: nat)
    requires Reached(text, reserved, p, top, ids, spare, own) && Low(top)
    ensures Result(text, reserved, p, top, ids, spare, own, NextId(ids, p, reserved, text), y, m)
  {
    m := OwnSearch(text, reserved, p, top, ids, spare, own);
    y := Finite(m);
    if m <= TWO53 { SmallIsDouble(m); }
  }

  lemma NeedyId(c: Config, limit: real, reserved: set<string>, init: seq<Event>, e: Event)
    requires ValidConfig(c) && limit >= 1.0 && AllReserved(reserved, init) && NormEvents(c, limit, reserved, init).Some?
    requires Needs(init, e)
    ensures var done := NormEvents(c, limit, reserved, init).value;
            IdFor(c, reserved, done, e) == NextId(UsedIds(done), PrefixFor(c, e), reserved, c.text)
  {
    if TrimmedId(e) != "" { HoldsIff(c, limit, reserved, init, TrimmedId(e)); }
  }

  lemma KeptId(c: Config, limit: real, reserved: set<string>, init: seq<Event>, e: Event)
    requires ValidConfig(c) && limit >= 1.0 && NormEvents(c, limit, reserved, init).Some?
    requires !Needs(init, e) && TrimmedId(e) in reserved
    ensures IdFor(c, reserved, NormEvents(c, limit, reserved, init).value, e) == Some(TrimmedId(e))
  {
    HoldsIff(c, limit, reserved, init, TrimmedId(e));
  }

  // ----------------------------------------------------------- when it ends

  ghost predicate NoneRunsOut(c: Config, reserved: set<string>, events: seq<Event>) {
    forall p :: SpareOf(c, reserved, events, p) >= 0
  }

  lemma NoneRunsOutStep(c: Config, reserved: set<string>, init: seq<Event>, e: Event)
    ensures NoneRunsOut(c, reserved, init + [e])
            <==> NoneRunsOut(c, reserved, init)
                 && (Needs(init, e) ==> SpareOf(c, reserved, init + [e], PrefixFor(c, e)) >= 0)
  {
    forall p
      ensures SpareOf(c, reserved, init + [e], p) <= SpareOf(c, reserved, init, p)
      ensures !NeedsOf(c, init, e, p) ==> SpareOf(c, reserved, init + [e], p) == SpareOf(c, reserved, init, p)
    {
      SpareOfStep(c, reserved, init, e, p);
    }
  }

  /** The events normalise exactly when no prefix runs out of numbers. */
  lemma {:induction false} EventsEndIff(c: Config, limit: real, reserved: set<string>, events: seq<Event>)
    requires ValidConfig(c) && limit >= 1.0 && PrintsDecimal(c.text)
    requires AllReserved(reserved, events) && Countable(c, events)
    ensures NormEvents(c, limit, reserved, events).Some? <==> NoneRunsOut(c, reserved, events)
  {
    if events != [] {
      var init, e := events[..|events| - 1], events[|events| - 1];
      SplitLast(events);
      InitSound(c, reserved, init, e);
      EventsEndIff(c, limit, reserved, init);
      EventsEndStep(c, limit, reserved, init, e);
    }
  }

  lemma InitSound(c: Config, reserved: set<string>, init: seq<Event>, e: Event)
    requires AllReserved(reserved, init + [e]) && Countable(c, init + [e])
    ensures AllReserved(reserved, init) && Countable(c, init)
  {
    UsedStep(init, e);
    CountableInit(c, init, e);
  }

  lemma EventsEndStep(c: Config, limit: real, reserved: set<string>, init: seq<Event>, e: Event)
    requires ValidConfig(c) && limit >= 1.0 && PrintsDecimal(c.text)
    requires AllReserved(reserved, init + [e]) && Countable(c, init + [e])
    requires NormEvents(c, limit, reserved, init).Some? <==> NoneRunsOut(c, reserved, init)
    ensures NormEvents(c, limit, reserved, init + [e]).Some? <==> NoneRunsOut(c, reserved, init + [e])
  {
    NormStep(c, limit, reserved, init, e);
    NoneRunsOutStep(c, reserved, init, e);
    if NormEvents(c, limit, reserved, init).Some? { LastEnds(c, limit, reserved, init, e); }
  }

  lemma LastEnds(c: Config, limit: real, reserved: set<string>, init: seq<Event>, e: Event)
    requires ValidConfig(c) && limit >= 1.0 && PrintsDecimal(c.text)
    requires AllReserved(reserved, init + [e]) && Countable(c, init + [e])
    requires NormEvents(c, limit, reserved, init).Some?
    ensures var done := NormEvents(c, limit, reserved, init).value;
            IdFor(c, reserved, done, e).Some?
            <==> (Needs(init, e) ==> SpareOf(c, reserved, init + [e], PrefixFor(c, e)) >= 0)
  {
    EventsInit(c, limit, reserved, init, e);
    CountableInit(c, init, e);
    UsedStep(init, e);
    if Needs(init, e) {
      var prefix := PrefixFor(c, e);
      var g := Progress(c, limit, reserved, init, prefix);
      var _, _ := AskResult(c, limit, reserved, init, e, g);
      SpareOfStep(c, reserved, init, e, prefix);
    } else {
      KeptId(c, limit, reserved, init, e);
    }
  }

  // -------------------------------------------------- in terms of the draft

  lemma {:induction false} AskTops(c: Config, events: seq<Event>)
    ensures |AsksOf(c, events)| == |events|
    ensures var asks := AsksOf(c, events);
            forall i :: 0 <= i < |events| && asks[i].FreshId? ==> AtMost(Finite(1), asks[i].top)
  {
    if events != [] {
      var init, e := events[..|events| - 1], events[|events| - 1];
      AskTops(c, init);
      StartBounds(UsedIds(init), PrefixFor(c, e));
    }
  }

  /**
   Whenever an event needs an id, the free numbers from the top of its prefix up to
   2^53 are as many as the ids of that prefix needed from there on.
   */
  ghost predicate EnoughNumbers(c: Config, reserved: set<string>, events: seq<Event>) {
    var asks := AsksOf(c, events);
    forall i :: 0 <= i < |asks| ==> EnoughFrom(c.text, reserved, asks, i)
  }

  lemma EnoughIff(c: Config, reserved: set<string>, events: seq<Event>)
    ensures EnoughNumbers(c, reserved, events) <==> NoneRunsOut(c, reserved, events)
  {
    var asks := AsksOf(c, events);
    AskTops(c, events);
    forall p
      ensures SpareOf(c, reserved, events, p) >= 0
              <==> forall i :: 0 <= i < |asks| && Wants(asks[i], p) ==> EnoughFrom(c.text, reserved, asks, i)
    {
      SpareIff(c.text, reserved, asks, p);
    }
    if NoneRunsOut(c, reserved, events) {
      forall i | 0 <= i < |asks| ensures EnoughFrom(c.text, reserved, asks, i) {
        if asks[i].FreshId? { assert SpareOf(c, reserved, events, asks[i].prefix) >= 0; }
      }
    }
  }

  /** Where numbers suffice, no search starts above 2^53. */
  lemma {:induction false} SpareCounts(c: Config, reserved: set<string>, events: seq<Event>)
    requires NoneRunsOut(c, reserved, events)
    ensures Countable(c, events)
  {
    if events != [] {
      var init, e := events[..|events| - 1], events[|events| - 1];
      SplitLast(events);
      NoneRunsOutStep(c, reserved, init, e);
      SpareCounts(c, reserved, init);
      SpareOfStep(c, reserved, init, e, PrefixFor(c, e));
      CountableLast(c, init, e);
    }
  }

  lemma CountableLast(c: Config, init: seq<Event>, e: Event)
    requires Countable(c, init) && (Needs(init, e) ==> AtMost(Top(init, PrefixFor(c, e)), Finite(TWO53)))
    ensures Countable(c, init + [e])
  {
    var events := init + [e];
    assert events[..|init|] == init && events[|init|] == e;
    forall i | 0 <= i < |init| ensures init[..i] == events[..i] && init[i] == events[i] {}
  }

  // ------------------------------------------------------------- main results

  lemma OwnIdsReserved(events: seq<Event>)
    ensures AllReserved(Reserved(events), events)
  {
  }

  /** Normalising ends exactly when the numbers suffice, as long as no search starts above 2^53. */
  lemma NormalizeEndsIff(c: Config, d: Draft)
    requires ValidConfig(c) && PrintsDecimal(c.text) && Countable(c, Objects(d.entries))
    ensures Normalize(c, d).Some? <==> EnoughNumbers(c, Reserved(Objects(d.entries)), Objects(d.entries))
  {
    var events := Objects(d.entries);
    OwnIdsReserved(events);
    EventsEndIff(c, Duration(c, d), Reserved(events), events);
    EnoughIff(c, Reserved(events), events);
  }

  /** For any draft whatever: where the numbers suffice, normalising ends, with all that is said of its result. */
  lemma NormalizeWorks(c: Config, d: Draft)
    requires ValidConfig(c) && PrintsDecimal(c.text)
    requires EnoughNumbers(c, Reserved(Objects(d.entries)), Objects(d.entries))
    ensures Normalize(c, d).Some?
    ensures var d' := Normalize(c, d).value;
            && NearNormal(c, d', Objects(d'.entries)) && InOrder(Objects(d'.entries))
            && DistinctIds(Objects(d'.entries))
            && Normalize(c, d') == Some(d')
  {
    var events := Objects(d.entries);
    EnoughIff(c, Reserved(events), events);
    SpareCounts(c, Reserved(events), events);
    NormalizeEndsIff(c, d);
    NormalForm(c, d);
    NormalizeTwice(c, d);
  }

  // -------------------------------------------------------- a simple condition

  /** Every prefix in use leaves room for one more number per event. */
  predicate Roomy(c: Config, events: seq<Event>) {
    forall e :: e in events ==>
      Top(events, PrefixFor(c, e)).Finite? && Top(events, PrefixFor(c, e)).n + |events| <= TWO53
  }

  lemma {:induction false} AskAt(c: Config, events: seq<Event>, i: nat)
    requires i < |events|
    ensures |AsksOf(c, events)| == |events| && AsksOf(c, events)[i] == AskOf(c, events[..i], events[i])
  {
    var n := |events| - 1;
    AskTops(c, events);
    AskTops(c, events[..n]);
    SplitLast(events);
    AsksStep(c, events[..n], events[n]);
    if i < n {
      AskAt(c, events[..n], i);
      assert events[..n][..i] == events[..i];
    }
  }

  lemma {:induction false} TopGrows(events: seq<Event>, prefix: string, i: nat)
    requires i <= |events|
    ensures AtMost(Top(events[..i], prefix), Top(events, prefix))
  {
    if i == |events| {
      assert events[..i] == events;
    } else {
      var init, e := events[..|events| - 1], events[|events| - 1];
      SplitLast(events);
      assert init[..i] == events[..i];
      TopGrows(init, prefix, i);
      UsedStep(init, e);
      if TrimmedId(e) != "" { StartSnoc(UsedIds(init), TrimmedId(e), prefix); }
    }
  }

  /** From the top of a prefix on every number is free. */
  lemma FreeAboveTop(text: Printer, events: seq<Event>, prefix: string, low: nat)
    requires PrintsDecimal(text) && AtMost(Top(events, prefix), Finite(low)) && low < TWO53
    ensures |FreeFrom(text, Reserved(events), prefix, low)| == TWO53 + 1 - low
  {
    forall j: nat | low <= j <= TWO53 ensures Candidate(prefix, Finite(j), text) !in Reserved(events) {
      AfterCandidate(prefix, j, text);
      StartBounds(UsedIds(events), prefix);
    }
    FreeCount(text, Reserved(events), prefix, low);
  }

  lemma RoomyEnough(c: Config, events: seq<Event>)
    requires PrintsDecimal(c.text) && Roomy(c, events)
    ensures EnoughNumbers(c, Reserved(events), events)
  {
    var reserved, asks := Reserved(events), AsksOf(c, events);
    AskTops(c, events);
    forall i | 0 <= i < |asks| ensures EnoughFrom(c.text, reserved, asks, i) {
      var prefix := PrefixFor(c, events[i]);
      assert events[i] in events;
      AskAt(c, events, i);
      var top := Top(events, prefix).n;
      TopGrows(events, prefix, i);
      FreeAboveTop(c.text, events, prefix, top);
      FreeNested(c.text, reserved, prefix, Top(events[..i], prefix).n, top);
      DemandAtMost(asks[i..], prefix);
    }
  }

  /** Normalising ends for every draft whose numbers, plus one per event, stay within 2^53. */
  lemma NormalizeEndsWhenRoomy(c: Config, d: Draft)
    requires ValidConfig(c) && PrintsDecimal(c.text) && Roomy(c, Objects(d.entries))
    ensures Normalize(c, d).Some?
  {
    RoomyEnough(c, Objects(d.entries));
    NormalizeWorks(c, d);
  }
}
