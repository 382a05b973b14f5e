/**
 The exact condition for normalising a timeline draft to end, whatever numbers its
 ids carry: the events that need an id can be given places of their own.

 A place is an unreserved number within reach of the event's search, and no two
 events of one prefix have the same.  That the searches, which each take the first
 place they find, never spoil a possible assignment is what is proved here.
 */
module TimelinePlaces {
  import opened Options
  import opened JsNumber
  import opened TimelineIds
  import opened IdSupply
  import opened Timeline
  import opened TimelineNormal
  import opened TimelineEnds

  ghost predicate Assigned(text: Printer, reserved: set<string>, asks: seq<Ask>, places: seq<Num>) {
    && |places| == |asks|
    && (forall i :: 0 <= i < |asks| && asks[i].FreshId? ==>
          Reaches(asks[i].top, places[i]) && Candidate(asks[i].prefix, places[i], text) !in reserved)
    && (forall i, j | 0 <= i < j < |asks| :: Rivals(asks[i], asks[j]) ==> places[i] != places[j])
  }

  predicate Rivals(a: Ask, b: Ask) { a.FreshId? && b.FreshId? && a.prefix == b.prefix }

  /** Of two asks of a prefix the later has no lower top; all tops are doubles from 1 on. */
  ghost predicate Rising(asks: seq<Ask>) {
    && (forall i :: 0 <= i < |asks| && asks[i].FreshId? ==> IsDouble(asks[i].top) && AtMost(Finite(1), asks[i].top))
    && (forall i, j | 0 <= i < j < |asks| :: Rivals(asks[i], asks[j]) ==> AtMost(asks[i].top, asks[j].top))
  }

  lemma AsksRise(c: Config, events: seq<Event>)
    ensures Rising(AsksOf(c, events))
  {
    var asks := AsksOf(c, events);
    AskTops(c, events);
    forall i | 0 <= i < |asks| && asks[i].FreshId? ensures IsDouble(asks[i].top) {
      AskAt(c, events, i);
      StartIsDouble(UsedIds(events[..i]), asks[i].prefix);
    }
    forall i, j | 0 <= i < j < |asks| && Rivals(asks[i], asks[j]) ensures AtMost(asks[i].top, asks[j].top) {
      AskAt(c, events, i);
      AskAt(c, events, j);
      TopGrows(events[..j], asks[i].prefix, i);
      assert events[..j][..i] == events[..i];
    }
  }

  // ------------------------------------------------------- the places taken

  /** Above 2^53 an ask is given its own top unless that is reserved or given away. */
  ghost predicate Greedy(text: Printer, reserved: set<string>, asks: seq<Ask>, given: seq<Num>)
    requires |given| == |asks|
  {
    forall j :: 0 <= j < |asks| && asks[j].FreshId? && !Low(asks[j].top) && given[j] != asks[j].top ==>
      Candidate(asks[j].prefix, asks[j].top, text) in reserved
      || GivenTo(asks[..j], given[..j], asks[j].prefix, asks[j].top)
  }

  ghost predicate GivenTo(asks: seq<Ask>, given: seq<Num>, prefix: string, y: Num)
    requires |given| == |asks|
  {
    exists i :: 0 <= i < |asks| && Wants(asks[i], prefix) && given[i] == y
  }

  /** The ids of `done` are those of the events, or made from the places given. */
  ghost predicate Matches(c: Config, events: seq<Event>, done: seq<Event>, given: seq<Num>) {
    var asks := AsksOf(c, events);
    && |asks| == |done| == |given| == |events|
    && forall j :: 0 <= j < |asks| ==>
         done[j].id == Some(if asks[j].FreshId? then Candidate(asks[j].prefix, given[j], c.text)
                            else TrimmedId(events[j]))
  }

  lemma PlaceIsDouble(top: Num, y: Num)
    requires IsDouble(top) && Reaches(top, y)
    ensures IsDouble(y)
  {
    if Low(top) { SmallIsDouble(y.n); } else { IncHigh(top); }
  }

  /** An unreserved id that is out was made from a place given to the prefix. */
  lemma OutMeansGiven(c: Config, limit: real, reserved: set<string>, events: seq<Event>, done: seq<Event>,
                      given: seq<Num>, prefix: string, y: Num)
    requires PrintsDecimal(c.text) && PrintsNumbers(c.text) && IsDouble(y)
    requires Canonical(c, limit, done) && Matches(c, events, done, given) && AllReserved(reserved, events)
    requires Assigned(c.text, reserved, AsksOf(c, events), given)
    requires Candidate(prefix, y, c.text) in UsedIds(done) && Candidate(prefix, y, c.text) !in reserved
    ensures |given| == |AsksOf(c, events)| && GivenTo(AsksOf(c, events), given, prefix, y)
  {
    var id, asks := Candidate(prefix, y, c.text), AsksOf(c, events);
    UsedMembers(done, id);
    var i :| 0 <= i < |done| && TrimmedId(done[i]) == id;
    assert Clean(c, limit, done[i]);
    if asks[i].FreshId? {
      AsksRise(c, events);
      PlaceIsDouble(asks[i].top, given[i]);
      if asks[i].prefix != prefix { ForeignCandidate(prefix, asks[i].prefix, given[i], c.text); }
      SameText(prefix, y, given[i], c.text);
    } else {
      UsedMembers(events, id);
    }
  }

  lemma SameText(prefix: string, y: Num, z: Num, text: Printer)
    requires PrintsNumbers(text) && IsDouble(y) && IsDouble(z)
    ensures Candidate(prefix, y, text) == Candidate(prefix, z, text) ==> y == z
  {
    if Candidate(prefix, y, text) == Candidate(prefix, z, text) {
      var head := prefix + "_";
      assert text(y) == Candidate(prefix, y, text)[|head|..] == text(z);
    }
  }

  lemma GivenIsOut(c: Config, limit: real, events: seq<Event>, done: seq<Event>, given: seq<Num>, i: nat)
    requires Canonical(c, limit, done) && Matches(c, events, done, given)
    requires i < |given| && AsksOf(c, events)[i].FreshId?
    ensures Candidate(AsksOf(c, events)[i].prefix, given[i], c.text) in UsedIds(done)
  {
    assert Clean(c, limit, done[i]);
    UsedMembers(done, done[i].id.value);
  }

  /** A finished normalisation has given every event that asked a place. */
  lemma {:induction false} RunPlaces(c: Config, limit: real, reserved: set<string>, events: seq<Event>)
    returns (given: seq<Num>)
    requires ValidConfig(c) && limit >= 1.0 && PrintsDecimal(c.text) && PrintsNumbers(c.text)
    requires AllReserved(reserved, events) && NormEvents(c, limit, reserved, events).Some?
    ensures Matches(c, events, NormEvents(c, limit, reserved, events).value, given)
    ensures Assigned(c.text, reserved, AsksOf(c, events), given) && Greedy(c.text, reserved, AsksOf(c, events), given)
    decreases |events|
  {
    if events == [] {
      given := [];
    } else {
      var init, e := events[..|events| - 1], events[|events| - 1];
      SplitLast(events);
      EventsInit(c, limit, reserved, init, e);
      var before := RunPlaces(c, limit, reserved, init);
      given := PlacesStep(c, limit, reserved, init, e, before);
    }
  }

  lemma PlacesStep(c: Config, limit: real, reserved: set<string>, init: seq<Event>, e: Event, before: seq<Num>)
    returns (given: seq<Num>)
    requires ValidConfig(c) && limit >= 1.0 && PrintsDecimal(c.text) && PrintsNumbers(c.text)
    requires AllReserved(reserved, init + [e]) && NormEvents(c, limit, reserved, init + [e]).Some?
    requires NormEvents(c, limit, reserved, init).Some?
    requires Matches(c, init, NormEvents(c, limit, reserved, init).value, before)
    requires Assigned(c.text, reserved, AsksOf(c, init), before) && Greedy(c.text, reserved, AsksOf(c, init), before)
    ensures Matches(c, init + [e], NormEvents(c, limit, reserved, init + [e]).value, given)
    ensures Assigned(c.text, reserved, AsksOf(c, init + [e]), given)
    ensures Greedy(c.text, reserved, AsksOf(c, init + [e]), given)
  {
    EventsInit(c, limit, reserved, init, e);
    AsksStep(c, init, e);
    NormStep(c, limit, reserved, init, e);
    var done, a := NormEvents(c, limit, reserved, init).value, AskOf(c, init, e);
    var x := Normalized(c, limit, e, IdFor(c, reserved, done, e).value);
    var y := Infinity;
    if Needs(init, e) {
      y := NeedyPlace(c, limit, reserved, init, e, done, before);
    } else {
      UsedStep(init, e);
      KeptId(c, limit, reserved, init, e);
    }
    given := before + [y];
    GivenSnoc(c.text, reserved, AsksOf(c, init), before, a, y);
    MatchesSnoc(c, init, e, done, x, before, y);
  }

  lemma MatchesSnoc(c: Config, init: seq<Event>, e: Event, done: seq<Event>, x: Event, before: seq<Num>, y: Num)
    requires Matches(c, init, done, before)
    requires var a := AskOf(c, init, e);
             x.id == Some(if a.FreshId? then Candidate(a.prefix, y, c.text) else TrimmedId(e))
    ensures Matches(c, init + [e], done + [x], before + [y])
  {
    AsksStep(c, init, e);
  }

  /** The place an event is given that needs one. */
  lemma NeedyPlace(c: Config, limit: real, reserved: set<string>, init: seq<Event>, e: Event, done: seq<Event>,
                   before: seq<Num>) returns (y: Num)
    requires ValidConfig(c) && limit >= 1.0 && PrintsDecimal(c.text) && PrintsNumbers(c.text) && Needs(init, e)
    requires AllReserved(reserved, init) && NormEvents(c, limit, reserved, init) == Some(done)
    requires IdFor(c, reserved, done, e).Some?
    requires Matches(c, init, done, before) && Assigned(c.text, reserved, AsksOf(c, init), before)
    ensures var p, top := PrefixFor(c, e), Top(init, PrefixFor(c, e));
            && IdFor(c, reserved, done, e) == Some(Candidate(p, y, c.text))
            && Reaches(top, y) && Candidate(p, y, c.text) !in reserved
            && (forall i :: 0 <= i < |before| && Wants(AsksOf(c, init)[i], p) ==> before[i] != y)
            && (!Low(top) && y != top ==>
                  Candidate(p, top, c.text) in reserved || GivenTo(AsksOf(c, init), before, p, top))
  {
    var p := PrefixFor(c, e);
    NormEventsCanonical(c, limit, reserved, init);
    var own := Progress(c, limit, reserved, init, p);
    y, own := AskResult(c, limit, reserved, init, e, own);
    NeedyId(c, limit, reserved, init, e);
    NextIdIff(UsedIds(done), p, reserved, c.text);
    StartIsDouble(UsedIds(init), p);
    NewPlace(c, limit, reserved, init, done, before, p, Top(init, p), y);
  }

  /** The place found is new, and above 2^53 it is the top if that is still open. */
  lemma NewPlace(c: Config, limit: real, reserved: set<string>, init: seq<Event>, done: seq<Event>, before: seq<Num>,
                 p: string, top: Num, y: Num)
    requires PrintsDecimal(c.text) && PrintsNumbers(c.text) && IsDouble(top) && AllReserved(reserved, init)
    requires Canonical(c, limit, done) && Matches(c, init, done, before)
    requires Assigned(c.text, reserved, AsksOf(c, init), before)
    requires Candidate(p, y, c.text) !in UsedIds(done)
    requires !Low(top) ==> y == PickHigh(c.text, reserved, UsedIds(done), p, top)
    ensures forall i :: 0 <= i < |before| && Wants(AsksOf(c, init)[i], p) ==> before[i] != y
    ensures !Low(top) && y != top ==>
              Candidate(p, top, c.text) in reserved || GivenTo(AsksOf(c, init), before, p, top)
  {
    forall i | 0 <= i < |before| && Wants(AsksOf(c, init)[i], p) ensures before[i] != y {
      GivenIsOut(c, limit, init, done, before, i);
    }
    if !Low(top) && y != top && Candidate(p, top, c.text) !in reserved {
      OutMeansGiven(c, limit, reserved, init, done, before, p, top);
    }
  }

  lemma GivenSnoc(text: Printer, reserved: set<string>, asks: seq<Ask>, before: seq<Num>, a: Ask, y: Num)
    requires Assigned(text, reserved, asks, before) && Greedy(text, reserved, asks, before)
    requires a.FreshId? ==> Reaches(a.top, y) && Candidate(a.prefix, y, text) !in reserved
    requires a.FreshId? ==> forall i :: 0 <= i < |asks| && Wants(asks[i], a.prefix) ==> before[i] != y
    requires a.FreshId? && !Low(a.top) && y != a.top ==>
               Candidate(a.prefix, a.top, text) in reserved || GivenTo(asks, before, a.prefix, a.top)
    ensures Assigned(text, reserved, asks + [a], before + [y]) && Greedy(text, reserved, asks + [a], before + [y])
  {
    var all, given := asks + [a], before + [y];
    forall j | 0 <= j <= |asks| ensures all[..j] == asks[..j] && given[..j] == before[..j] {}
    assert asks[..|asks|] == asks && before[..|asks|] == before;
  }

  // ------------------------------------------- an assignment is never spoilt

  lemma AssignedInit(text: Printer, reserved: set<string>, asks: seq<Ask>, a: Ask, places: seq<Num>, y: Num)
    requires Assigned(text, reserved, asks + [a], places + [y]) && |places| == |asks|
    ensures Assigned(text, reserved, asks, places)
  {
    var all, full := asks + [a], places + [y];
    forall i | 0 <= i < |asks| ensures all[i] == asks[i] && full[i] == places[i] {}
  }

  /** From a lower top at most the next double is reached, and then that is where counting ends. */
  lemma LowerReach(x: Num, top: Num, y: Num)
    requires IsDouble(x) && IsDouble(top) && !Low(top) && AtMost(x, top) && x != top
    requires Reaches(x, y) && AtMost(top, y)
    ensures !Low(x) && y == top == Inc(x) == Inc(top)
  {
    if !Low(x) { IncHigh(x); }
  }

  /** Above 2^53 no more than two places are in reach. */
  lemma TwoPlaces(top: Num, x: Num, y: Num, z: Num)
    requires !Low(top) && Reaches(top, x) && Reaches(top, y) && Reaches(top, z)
    ensures x == y || y == z || x == z
  {
  }

  /** Above 2^53: an ask that has a place finds one, whatever the asks before it were given. */
  lemma HighFindsPlace(text: Printer, reserved: set<string>, asks: seq<Ask>, given: seq<Num>, a: Ask, places: seq<Num>)
    returns (y: Num)
    requires Rising(asks + [a]) && a.FreshId? && !Low(a.top)
    requires Assigned(text, reserved, asks, given) && Greedy(text, reserved, asks, given)
    requires Assigned(text, reserved, asks + [a], places)
    ensures y == a.top || y == Inc(a.top)
    ensures Candidate(a.prefix, y, text) !in reserved && !GivenTo(asks, given, a.prefix, y)
  {
    assert (asks + [a])[|asks|] == a;
    y := places[|asks|];
    if GivenTo(asks, given, a.prefix, y) {
      var j :| 0 <= j < |asks| && Wants(asks[j], a.prefix) && given[j] == y;
      NotSpilled(text, reserved, asks, given, a, places, j);
      SameTop(text, reserved, asks, given, a, places, j);
      y := places[j];
    }
  }

  /** The place went to an ask of the same top: then the one that ask has is left. */
  lemma SameTop(text: Printer, reserved: set<string>, asks: seq<Ask>, given: seq<Num>, a: Ask, places: seq<Num>, j: nat)
    requires Rising(asks + [a]) && a.FreshId? && !Low(a.top)
    requires Assigned(text, reserved, asks, given) && Assigned(text, reserved, asks + [a], places)
    requires j < |asks| && Wants(asks[j], a.prefix) && given[j] == places[|asks|] && asks[j].top == a.top
    ensures places[j] == a.top || places[j] == Inc(a.top)
    ensures Candidate(a.prefix, places[j], text) !in reserved && !GivenTo(asks, given, a.prefix, places[j])
  {
    var all, k := asks + [a], |asks|;
    assert all[k] == a && all[j] == asks[j] && Rivals(all[j], all[k]);
    IncHigh(a.top);
    forall i | 0 <= i < k && Wants(asks[i], a.prefix) ensures given[i] != places[j] {
      assert all[i] == asks[i] && Rivals(all[i], all[k]);
      if asks[i].top == a.top {
        TwoPlaces(a.top, places[i], places[j], places[k]);
      } else if given[i] == places[j] {
        LowerReach(asks[i].top, a.top, places[j]);
      }
    }
  }

  /** It did not go to an ask of a lower top. */
  lemma NotSpilled(text: Printer, reserved: set<string>, asks: seq<Ask>, given: seq<Num>, a: Ask, places: seq<Num>,
                   j: nat)
    requires Rising(asks + [a]) && a.FreshId? && !Low(a.top)
    requires Assigned(text, reserved, asks, given) && Greedy(text, reserved, asks, given)
    requires Assigned(text, reserved, asks + [a], places)
    requires j < |asks| && Wants(asks[j], a.prefix)
    ensures given[j] == places[|asks|] ==> asks[j].top == a.top
  {
    var all, k, low := asks + [a], |asks|, asks[j].top;
    assert all[k] == a && all[j] == asks[j] && Rivals(all[j], all[k]);
    if given[j] == places[k] && low != a.top {
      IncHigh(a.top);
      LowerReach(low, a.top, places[k]);
      forall i | 0 <= i < j && Wants(asks[..j][i], a.prefix) ensures given[..j][i] != low {
        assert all[i] == asks[i] && Rivals(all[i], all[j]) && Rivals(all[i], all[k]);
        if asks[i].top == low {
          TwoPlaces(low, places[i], places[j], places[k]);
        } else if given[i] == low {
          LowerReach(asks[i].top, low, low);
        }
      }
    }
  }

  // ------------------------------------------------------------- up to 2^53

  ghost function PlaceSet(asks: seq<Ask>, places: seq<Num>, prefix: string): set<nat>
    requires |places| == |asks|
  {
    set j | 0 <= j < |asks| && Wants(asks[j], prefix) && places[j].Finite? :: places[j].n
  }

  /** Different places, as many as the asks. */
  lemma {:induction false} PlaceCount(asks: seq<Ask>, places: seq<Num>, prefix: string)
    requires |places| == |asks|
    requires forall j :: 0 <= j < |asks| && Wants(asks[j], prefix) ==> places[j].Finite?
    requires forall i, j | 0 <= i < j < |asks| :: Rivals(asks[i], asks[j]) ==> places[i] != places[j]
    ensures |PlaceSet(asks, places, prefix)| == Demand(asks, prefix)
  {
    if asks != [] {
      var n := |asks| - 1;
      PlaceCount(asks[..n], places[..n], prefix);
      var before := PlaceSet(asks[..n], places[..n], prefix);
      if Wants(asks[n], prefix) {
        forall j | 0 <= j < n && Wants(asks[j], prefix) ensures places[j] != places[n] {
          assert Rivals(asks[j], asks[n]);
        }
        assert places[n].n !in before;
        assert PlaceSet(asks, places, prefix) == before + {places[n].n};
      } else {
        assert PlaceSet(asks, places, prefix) == before;
      }
    }
  }

  /** Up to 2^53: where places are assigned, the numbers suffice. */
  lemma PlacesSuffice(text: Printer, reserved: set<string>, asks: seq<Ask>, places: seq<Num>, prefix: string)
    requires Rising(asks) && Assigned(text, reserved, asks, places)
    requires forall i :: 0 <= i < |asks| && Wants(asks[i], prefix) ==> Low(asks[i].top)
    ensures Spare(text, reserved, asks, prefix) >= 0
  {
    forall i | 0 <= i < |asks| && Wants(asks[i], prefix) ensures EnoughFrom(text, reserved, asks, i) {
      var rest, theirs, top := asks[i..], places[i..], asks[i].top;
      forall j | 0 <= j < |rest| && Wants(rest[j], prefix)
        ensures theirs[j].Finite? && theirs[j].n in FreeFrom(text, reserved, prefix, top.n)
      {
        assert rest[j] == asks[i + j] && theirs[j] == places[i + j];
        if j > 0 { assert Rivals(asks[i], asks[i + j]); }
      }
      PlaceCount(rest, theirs, prefix);
      assert PlaceSet(rest, theirs, prefix) <= FreeFrom(text, reserved, prefix, top.n);
      SubsetSize(PlaceSet(rest, theirs, prefix), FreeFrom(text, reserved, prefix, top.n));
    }
    SpareIff(text, reserved, asks, prefix);
  }

  // ------------------------------------------------------------ main results

  /** If the asks can all be given places, the searches all end. */
  lemma {:induction false} AssignedEnds(c: Config, limit: real, reserved: set<string>, events: seq<Event>,
                                        places: seq<Num>)
    requires ValidConfig(c) && limit >= 1.0 && PrintsDecimal(c.text) && PrintsNumbers(c.text)
    requires AllReserved(reserved, events) && Assigned(c.text, reserved, AsksOf(c, events), places)
    ensures NormEvents(c, limit, reserved, events).Some?
    decreases |events|
  {
    if events != [] {
      var init, e := events[..|events| - 1], events[|events| - 1];
      SplitLast(events);
      var before := InitAssigned(c, reserved, init, e, places);
      AssignedEnds(c, limit, reserved, init, before);
      NormStep(c, limit, reserved, init, e);
      AssignedStep(c, limit, reserved, init, e, places);
    }
  }

  lemma InitAssigned(c: Config, reserved: set<string>, init: seq<Event>, e: Event, places: seq<Num>)
    returns (before: seq<Num>)
    requires AllReserved(reserved, init + [e]) && Assigned(c.text, reserved, AsksOf(c, init + [e]), places)
    ensures AllReserved(reserved, init) && Assigned(c.text, reserved, AsksOf(c, init), before)
  {
    UsedStep(init, e);
    AsksStep(c, init, e);
    before := places[..|places| - 1];
    SplitLast(places);
    AssignedInit(c.text, reserved, AsksOf(c, init), AskOf(c, init, e), before, places[|places| - 1]);
  }

  lemma AssignedStep(c: Config, limit: real, reserved: set<string>, init: seq<Event>, e: Event, places: seq<Num>)
    requires ValidConfig(c) && limit >= 1.0 && PrintsDecimal(c.text) && PrintsNumbers(c.text)
    requires AllReserved(reserved, init + [e]) && NormEvents(c, limit, reserved, init).Some?
    requires Assigned(c.text, reserved, AsksOf(c, init + [e]), places)
    ensures IdFor(c, reserved, NormEvents(c, limit, reserved, init).value, e).Some?
  {
    UsedStep(init, e);
    if Needs(init, e) {
      if Low(Top(init, PrefixFor(c, e))) {
        LowStep(c, limit, reserved, init, e, places);
      } else {
        HighStep(c, limit, reserved, init, e, places);
      }
    } else {
      KeptId(c, limit, reserved, init, e);
    }
  }

  lemma LowStep(c: Config, limit: real, reserved: set<string>, init: seq<Event>, e: Event, places: seq<Num>)
    requires ValidConfig(c) && limit >= 1.0 && PrintsDecimal(c.text) && PrintsNumbers(c.text) && Needs(init, e)
    requires AllReserved(reserved, init) && NormEvents(c, limit, reserved, init).Some?
    requires Low(Top(init, PrefixFor(c, e))) && Assigned(c.text, reserved, AsksOf(c, init + [e]), places)
    ensures IdFor(c, reserved, NormEvents(c, limit, reserved, init).value, e).Some?
  {
    LowSpare(c, reserved, init, e, places);
    var own := Progress(c, limit, reserved, init, PrefixFor(c, e));
    var _, _ := AskResult(c, limit, reserved, init, e, own);
    SpareOfStep(c, reserved, init, e, PrefixFor(c, e));
  }

  lemma LowSpare(c: Config, reserved: set<string>, init: seq<Event>, e: Event, places: seq<Num>)
    requires Needs(init, e) && Low(Top(init, PrefixFor(c, e)))
    requires Assigned(c.text, reserved, AsksOf(c, init + [e]), places)
    ensures SpareOf(c, reserved, init + [e], PrefixFor(c, e)) >= 0
  {
    var p, asks := PrefixFor(c, e), AsksOf(c, init + [e]);
    AsksRise(c, init + [e]);
    AsksStep(c, init, e);
    var k := |asks| - 1;
    assert asks[k] == FreshId(p, Top(init, p));
    forall i | 0 <= i < |asks| && Wants(asks[i], p) ensures Low(asks[i].top) {
      if i < k { assert Rivals(asks[i], asks[k]); }
    }
    PlacesSuffice(c.text, reserved, asks, places, p);
  }

  lemma HighStep(c: Config, limit: real, reserved: set<string>, init: seq<Event>, e: Event, places: seq<Num>)
    requires ValidConfig(c) && limit >= 1.0 && PrintsDecimal(c.text) && PrintsNumbers(c.text) && Needs(init, e)
    requires AllReserved(reserved, init) && NormEvents(c, limit, reserved, init).Some?
    requires !Low(Top(init, PrefixFor(c, e))) && Assigned(c.text, reserved, AsksOf(c, init + [e]), places)
    ensures IdFor(c, reserved, NormEvents(c, limit, reserved, init).value, e).Some?
  {
    var p, top, done := PrefixFor(c, e), Top(init, PrefixFor(c, e)), NormEvents(c, limit, reserved, init).value;
    var own := Progress(c, limit, reserved, init, p);
    var _, _ := AskResult(c, limit, reserved, init, e, own);
    var given := RunPlaces(c, limit, reserved, init);
    AsksRise(c, init + [e]);
    AsksStep(c, init, e);
    var z := HighFindsPlace(c.text, reserved, AsksOf(c, init), given, FreshId(p, top), places);
    StartIsDouble(UsedIds(init), p);
    IncHigh(top);
    NormEventsCanonical(c, limit, reserved, init);
    if Candidate(p, z, c.text) in UsedIds(done) { OutMeansGiven(c, limit, reserved, init, done, given, p, z); }
  }

  /** The events that need an id can be given places of their own. */
  ghost predicate Assignable(c: Config, events: seq<Event>) {
    exists places :: Assigned(c.text, Reserved(events), AsksOf(c, events), places)
  }

  /** For every draft: normalising ends exactly when the events that need an id can be given places of their own. */
  lemma NormalizeEndsExactly(c: Config, d: Draft)
    requires ValidConfig(c) && PrintsDecimal(c.text) && PrintsNumbers(c.text)
    ensures Normalize(c, d).Some? <==> Assignable(c, Objects(d.entries))
  {
    var events, limit := Objects(d.entries), Duration(c, d);
    OwnIdsReserved(events);
    if Normalize(c, d).Some? {
      var given := RunPlaces(c, limit, Reserved(events), events);
    }
    if places :| Assigned(c.text, Reserved(events), AsksOf(c, events), places) {
      AssignedEnds(c, limit, Reserved(events), events, places);
    }
  }
}
