/** What normalising a timeline guarantees: distinct ids, kept ids, and a fixed point. */
module TimelineNormal {
  import opened Options
  import opened JsNumber
  import opened TimelineIds
  import opened Timeline

  /** An event as normalisation leaves it. */
  ghost predicate Clean(c: Config, limit: real, e: Event) {
    && e.id.Some? && e.id.value != "" && Trim(e.id.value) == e.id.value
    && e.laneId == LaneOf(c, e) && e.hasExpectation == IsExpectation(c, e)
    && e.atMs.Some? && 0.0 <= e.atMs.value <= limit
  }

  ghost predicate DistinctIds(events: seq<Event>) {
    forall i, j :: 0 <= i < j < |events| ==> events[i].id != events[j].id
  }

  ghost predicate Canonical(c: Config, limit: real, events: seq<Event>) {
    DistinctIds(events) && forall i :: 0 <= i < |events| ==> Clean(c, limit, events[i])
  }

  // ---------------------------------------------------------------- ids

  lemma TrimFixed(s: string)
    ensures Trim(Trim(s)) == Trim(s)
  {
  }

  lemma TrimSolid(s: string)
    requires s != "" && !IsSpace(s[0]) && !IsSpace(s[|s| - 1])
    ensures Trim(s) == s
  {
  }

  lemma {:induction false} UsedIdsHolds(c: Config, limit: real, events: seq<Event>, id: string)
    requires forall i :: 0 <= i < |events| ==> Clean(c, limit, events[i])
    ensures Holds(events, id) ==> id in UsedIds(events)
  {
    if events != [] {
      var init, e := events[..|events| - 1], events[|events| - 1];
      assert Clean(c, limit, e);
      forall i | 0 <= i < |init| ensures Clean(c, limit, init[i]) { assert Clean(c, limit, events[i]); }
      UsedIdsHolds(c, limit, init, id);
      if Holds(events, id) && e.id != Some(id) {
        var i :| 0 <= i < |events| && events[i].id == Some(id);
        assert init[i].id == Some(id);
      }
    }
  }

  lemma CandidateSolid(c: Config, lane: string, x: Num)
    requires ValidConfig(c)
    ensures Candidate(c.prefixOf(lane), x, c.text) != ""
    ensures Trim(Candidate(c.prefixOf(lane), x, c.text)) == Candidate(c.prefixOf(lane), x, c.text)
  {
    var p, t := c.prefixOf(lane), c.text(x);
    var id := Candidate(p, x, c.text);
    assert id == p + "_" + t;
    assert id[|id| - 1] == t[|t| - 1];
    assert id[0] == if p == "" then '_' else p[0];
    TrimSolid(id);
  }

  lemma {:induction false} SearchCandidate(x: Num, prefix: string, taken: set<string>, text: Printer) returns (y: Num)
    requires IsDouble(x) && Search(x, prefix, taken, text).Some?
    ensures Search(x, prefix, taken, text).value == Candidate(prefix, y, text)
    decreases Moves(x)
  {
    y := x;
    if Candidate(prefix, x, text) in taken {
      MovesDecrease(x);
      y := SearchCandidate(Inc(x), prefix, taken, text);
    }
  }

  /** The id an event gets is solid, new, and either its own or one that nobody carried. */
  lemma IdForFacts(c: Config, limit: real, reserved: set<string>, done: seq<Event>, e: Event)
    requires ValidConfig(c) && Canonical(c, limit, done) && IdFor(c, reserved, done, e).Some?
    ensures var id := IdFor(c, reserved, done, e).value;
            && id != "" && Trim(id) == id && !Holds(done, id)
            && (id == TrimmedId(e) || id !in reserved)
            && (TrimmedId(e) != "" && !Holds(done, TrimmedId(e)) ==> id == TrimmedId(e))
  {
    var own := TrimmedId(e);
    if own != "" && !Holds(done, own) {
      TrimFixed(if e.id.Some? then e.id.value else "");
    } else {
      var prefix := c.prefixOf(LaneOf(c, e));
      NextIdIff(UsedIds(done), prefix, reserved, c.text);
      StartIsDouble(UsedIds(done), prefix);
      var y := SearchCandidate(Start(UsedIds(done), prefix), prefix, (set i | i in UsedIds(done)) + reserved, c.text);
      CandidateSolid(c, LaneOf(c, e), y);
      UsedIdsHolds(c, limit, done, IdFor(c, reserved, done, e).value);
    }
  }

  lemma {:induction false} NormEventsCanonical(c: Config, limit: real, reserved: set<string>, events: seq<Event>)
    requires ValidConfig(c) && limit >= 1.0 && NormEvents(c, limit, reserved, events).Some?
    ensures Canonical(c, limit, NormEvents(c, limit, reserved, events).value)
    ensures |NormEvents(c, limit, reserved, events).value| == |events|
  {
    if events != [] {
      var init, e := events[..|events| - 1], events[|events| - 1];
      assert events == init + [e];
      NormStep(c, limit, reserved, init, e);
      NormEventsCanonical(c, limit, reserved, init);
      var done := NormEvents(c, limit, reserved, init).value;
      IdForFacts(c, limit, reserved, done, e);
      AppendCanonical(c, limit, done, Normalized(c, limit, e, IdFor(c, reserved, done, e).value));
    }
  }

  lemma AppendCanonical(c: Config, limit: real, done: seq<Event>, e: Event)
    requires Canonical(c, limit, done) && Clean(c, limit, e) && !Holds(done, e.id.value)
    ensures Canonical(c, limit, done + [e])
  {
    forall i | 0 <= i < |done| ensures done[i].id != e.id {}
  }

  /** The first event to carry a non-blank id keeps it, whatever was generated before. */
  lemma {:induction false} FirstCarrierKeeps(c: Config, limit: real, reserved: set<string>, events: seq<Event>, k: nat)
    requires ValidConfig(c) && limit >= 1.0 && NormEvents(c, limit, reserved, events).Some? && k < |events|
    requires TrimmedId(events[k]) != "" && TrimmedId(events[k]) in reserved
    requires forall i :: 0 <= i < k ==> TrimmedId(events[i]) != TrimmedId(events[k])
    ensures |NormEvents(c, limit, reserved, events).value| == |events|
    ensures NormEvents(c, limit, reserved, events).value[k].id == Some(TrimmedId(events[k]))
  {
    var n := |events| - 1;
    var init, e := events[..n], events[n];
    assert events == init + [e];
    NormStep(c, limit, reserved, init, e);
    NormEventsCanonical(c, limit, reserved, init);
    if k < n {
      FirstCarrierKeeps(c, limit, reserved, init, k);
    } else {
      IdForFacts(c, limit, reserved, NormEvents(c, limit, reserved, init).value, e);
      NotGenerated(c, limit, reserved, init, TrimmedId(e));
    }
  }

  /** A reserved id that no event carries is never handed out. */
  lemma {:induction false} NotGenerated(c: Config, limit: real, reserved: set<string>, events: seq<Event>, id: string)
    requires ValidConfig(c) && limit >= 1.0 && NormEvents(c, limit, reserved, events).Some?
    requires id in reserved && forall i :: 0 <= i < |events| ==> TrimmedId(events[i]) != id
    ensures !Holds(NormEvents(c, limit, reserved, events).value, id)
  {
    if events != [] {
      var n := |events| - 1;
      var init, e := events[..n], events[n];
      assert events == init + [e];
      NormStep(c, limit, reserved, init, e);
      NormEventsCanonical(c, limit, reserved, init);
      NotGenerated(c, limit, reserved, init, id);
      var done := NormEvents(c, limit, reserved, init).value;
      IdForFacts(c, limit, reserved, done, e);
      var out := done + [Normalized(c, limit, e, IdFor(c, reserved, done, e).value)];
      forall i | 0 <= i < |out| ensures out[i].id != Some(id) {}
    }
  }

  // ------------------------------------------------------------- fixed point

  lemma {:induction false} CanonicalKept(c: Config, limit: real, reserved: set<string>, events: seq<Event>)
    requires Canonical(c, limit, events)
    ensures NormEvents(c, limit, reserved, events) == Some(events)
  {
    if events != [] {
      var n := |events| - 1;
      var init, e := events[..n], events[n];
      assert events == init + [e];
      assert Canonical(c, limit, init) by {
        forall i | 0 <= i < n ensures Clean(c, limit, init[i]) { assert Clean(c, limit, events[i]); }
      }
      CanonicalKept(c, limit, reserved, init);
      NormStep(c, limit, reserved, init, e);
      assert Clean(c, limit, events[n]);
      forall i | 0 <= i < |init| ensures init[i].id != e.id {}
      assert Normalized(c, limit, e, e.id.value) == e;
    }
  }

  lemma {:induction false} InsertCanonical(c: Config, limit: real, sorted: seq<Event>, e: Event)
    requires Canonical(c, limit, sorted) && Clean(c, limit, e) && !Holds(sorted, e.id.value)
    ensures Canonical(c, limit, Insert(sorted, e))
  {
    if sorted == [] || At(sorted[|sorted| - 1]) <= At(e) {
      AppendCanonical(c, limit, sorted, e);
    } else {
      var n := |sorted| - 1;
      var init := sorted[..n];
      assert Clean(c, limit, sorted[n]);
      forall i | 0 <= i < n ensures Clean(c, limit, init[i]) { assert Clean(c, limit, sorted[i]); }
      forall i | 0 <= i < n ensures init[i].id != e.id {}
      InsertCanonical(c, limit, init, e);
      InsertMembers(init, e);
      var before := Insert(init, e);
      forall x | x in before ensures x.id != sorted[n].id {
        if x in init { var j :| 0 <= j < n && init[j] == x; }
      }
      AppendCanonical(c, limit, before, sorted[n]);
    }
  }

  lemma SortHolds(events: seq<Event>, id: string)
    ensures Holds(Sort(events), id) ==> Holds(events, id)
  {
    SortMembers(events);
    forall x | x in events && x.id == Some(id) ensures Holds(events, id) {
      var j :| 0 <= j < |events| && events[j] == x;
    }
  }

  lemma InitCanonical(c: Config, limit: real, events: seq<Event>)
    requires Canonical(c, limit, events) && events != []
    ensures var n := |events| - 1;
            Canonical(c, limit, events[..n]) && Clean(c, limit, events[n]) && !Holds(events[..n], events[n].id.value)
  {
    var n := |events| - 1;
    assert Clean(c, limit, events[n]);
    forall i | 0 <= i < n ensures Clean(c, limit, events[..n][i]) && events[..n][i].id != events[n].id {
      assert Clean(c, limit, events[i]);
    }
  }

  lemma {:induction false} SortCanonical(c: Config, limit: real, events: seq<Event>)
    requires Canonical(c, limit, events)
    ensures Canonical(c, limit, Sort(events))
  {
    if events != [] {
      var n := |events| - 1;
      InitCanonical(c, limit, events);
      SortCanonical(c, limit, events[..n]);
      SortHolds(events[..n], events[n].id.value);
      InsertCanonical(c, limit, Sort(events[..n]), events[n]);
    }
  }

  // ------------------------------------------------------------------ lanes

  lemma {:induction false} FindLaneIn(lanes: seq<Lane>, more: seq<Lane>, k: nat)
    requires k < |lanes| && forall i :: 0 <= i < k ==> lanes[i].id != lanes[k].id
    ensures FindLane(lanes + more, lanes[k].id) == Some(lanes[k])
  {
    if k > 0 {
      assert (lanes + more)[1..] == lanes[1..] + more;
      FindLaneIn(lanes[1..], more, k - 1);
    }
  }

  lemma {:induction false} CustomIds(raw: seq<Lane>, seen: set<string>)
    ensures forall l :: l in CustomLanes(raw, seen) ==> l.id != "" && l.id !in seen
    ensures forall i, j :: 0 <= i < j < |CustomLanes(raw, seen)| ==>
              CustomLanes(raw, seen)[i].id != CustomLanes(raw, seen)[j].id
  {
    if raw != [] {
      CustomIds(raw[1..], seen);
      if !(raw[0].id == "" || raw[0].id in seen) {
        var rest := CustomLanes(raw[1..], seen + {raw[0].id});
        CustomIds(raw[1..], seen + {raw[0].id});
        assert CustomLanes(raw, seen) == [raw[0]] + rest;
        forall l | l in rest ensures l.id != raw[0].id {}
        forall j | 0 <= j < |rest| ensures rest[j].id != raw[0].id { assert rest[j] in rest; }
      }
    }
  }

  lemma {:induction false} CustomSkips(defaults: seq<Lane>, more: seq<Lane>, seen: set<string>)
    requires forall l :: l in defaults ==> l.id in seen
    ensures CustomLanes(defaults + more, seen) == CustomLanes(more, seen)
  {
    if defaults == [] {
      assert defaults + more == more;
    } else {
      assert (defaults + more)[1..] == defaults[1..] + more;
      assert defaults[0] in defaults;
      CustomSkips(defaults[1..], more, seen);
    }
  }

  lemma {:induction false} CustomKept(lanes: seq<Lane>, seen: set<string>)
    requires forall l :: l in lanes ==> l.id != "" && l.id !in seen
    requires forall i, j :: 0 <= i < j < |lanes| ==> lanes[i].id != lanes[j].id
    ensures CustomLanes(lanes, seen) == lanes
  {
    if lanes != [] {
      assert lanes[0] in lanes;
      forall l | l in lanes[1..] ensures l.id != "" && l.id !in seen + {lanes[0].id} {
        var j :| 0 <= j < |lanes[1..]| && lanes[1..][j] == l;
        assert lanes[j + 1] == l;
      }
      CustomKept(lanes[1..], seen + {lanes[0].id});
    }
  }

  /** Lane normalisation is a fixed point of itself. */
  lemma LanesTwice(c: Config, raw: seq<Lane>)
    requires ValidConfig(c)
    ensures NormLanes(c, NormLanes(c, raw)) == NormLanes(c, raw)
  {
    var merged, custom := MergedDefaults(c, raw), CustomLanes(raw, LaneIds(c.lanes));
    var once := merged + custom;
    forall l | l in merged ensures l.id in LaneIds(c.lanes) {
      var k :| 0 <= k < |merged| && merged[k] == l;
      assert c.lanes[k] in c.lanes && merged[k].id == c.lanes[k].id;
    }
    CustomIds(raw, LaneIds(c.lanes));
    CustomSkips(merged, custom, LaneIds(c.lanes));
    CustomKept(custom, LaneIds(c.lanes));
    forall k | 0 <= k < |c.lanes| ensures MergeLane(once, c.lanes[k]) == merged[k] {
      MergeTwice(c, raw, k, custom);
    }
    assert MergedDefaults(c, once) == merged;
  }

  lemma MergeTwice(c: Config, raw: seq<Lane>, k: nat, custom: seq<Lane>)
    requires ValidConfig(c) && k < |c.lanes|
    ensures MergeLane(MergedDefaults(c, raw) + custom, c.lanes[k]) == MergedDefaults(c, raw)[k]
  {
    var merged := MergedDefaults(c, raw);
    forall i | 0 <= i < |merged| ensures merged[i].id == c.lanes[i].id {}
    FindLaneIn(merged, custom, k);
    var d := c.lanes[k];
    assert merged[k].attrs + d.attrs == merged[k].attrs;
  }

  // ------------------------------------------------------------ main results

  lemma {:induction false} ObjectsWrap(events: seq<Event>)
    ensures Objects(Wrap(events)) == events
  {
    if events != [] {
      var n := |events| - 1;
      assert Wrap(events)[..n] == Wrap(events[..n]);
      ObjectsWrap(events[..n]);
      assert events == events[..n] + [events[n]];
    }
  }

  /** A draft whose events and lanes are already in normal form, whatever the order of the events. */
  ghost predicate NearNormal(c: Config, d: Draft, events: seq<Event>) {
    && d.duration.Some? && d.duration.value >= 1.0
    && d.entries == Wrap(events) && Canonical(c, d.duration.value, events)
    && NormLanes(c, d.lanes) == d.lanes
  }

  lemma NormalizeNear(c: Config, d: Draft, events: seq<Event>)
    requires NearNormal(c, d, events)
    ensures Normalize(c, d) == Some(d.(entries := Wrap(Sort(events))))
  {
    ObjectsWrap(events);
    CanonicalKept(c, d.duration.value, Reserved(events), events);
  }

  /** What a normalised draft looks like. */
  lemma NormalForm(c: Config, d: Draft)
    requires ValidConfig(c) && Normalize(c, d).Some?
    ensures var d' := Normalize(c, d).value;
            && NearNormal(c, d', Objects(d'.entries))
            && d'.entries == Wrap(Objects(d'.entries)) && InOrder(Objects(d'.entries))
            && |Objects(d'.entries)| == |Objects(d.entries)|
  {
    var limit, events := Duration(c, d), Objects(d.entries);
    NormEventsCanonical(c, limit, Reserved(events), events);
    var done := NormEvents(c, limit, Reserved(events), events).value;
    SortCanonical(c, limit, done);
    SortMembers(done);
    ObjectsWrap(Sort(done));
    LanesTwice(c, d.lanes);
  }

  /** Event ids are pairwise distinct after normalising any draft. */
  lemma NormalIdsDistinct(c: Config, d: Draft)
    requires ValidConfig(c) && Normalize(c, d).Some?
    ensures DistinctIds(Objects(Normalize(c, d).value.entries))
  {
    NormalForm(c, d);
  }

  lemma {:induction false} UsedIdsAll(events: seq<Event>, k: nat)
    requires k < |events| && TrimmedId(events[k]) != ""
    ensures TrimmedId(events[k]) in UsedIds(events)
  {
    if k < |events| - 1 { UsedIdsAll(events[..|events| - 1], k); }
  }

  /** The first object event with a non-blank id is still there under that id. */
  lemma FirstIdSurvives(c: Config, d: Draft, k: nat)
    requires ValidConfig(c) && Normalize(c, d).Some? && k < |Objects(d.entries)|
    requires var events := Objects(d.entries);
             TrimmedId(events[k]) != "" && forall i :: 0 <= i < k ==> TrimmedId(events[i]) != TrimmedId(events[k])
    ensures var e, d' := Objects(d.entries)[k], Normalize(c, d).value;
            d'.duration.Some?
            && exists x :: x in Objects(d'.entries) && x.id == Some(TrimmedId(e)) && Becomes(c, d'.duration.value, e, x)
  {
    var limit, events := Duration(c, d), Objects(d.entries);
    var reserved := Reserved(events);
    UsedIdsAll(events, k);
    FirstCarrierKeeps(c, limit, reserved, events, k);
    var done := NormEvents(c, limit, reserved, events).value;
    NormEventsPointwise(c, limit, reserved, events, k);
    NormalizedBecomes(c, limit, events[k], TrimmedId(events[k]));
    assert done[k] in done;
    SortMembers(done);
    ObjectsWrap(Sort(done));
  }

  /** `t` is `s` without space at its ends. */
  ghost predicate Around(s: string, t: string, front: string, back: string) {
    && s == front + t + back
    && (forall i :: 0 <= i < |front| ==> IsSpace(front[i]))
    && (forall i :: 0 <= i < |back| ==> IsSpace(back[i]))
  }

  lemma AroundFront(c: char, s: string, t: string, front: string, back: string)
    requires IsSpace(c) && Around(s, t, front, back)
    ensures Around([c] + s, t, [c] + front, back)
  {
  }

  lemma AroundBack(c: char, s: string, t: string, front: string, back: string)
    requires IsSpace(c) && Around(s, t, front, back)
    ensures Around(s + [c], t, front, back + [c])
  {
  }

  /** Trimming takes space off both ends and nothing else. */
  lemma {:induction false} TrimTakesSpace(s: string) returns (front: string, back: string)
    ensures Around(s, Trim(s), front, back)
    decreases |s|
  {
    if s != "" && IsSpace(s[0]) {
      front, back := TrimTakesSpace(s[1..]);
      AroundFront(s[0], s[1..], Trim(s), front, back);
      assert s == [s[0]] + s[1..];
      front := [s[0]] + front;
    } else if s != "" && IsSpace(s[|s| - 1]) {
      front, back := TrimTakesSpace(s[..|s| - 1]);
      AroundBack(s[|s| - 1], s[..|s| - 1], Trim(s), front, back);
      assert s == s[..|s| - 1] + [s[|s| - 1]];
      back := back + [s[|s| - 1]];
    } else {
      front, back := "", "";
    }
  }

  lemma {:induction false} NormEventsPointwise(c: Config, limit: real, reserved: set<string>, events: seq<Event>,
                                               k: nat)
    requires NormEvents(c, limit, reserved, events).Some? && k < |events|
    ensures var done := NormEvents(c, limit, reserved, events).value;
            |done| == |events| && done[k].id.Some? && done[k] == Normalized(c, limit, events[k], done[k].id.value)
  {
    var n := |events| - 1;
    assert events == events[..n] + [events[n]];
    NormStep(c, limit, reserved, events[..n], events[n]);
    if n > 0 { NormEventsPointwise(c, limit, reserved, events[..n], if k < n then k else 0); }
  }

  /**
   `x` is `e` under some id: an expectation in the expectation lane, anything else in
   its own lane, or in the input lane if it names none; at its time, cut to the
   timeline; with all other fields unchanged.
   */
  predicate Becomes(c: Config, limit: real, e: Event, x: Event) {
    var expectation := e.laneId == c.expectationLane || e.hasExpectation;
    var at := if e.atMs.Some? then e.atMs.value else 0.0;
    && x.id.Some? && x.rest == e.rest && x.hasExpectation == expectation
    && (expectation ==> x.laneId == c.expectationLane)
    && (!expectation && e.laneId != "" ==> x.laneId == e.laneId)
    && (!expectation && e.laneId == "" ==> x.laneId == c.inputLane)
    && x.atMs.Some?
    && (0.0 <= at <= limit ==> x.atMs.value == at)
    && (at < 0.0 ==> x.atMs.value == 0.0)
    && (at > limit ==> x.atMs.value == limit)
  }

  lemma NormalizedBecomes(c: Config, limit: real, e: Event, id: string)
    requires limit >= 1.0
    ensures Becomes(c, limit, e, Normalized(c, limit, e, id))
  {
  }

  /**
   The object events are there one for one, each under some id, and nothing else is:
   the result holds the images `image[k]` of the events, in another order.
   */
  lemma EventsKept(c: Config, d: Draft) returns (image: seq<Event>)
    requires Normalize(c, d).Some?
    ensures var before, d' := Objects(d.entries), Normalize(c, d).value;
            && d'.duration.Some? && |image| == |before|
            && (forall k :: 0 <= k < |before| ==> Becomes(c, d'.duration.value, before[k], image[k]))
            && multiset(Objects(d'.entries)) == multiset(image)
  {
    var limit, events := Duration(c, d), Objects(d.entries);
    var reserved := Reserved(events);
    image := NormEvents(c, limit, reserved, events).value;
    SortMembers(image);
    ObjectsWrap(Sort(image));
    forall k | 0 <= k < |events| ensures |image| == |events| && Becomes(c, limit, events[k], image[k]) {
      NormEventsPointwise(c, limit, reserved, events, k);
      NormalizedBecomes(c, limit, events[k], image[k].id.value);
    }
  }

  /** The first duration given and not zero, of the draft, the form and the default; at least 1. */
  lemma NormalDuration(c: Config, d: Draft)
    requires Normalize(c, d).Some?
    ensures var limit := Normalize(c, d).value.duration;
            && limit.Some? && limit.value >= 1.0
            && (forall x | d.duration == Some(x) && x != 0.0 :: DurationFrom(x, limit.value))
            && (forall x | d.duration in {None, Some(0.0)} && c.formDuration == Some(x) && x != 0.0 ::
                  DurationFrom(x, limit.value))
            && (d.duration in {None, Some(0.0)} && c.formDuration in {None, Some(0.0)} ==>
                  DurationFrom(c.defaultDuration, limit.value))
  {
  }

  predicate DurationFrom(x: real, limit: real) {
    (x >= 1.0 ==> limit == x) && (x < 1.0 ==> limit == 1.0)
  }

  // ------------------------------------------------------------- which lanes

  /** The first raw lane of a name that is neither blank nor taken. */
  predicate IsNewLane(raw: seq<Lane>, taken: set<string>, k: nat)
    requires k < |raw|
  {
    raw[k].id != "" && raw[k].id !in taken && forall i :: 0 <= i < k ==> raw[i].id != raw[k].id
  }

  predicate AllNew(raw: seq<Lane>, taken: set<string>, pos: seq<nat>) {
    forall j :: 0 <= j < |pos| ==> pos[j] < |raw| && IsNewLane(raw, taken, pos[j])
  }

  predicate AllThere(raw: seq<Lane>, taken: set<string>, pos: seq<nat>) {
    forall k: nat | k < |raw| :: IsNewLane(raw, taken, k) ==> k in pos
  }

  predicate Ascending(pos: seq<nat>) { forall i, j | 0 <= i < j < |pos| :: pos[i] < pos[j] }

  /** `pos` are the places of all new lanes, in order. */
  predicate NewLanesAt(raw: seq<Lane>, taken: set<string>, pos: seq<nat>) {
    AllNew(raw, taken, pos) && Ascending(pos) && AllThere(raw, taken, pos)
  }

  function Shifted(rest: seq<nat>): (pos: seq<nat>)
    ensures |pos| == |rest| && forall j :: 0 <= j < |rest| ==> pos[j] == rest[j] + 1
  {
    seq(|rest|, j requires 0 <= j < |rest| => rest[j] + 1)
  }

  predicate LanesAt(raw: seq<Lane>, pos: seq<nat>, lanes: seq<Lane>) {
    |lanes| == |pos| && forall j :: 0 <= j < |pos| ==> pos[j] < |raw| && lanes[j] == raw[pos[j]]
  }

  lemma {:induction false} CustomAt(raw: seq<Lane>, seen: set<string>) returns (pos: seq<nat>)
    ensures NewLanesAt(raw, seen, pos) && LanesAt(raw, pos, CustomLanes(raw, seen))
  {
    if raw == [] {
      pos := [];
    } else {
      var first := raw[0].id != "" && raw[0].id !in seen;
      var rest := CustomAt(raw[1..], if first then seen + {raw[0].id} else seen);
      LaterNew(raw, seen, rest, first);
      LaterThere(raw, seen, rest, first);
      ShiftedAt(raw, rest, CustomLanes(raw[1..], if first then seen + {raw[0].id} else seen));
      pos := if first then [0] + Shifted(rest) else Shifted(rest);
      if first { FirstAt(raw, seen, Shifted(rest), CustomLanes(raw[1..], seen + {raw[0].id})); }
    }
  }

  lemma ShiftedAt(raw: seq<Lane>, rest: seq<nat>, lanes: seq<Lane>)
    requires raw != [] && Ascending(rest) && LanesAt(raw[1..], rest, lanes)
    ensures Ascending(Shifted(rest)) && LanesAt(raw, Shifted(rest), lanes)
    ensures forall j :: 0 <= j < |rest| ==> Shifted(rest)[j] > 0
  {
  }

  lemma FirstAt(raw: seq<Lane>, seen: set<string>, pos: seq<nat>, lanes: seq<Lane>)
    requires raw != [] && IsNewLane(raw, seen, 0)
    requires AllNew(raw, seen, pos) && Ascending(pos) && LanesAt(raw, pos, lanes)
    requires forall j :: 0 <= j < |pos| ==> pos[j] > 0
    requires forall k: nat | k < |raw| :: IsNewLane(raw, seen, k) ==> k == 0 || k in pos
    ensures NewLanesAt(raw, seen, [0] + pos) && LanesAt(raw, [0] + pos, [raw[0]] + lanes)
  {
    assert forall k :: k in [0] + pos <==> k == 0 || k in pos;
  }

  lemma LaterNew(raw: seq<Lane>, seen: set<string>, rest: seq<nat>, first: bool)
    requires raw != [] && first == (raw[0].id != "" && raw[0].id !in seen)
    requires AllNew(raw[1..], if first then seen + {raw[0].id} else seen, rest)
    ensures AllNew(raw, seen, Shifted(rest))
  {
    forall j | 0 <= j < |rest| ensures IsNewLane(raw, seen, rest[j] + 1) { ShiftedLane(raw, seen, first, rest[j]); }
  }

  lemma LaterThere(raw: seq<Lane>, seen: set<string>, rest: seq<nat>, first: bool)
    requires raw != [] && first == (raw[0].id != "" && raw[0].id !in seen)
    requires AllThere(raw[1..], if first then seen + {raw[0].id} else seen, rest)
    ensures forall k: nat | k < |raw| :: IsNewLane(raw, seen, k) ==> (k == 0 && first) || k in Shifted(rest)
  {
    forall k: nat | 0 < k < |raw| && IsNewLane(raw, seen, k) ensures k in Shifted(rest) {
      ShiftedLane(raw, seen, first, k - 1);
      var j :| 0 <= j < |rest| && rest[j] == k - 1;
      assert Shifted(rest)[j] == k;
    }
  }

  lemma ShiftedLane(raw: seq<Lane>, seen: set<string>, first: bool, k: nat)
    requires raw != [] && first == (raw[0].id != "" && raw[0].id !in seen) && k < |raw| - 1
    ensures IsNewLane(raw[1..], if first then seen + {raw[0].id} else seen, k) <==> IsNewLane(raw, seen, k + 1)
  {
    if IsNewLane(raw[1..], if first then seen + {raw[0].id} else seen, k) {
      forall i | 0 <= i < k + 1 ensures raw[i].id != raw[k + 1].id {
        if i > 0 { assert raw[1..][i - 1].id == raw[i].id; }
      }
    }
    assert forall i :: 0 <= i < k ==> raw[1..][i] == raw[i + 1];
  }

  /**
   The lanes of a normalised draft: the default ones, each keeping its own attributes
   over those of the first raw lane of its name; then, in order, the first raw lane of
   each other name.
   */
  lemma LanesAre(c: Config, d: Draft) returns (pos: seq<nat>)
    requires Normalize(c, d).Some?
    ensures var lanes, n := Normalize(c, d).value.lanes, |c.lanes|;
            && NewLanesAt(d.lanes, LaneIds(c.lanes), pos) && |lanes| >= n && LanesAt(d.lanes, pos, lanes[n..])
            && (forall i :: 0 <= i < n ==> DefaultLane(c.lanes[i], d.lanes, lanes[i]))
  {
    pos := CustomAt(d.lanes, LaneIds(c.lanes));
    forall i | 0 <= i < |c.lanes| ensures DefaultLane(c.lanes[i], d.lanes, MergeLane(d.lanes, c.lanes[i])) {
      MergedLane(c.lanes[i], d.lanes);
    }
  }

  /** `l` is the default lane `own` with what the first raw lane of that name adds to it. */
  ghost predicate DefaultLane(own: Lane, raw: seq<Lane>, l: Lane) {
    && l.id == own.id
    && (forall key :: key in own.attrs ==> key in l.attrs && l.attrs[key] == own.attrs[key])
    && (forall key :: key in l.attrs && key !in own.attrs ==>
          exists k :: IsFirstOf(raw, own.id, k) && key in raw[k].attrs && l.attrs[key] == raw[k].attrs[key])
    && (forall k, key :: IsFirstOf(raw, own.id, k) && key in raw[k].attrs ==> key in l.attrs)
  }

  predicate IsFirstOf(raw: seq<Lane>, id: string, k: int) {
    0 <= k < |raw| && raw[k].id == id && forall i :: 0 <= i < k ==> raw[i].id != id
  }

  lemma {:induction false} FindsFirst(raw: seq<Lane>, id: string)
    ensures FindLane(raw, id).None? ==> forall k :: !IsFirstOf(raw, id, k)
    ensures FindLane(raw, id).Some? ==> exists k :: IsFirstOf(raw, id, k) && raw[k] == FindLane(raw, id).value
  {
    if raw != [] {
      if raw[0].id == id {
        assert IsFirstOf(raw, id, 0);
      } else {
        FindsFirst(raw[1..], id);
        forall k ensures IsFirstOf(raw, id, k) <==> IsFirstOf(raw[1..], id, k - 1) {
          if IsFirstOf(raw[1..], id, k - 1) {
            forall i | 0 <= i < k ensures raw[i].id != id { if i > 0 { assert raw[1..][i - 1].id == raw[i].id; } }
          }
        }
        if k :| IsFirstOf(raw[1..], id, k) && raw[1..][k] == FindLane(raw[1..], id).value {
          assert IsFirstOf(raw, id, k + 1) && raw[k + 1] == raw[1..][k];
        }
      }
    }
  }

  lemma MergedLane(own: Lane, raw: seq<Lane>)
    ensures DefaultLane(own, raw, MergeLane(raw, own))
  {
    FindsFirst(raw, own.id);
    forall k, m | IsFirstOf(raw, own.id, k) && IsFirstOf(raw, own.id, m) ensures k == m {}
  }

  /** Normalising twice is normalising once. */
  lemma NormalizeTwice(c: Config, d: Draft)
    requires ValidConfig(c) && Normalize(c, d).Some?
    ensures Normalize(c, Normalize(c, d).value) == Normalize(c, d)
  {
    NormalForm(c, d);
    var d' := Normalize(c, d).value;
    NormalizeNear(c, d', Objects(d'.entries));
    SortOfInOrder(Objects(d'.entries));
  }

  lemma FirstKept(c: Config, limit: real, reserved: set<string>, e: Event)
    requires TrimmedId(e) != ""
    ensures NormEvents(c, limit, reserved, [e]) == Some([Normalized(c, limit, e, TrimmedId(e))])
  {
    var none: seq<Event> := [];
    assert none + [e] == [e] && !Holds(none, TrimmedId(e));
    assert NormEvents(c, limit, reserved, none) == Some(none);
    NormStep(c, limit, reserved, none, e);
    var kept := Normalized(c, limit, e, TrimmedId(e));
    assert none + [kept] == [kept];
  }

  lemma EventsCanDiverge(c: Config, limit: real, reserved: set<string>, e: Event, id: string)
    requires PrintsDecimal(c.text) && id == StuckId(c.prefixOf(LaneOf(c, e)), c.text)
    requires TrimmedId(e) == id && id != "" && Trim(id) == id
    ensures NormEvents(c, limit, reserved, [e] + [e]) == None
  {
    var first := Normalized(c, limit, e, id);
    FirstKept(c, limit, reserved, e);
    NormStep(c, limit, reserved, [e], e);
    assert Holds([first], id) by { assert [first][0].id == Some(id); }
    assert UsedIds([first]) == [id] by { assert [first][..0] == []; }
    SearchCanDiverge(c.prefixOf(LaneOf(c, e)), reserved, c.text);
  }

  /** Two events under the id that prints 2^53 make normalising loop for ever. */
  lemma NormalizeCanDiverge(c: Config, e: Event, d: Draft)
    requires ValidConfig(c) && PrintsDecimal(c.text)
    requires e.id == Some(StuckId(c.prefixOf(LaneOf(c, e)), c.text))
    requires d.entries == Wrap([e, e])
    ensures Normalize(c, d) == None
  {
    ObjectsWrap([e, e]);
    assert [e, e] == [e] + [e];
    CandidateSolid(c, LaneOf(c, e), Finite(TWO53));
    EventsCanDiverge(c, Duration(c, d), Reserved([e, e]), e, e.id.value);
  }
}
