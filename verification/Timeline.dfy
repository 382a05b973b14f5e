/**
 Normalising a timeline draft (`normalizeSkillTestTimelineDraft` and
 `normalizeSkillTestTimelineLanes` in static/js/app/skill-test.js).

 The fixed names of the editor (lane ids, id prefixes, default lanes) are fields
 of a `Config`; everything below holds for every sound choice of them, and
 `EditorConfig` is the one the editor uses.  `None` is the id search that never ends.
 */
module Timeline {
  import opened Options
  import opened TimelineIds

  datatype Lane = Lane(id: string, attrs: map<string, string>)

  datatype Event = Event(
    id: Option<string>,       // a string id, if the field is one
    laneId: string,           // "" when missing
    hasExpectation: bool,     // the event has an `expectation` field of its own
    atMs: Option<real>,
    rest: string)             // every other field

  /** An entry of the raw events array; anything but a plain object is dropped. */
  datatype Entry = Junk | Object(event: Event)

  datatype Draft = Draft(duration: Option<real>, lanes: seq<Lane>, entries: seq<Entry>)

  datatype Config = Config(
    expectationLane: string,
    inputLane: string,
    prefixOf: string -> string,
    lanes: seq<Lane>,
    formDuration: Option<real>,
    defaultDuration: real,
    text: Printer)

  // ------------------------------------------------------------------ trim

  predicate IsSpace(c: char) {
    var n := c as int;
    9 <= n <= 13 || n == 32 || n == 160 || n == 0x1680 || 0x2000 <= n <= 0x200a || n == 0x2028 || n == 0x2029
    || n == 0x202f || n == 0x205f || n == 0x3000 || n == 0xfeff
  }

  function Trim(s: string): (t: string)
    ensures t == "" || (!IsSpace(t[0]) && !IsSpace(t[|t| - 1]))
    decreases |s|
  {
    if s == "" then ""
    else if IsSpace(s[0]) then Trim(s[1..])
    else if IsSpace(s[|s| - 1]) then Trim(s[..|s| - 1])
    else s
  }

  ghost predicate ValidConfig(c: Config) {
    && c.expectationLane != "" && c.inputLane != "" && c.inputLane != c.expectationLane
    && (forall l :: c.prefixOf(l) != "" ==> !IsSpace(c.prefixOf(l)[0]))
    && (forall x :: c.text(x) != "" && !IsSpace(c.text(x)[|c.text(x)| - 1]))
    && (forall i, j :: 0 <= i < j < |c.lanes| ==> c.lanes[i].id != c.lanes[j].id)
    && (forall i :: 0 <= i < |c.lanes| ==> c.lanes[i].id != "")
  }

  // ----------------------------------------------------------------- events

  predicate IsExpectation(c: Config, e: Event) { e.laneId == c.expectationLane || e.hasExpectation }

  function LaneOf(c: Config, e: Event): string {
    if IsExpectation(c, e) then c.expectationLane else if e.laneId != "" then e.laneId else c.inputLane
  }

  function TrimmedId(e: Event): string { if e.id.Some? then Trim(e.id.value) else "" }

  function At(e: Event): real { if e.atMs.Some? then e.atMs.value else 0.0 }

  function Clamp(limit: real, x: real): real {
    var low := if x < 0.0 then 0.0 else x;
    if low > limit then limit else low
  }

  function Objects(entries: seq<Entry>): seq<Event> {
    if entries == [] then []
    else
      Objects(entries[..|entries| - 1])
      + if entries[|entries| - 1].Object? then [entries[|entries| - 1].event] else []
  }

  function Wrap(events: seq<Event>): seq<Entry> {
    seq(|events|, i requires 0 <= i < |events| => Object(events[i]))
  }

  /** The non-blank ids, in order. */
  function UsedIds(events: seq<Event>): seq<string> {
    if events == [] then []
    else
      var id := TrimmedId(events[|events| - 1]);
      UsedIds(events[..|events| - 1]) + if id != "" then [id] else []
  }

  predicate Holds(events: seq<Event>, id: string) { exists i :: 0 <= i < |events| && events[i].id == Some(id) }

  function IdFor(c: Config, reserved: set<string>, done: seq<Event>, e: Event): Option<string> {
    var id := TrimmedId(e);
    if id != "" && !Holds(done, id) then Some(id)
    else NextId(UsedIds(done), c.prefixOf(LaneOf(c, e)), reserved, c.text)
  }

  function Normalized(c: Config, limit: real, e: Event, id: string): Event {
    Event(Some(id), LaneOf(c, e), IsExpectation(c, e), Some(Clamp(limit, At(e))), e.rest)
  }

  function NormEvents(c: Config, limit: real, reserved: set<string>, events: seq<Event>): Option<seq<Event>> {
    if events == [] then Some([])
    else
      var e := events[|events| - 1];
      var done := NormEvents(c, limit, reserved, events[..|events| - 1]);
      if done.None? then None
      else
        var id := IdFor(c, reserved, done.value, e);
        if id.None? then None else Some(done.value + [Normalized(c, limit, e, id.value)])
  }

  method PickId(c: Config, reserved: set<string>, normalized: seq<Event>, e: Event) returns (id: Option<string>)
    ensures id == IdFor(c, reserved, normalized, e)
  {
    id := Some(TrimmedId(e));
    if id.value == "" || Holds(normalized, id.value) {
      id := NextEventId(UsedIds(normalized), c.prefixOf(LaneOf(c, e)), reserved, c.text);
    }
  }

  lemma NormStep(c: Config, limit: real, reserved: set<string>, events: seq<Event>, e: Event)
    ensures NormEvents(c, limit, reserved, events + [e])
            == var done := NormEvents(c, limit, reserved, events);
               if done.None? then None
               else
                 var id := IdFor(c, reserved, done.value, e);
                 if id.None? then None else Some(done.value + [Normalized(c, limit, e, id.value)])
  {
    assert (events + [e])[..|events|] == events;
  }

  method NormalizeEvents(c: Config, limit: real, reserved: set<string>, events: seq<Event>)
    returns (done: Option<seq<Event>>)
    ensures done == NormEvents(c, limit, reserved, events)
  {
    done := Some([]);
    for i := 0 to |events|
      invariant done == NormEvents(c, limit, reserved, events[..i])
    {
      assert events[..i + 1] == events[..i] + [events[i]];
      NormStep(c, limit, reserved, events[..i], events[i]);
      if done.Some? {
        var id := PickId(c, reserved, done.value, events[i]);
        done := if id.Some? then Some(done.value + [Normalized(c, limit, events[i], id.value)]) else None;
      }
    }
    assert events[..|events|] == events;
  }

  // ------------------------------------------------------------------- sort

  predicate InOrder(events: seq<Event>) {
    forall i, j :: 0 <= i < j < |events| ==> At(events[i]) <= At(events[j])
  }

  /** Put `e` after everything that is not later. */
  function Insert(sorted: seq<Event>, e: Event): seq<Event> {
    if sorted == [] || At(sorted[|sorted| - 1]) <= At(e) then sorted + [e]
    else Insert(sorted[..|sorted| - 1], e) + [sorted[|sorted| - 1]]
  }

  /** The stable sort by time. */
  function Sort(events: seq<Event>): seq<Event> {
    if events == [] then [] else Insert(Sort(events[..|events| - 1]), events[|events| - 1])
  }

  // ------------------------------------------------------------------ lanes

  function FindLane(lanes: seq<Lane>, id: string): Option<Lane> {
    if lanes == [] then None
    else if lanes[0].id == id then Some(lanes[0])
    else FindLane(lanes[1..], id)
  }

  /** A default lane over the first raw lane of its id. */
  function MergeLane(raw: seq<Lane>, d: Lane): Lane {
    var found := FindLane(raw, d.id);
    if found.Some? then Lane(d.id, found.value.attrs + d.attrs) else d
  }

  /** The raw lanes with a new id each time, in order. */
  function CustomLanes(raw: seq<Lane>, seen: set<string>): seq<Lane> {
    if raw == [] then []
    else if raw[0].id == "" || raw[0].id in seen then CustomLanes(raw[1..], seen)
    else [raw[0]] + CustomLanes(raw[1..], seen + {raw[0].id})
  }

  function LaneIds(lanes: seq<Lane>): set<string> { set l | l in lanes :: l.id }

  function MergedDefaults(c: Config, raw: seq<Lane>): seq<Lane> {
    seq(|c.lanes|, i requires 0 <= i < |c.lanes| => MergeLane(raw, c.lanes[i]))
  }

  function NormLanes(c: Config, raw: seq<Lane>): seq<Lane> {
    MergedDefaults(c, raw) + CustomLanes(raw, LaneIds(c.lanes))
  }

  // ------------------------------------------------------------------ draft

  predicate Given(x: Option<real>) { x.Some? && x.value != 0.0 }

  function Duration(c: Config, d: Draft): (limit: real)
    ensures limit >= 1.0
  {
    var x := if Given(d.duration) then d.duration.value
             else if Given(c.formDuration) then c.formDuration.value else c.defaultDuration;
    if x < 1.0 then 1.0 else x
  }

  function Reserved(events: seq<Event>): set<string> { set id | id in UsedIds(events) }

  function Normalize(c: Config, d: Draft): Option<Draft> {
    var limit := Duration(c, d);
    var events := Objects(d.entries);
    var done := NormEvents(c, limit, Reserved(events), events);
    if done.None? then None
    else Some(Draft(Some(limit), NormLanes(c, d.lanes), Wrap(Sort(done.value))))
  }

  // ------------------------------------------------------------- sort lemmas

  lemma {:induction false} InsertMembers(sorted: seq<Event>, e: Event)
    ensures |Insert(sorted, e)| == |sorted| + 1
    ensures multiset(Insert(sorted, e)) == multiset(sorted) + multiset{e}
    ensures forall x :: x in Insert(sorted, e) <==> x in sorted || x == e
  {
    if sorted != [] && At(sorted[|sorted| - 1]) > At(e) {
      var init, last := sorted[..|sorted| - 1], sorted[|sorted| - 1];
      assert sorted == init + [last];
      InsertMembers(init, e);
    }
  }

  lemma {:induction false} InsertInOrder(sorted: seq<Event>, e: Event)
    requires InOrder(sorted)
    ensures InOrder(Insert(sorted, e))
  {
    if sorted != [] {
      var n := |sorted| - 1;
      var init := sorted[..n];
      if At(sorted[n]) > At(e) {
        InsertInOrder(init, e);
        InsertMembers(init, e);
        var before := Insert(init, e);
        forall i | 0 <= i < |before| ensures At(before[i]) <= At(sorted[n]) {
          assert before[i] in before;
          if before[i] in init { var j :| 0 <= j < n && init[j] == before[i]; }
        }
      }
    }
  }

  lemma {:induction false} SortMembers(events: seq<Event>)
    ensures |Sort(events)| == |events| && InOrder(Sort(events))
    ensures multiset(Sort(events)) == multiset(events)
    ensures forall x :: x in Sort(events) <==> x in events
  {
    if events != [] {
      var init, e := events[..|events| - 1], events[|events| - 1];
      assert events == init + [e];
      SortMembers(init);
      InsertMembers(Sort(init), e);
      InsertInOrder(Sort(init), e);
    }
  }

  lemma {:induction false} SortOfInOrder(events: seq<Event>)
    requires InOrder(events)
    ensures Sort(events) == events
  {
    if events != [] {
      var n := |events| - 1;
      SortOfInOrder(events[..n]);
      assert events == events[..n] + [events[n]];
    }
  }

  /** The events at one time, in order. */
  function Simultaneous(events: seq<Event>, at: real): seq<Event> {
    if events == [] then []
    else
      var init, e := events[..|events| - 1], events[|events| - 1];
      if At(e) == at then Simultaneous(init, at) + [e] else Simultaneous(init, at)
  }

  lemma {:induction false} InsertStable(sorted: seq<Event>, e: Event, at: real)
    requires InOrder(sorted)
    ensures Simultaneous(Insert(sorted, e), at)
            == if At(e) == at then Simultaneous(sorted, at) + [e] else Simultaneous(sorted, at)
  {
    if sorted == [] || At(sorted[|sorted| - 1]) <= At(e) {
      assert (sorted + [e])[..|sorted|] == sorted;
    } else {
      var n := |sorted| - 1;
      InsertStable(sorted[..n], e, at);
      var before := Insert(sorted[..n], e);
      assert (before + [sorted[n]])[..|before|] == before;
    }
  }

  /** Sorting keeps simultaneous events in their order. */
  lemma {:induction false} SortStable(events: seq<Event>, at: real)
    ensures Simultaneous(Sort(events), at) == Simultaneous(events, at)
  {
    if events != [] {
      var init := events[..|events| - 1];
      SortStable(init, at);
      SortMembers(init);
      InsertStable(Sort(init), events[|events| - 1], at);
    }
  }
}
