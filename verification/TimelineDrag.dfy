/**
 Dragging a group of timeline events (`setSkillTestTimelineDragGroupAtFromTrack` in
 static/js/app/skill-test.js).  Every pointer move reads the stored draft, places the
 dragged events relative to where the drag began, and writes the draft back through
 normalisation.
 */
module TimelineDrag {
  import opened Options
  import opened Timeline
  import opened TimelineNormal

  datatype Grabbed = Grabbed(id: string, at: real)

  /** The dragged events as they were when the drag began, and the grabbed event's time. */
  datatype Drag = Drag(initial: seq<Grabbed>, anchor: real)

  /** The events picked up, in timeline order. */
  function Grab(events: seq<Event>, ids: set<string>): seq<Grabbed> {
    if events == [] then []
    else
      var init, e := Grab(events[..|events| - 1], ids), events[|events| - 1];
      if e.id.Some? && e.id.value in ids then init + [Grabbed(e.id.value, At(e))] else init
  }

  function MinAt(starts: seq<Grabbed>): real
    requires starts != []
  {
    if |starts| == 1 then starts[0].at
    else
      var m := MinAt(starts[..|starts| - 1]);
      if starts[|starts| - 1].at < m then starts[|starts| - 1].at else m
  }

  function MaxAt(starts: seq<Grabbed>): real
    requires starts != []
  {
    if |starts| == 1 then starts[0].at
    else
      var m := MaxAt(starts[..|starts| - 1]);
      if starts[|starts| - 1].at > m then starts[|starts| - 1].at else m
  }

  /** How far the group moves: as far as the pointer, but with every event inside the timeline. */
  function Delta(drag: Drag, limit: real, pointerAt: real): real
    requires drag.initial != []
  {
    var least, most := -MinAt(drag.initial), limit - MaxAt(drag.initial);
    var wanted := pointerAt - drag.anchor;
    var raised := if wanted < least then least else wanted;
    if raised > most then most else raised
  }

  function StartOf(starts: seq<Grabbed>, id: string): Option<real> {
    if starts == [] then None
    else if starts[|starts| - 1].id == id then Some(starts[|starts| - 1].at)
    else StartOf(starts[..|starts| - 1], id)
  }

  function Place(drag: Drag, limit: real, delta: real, e: Event): Event {
    var start := if e.id.Some? then StartOf(drag.initial, e.id.value) else None;
    if start.None? then e else e.(atMs := Some(Clamp(limit, start.value + delta)))
  }

  function PlaceAll(drag: Drag, limit: real, delta: real, events: seq<Event>): seq<Event> {
    seq(|events|, i requires 0 <= i < |events| => Place(drag, limit, delta, events[i]))
  }

  function Written(c: Config, draft: Draft, drag: Drag, pointerAt: real): Option<Draft>
    requires drag.initial != []
  {
    var limit := Duration(c, draft);
    var moved := PlaceAll(drag, limit, Delta(drag, limit, pointerAt), Objects(draft.entries));
    Normalize(c, draft.(entries := Wrap(moved)))
  }

  /** One pointer move on the stored draft. */
  function Move(c: Config, stored: Draft, drag: Drag, pointerAt: real): Option<Draft> {
    if drag.initial == [] then Some(stored)
    else
      var draft := Normalize(c, stored);
      if draft.None? then None else Written(c, draft.value, drag, pointerAt)
  }

  function MoveAll(c: Config, stored: Draft, drag: Drag, pointers: seq<real>): Option<Draft> {
    if pointers == [] then Some(stored)
    else
      var before := MoveAll(c, stored, drag, pointers[..|pointers| - 1]);
      if before.None? then None else Move(c, before.value, drag, pointers[|pointers| - 1])
  }

  /** The editor's stored draft; a normalisation that never ends leaves it as it was. */
  class Editor {
    const config: Config
    var stored: Draft

    constructor (config: Config, draft: Draft)
      ensures this.config == config && stored == draft
    {
      this.config := config;
      stored := draft;
    }

    method SetDragGroupAt(drag: Drag, pointerAt: real) returns (written: bool)
      modifies this`stored
      ensures written <==> Move(config, old(stored), drag, pointerAt).Some?
      ensures written ==> Some(stored) == Move(config, old(stored), drag, pointerAt)
      ensures !written ==> stored == old(stored)
    {
      if drag.initial == [] { return true; }
      var draft := Normalize(config, stored);
      written := draft.Some?;
      if written {
        var next := Written(config, draft.value, drag, pointerAt);
        written := next.Some?;
        if written { stored := next.value; }
      }
    }
  }

  // ------------------------------------------------------------------ lemmas

  /** A draft as `writeSkillTestTimelineDraft` leaves it. */
  ghost predicate Stored(c: Config, d: Draft) {
    NearNormal(c, d, Objects(d.entries)) && InOrder(Objects(d.entries))
  }

  lemma StoredIsFixed(c: Config, d: Draft)
    requires Stored(c, d)
    ensures Normalize(c, d) == Some(d) && Duration(c, d) == d.duration.value
  {
    NormalizeNear(c, d, Objects(d.entries));
    SortOfInOrder(Objects(d.entries));
  }

  lemma {:induction false} StartBounds(starts: seq<Grabbed>, id: string)
    requires starts != []
    ensures MinAt(starts) <= MaxAt(starts)
    ensures StartOf(starts, id).Some? ==> MinAt(starts) <= StartOf(starts, id).value <= MaxAt(starts)
  {
    if |starts| > 1 {
      StartBounds(starts[..|starts| - 1], id);
    } else {
      assert StartOf(starts[..0], id).None?;
    }
  }

  ghost predicate InSpan(starts: seq<Grabbed>, limit: real) {
    forall i :: 0 <= i < |starts| ==> 0.0 <= starts[i].at <= limit
  }

  lemma {:induction false} SpanBounds(starts: seq<Grabbed>, limit: real)
    requires starts != [] && InSpan(starts, limit)
    ensures 0.0 <= MinAt(starts) && MaxAt(starts) <= limit
  {
    if |starts| > 1 { SpanBounds(starts[..|starts| - 1], limit); }
  }

  /** Inside the timeline the final clamp does nothing: all dragged events move by the same amount. */
  lemma PlaceExact(drag: Drag, limit: real, pointerAt: real, id: string)
    requires drag.initial != [] && InSpan(drag.initial, limit) && StartOf(drag.initial, id).Some?
    ensures var delta := Delta(drag, limit, pointerAt);
            var at := StartOf(drag.initial, id).value + delta;
            0.0 <= at <= limit && Clamp(limit, at) == at
  {
    StartBounds(drag.initial, id);
    SpanBounds(drag.initial, limit);
  }

  lemma PlaceCanonical(c: Config, drag: Drag, limit: real, pointerAt: real, events: seq<Event>)
    requires Canonical(c, limit, events) && drag.initial != [] && InSpan(drag.initial, limit)
    ensures Canonical(c, limit, PlaceAll(drag, limit, Delta(drag, limit, pointerAt), events))
  {
    var moved := PlaceAll(drag, limit, Delta(drag, limit, pointerAt), events);
    forall i | 0 <= i < |moved| ensures Clean(c, limit, moved[i]) {
      assert Clean(c, limit, events[i]);
      if StartOf(drag.initial, events[i].id.value).Some? { PlaceExact(drag, limit, pointerAt, events[i].id.value); }
    }
    forall i, j | 0 <= i < j < |moved| ensures moved[i].id != moved[j].id {
      assert events[i].id != events[j].id;
    }
  }

  /** The events after a move: exactly the placed ones. */
  ghost predicate Placed(drag: Drag, limit: real, pointerAt: real, before: seq<Event>, after: seq<Event>)
    requires drag.initial != []
  {
    var delta := Delta(drag, limit, pointerAt);
    (forall e :: e in before ==> Place(drag, limit, delta, e) in after)
    && forall x :: x in after ==> exists e :: e in before && x == Place(drag, limit, delta, e)
  }

  lemma MoveStored(c: Config, d: Draft, drag: Drag, pointerAt: real)
    requires ValidConfig(c) && Stored(c, d) && drag.initial != [] && InSpan(drag.initial, d.duration.value)
    ensures Move(c, d, drag, pointerAt).Some?
    ensures var d' := Move(c, d, drag, pointerAt).value;
            && Stored(c, d') && d'.duration == d.duration && d'.lanes == d.lanes
            && Placed(drag, d.duration.value, pointerAt, Objects(d.entries), Objects(d'.entries))
  {
    var limit := d.duration.value;
    StoredIsFixed(c, d);
    var events := Objects(d.entries);
    var delta := Delta(drag, limit, pointerAt);
    var moved := PlaceAll(drag, limit, delta, events);
    PlaceCanonical(c, drag, limit, pointerAt, events);
    NormalizeNear(c, d.(entries := Wrap(moved)), moved);
    SortCanonical(c, limit, moved);
    SortMembers(moved);
    ObjectsWrap(Sort(moved));
    PlacedMembers(drag, limit, pointerAt, events, moved);
  }

  lemma PlacedMembers(drag: Drag, limit: real, pointerAt: real, events: seq<Event>, moved: seq<Event>)
    requires drag.initial != [] && moved == PlaceAll(drag, limit, Delta(drag, limit, pointerAt), events)
    ensures Placed(drag, limit, pointerAt, events, moved)
  {
    var delta := Delta(drag, limit, pointerAt);
    forall e | e in events ensures Place(drag, limit, delta, e) in moved {
      var i :| 0 <= i < |events| && events[i] == e;
      assert moved[i] == Place(drag, limit, delta, e);
    }
    forall x | x in moved ensures exists e :: e in events && x == Place(drag, limit, delta, e) {
      var i :| 0 <= i < |moved| && moved[i] == x;
      assert events[i] in events;
    }
  }

  /** A later placement forgets an earlier one. */
  lemma PlaceTwice(drag: Drag, limit: real, p: real, q: real, before: seq<Event>, mid: seq<Event>, after: seq<Event>)
    requires drag.initial != []
    requires Placed(drag, limit, p, before, mid) && Placed(drag, limit, q, mid, after)
    ensures Placed(drag, limit, q, before, after)
  {
    var d1, d2 := Delta(drag, limit, p), Delta(drag, limit, q);
    forall e ensures Place(drag, limit, d2, Place(drag, limit, d1, e)) == Place(drag, limit, d2, e) {}
    forall e | e in before ensures Place(drag, limit, d2, e) in after {
      assert Place(drag, limit, d1, e) in mid;
    }
    forall x | x in after ensures exists e :: e in before && x == Place(drag, limit, d2, e) {
      var m :| m in mid && x == Place(drag, limit, d2, m);
      var e :| e in before && m == Place(drag, limit, d1, e);
    }
  }

  /** `after` is what a drag with last pointer position `p` makes of the stored draft `d`. */
  ghost predicate Dragged(c: Config, drag: Drag, p: real, d: Draft, after: Draft)
    requires drag.initial != [] && d.duration.Some?
  {
    && Stored(c, after) && after.duration == d.duration && after.lanes == d.lanes
    && Placed(drag, d.duration.value, p, Objects(d.entries), Objects(after.entries))
  }

  lemma MoveOn(c: Config, d: Draft, drag: Drag, p: real, before: Draft, q: real)
    requires ValidConfig(c) && Stored(c, d) && drag.initial != [] && InSpan(drag.initial, d.duration.value)
    requires Dragged(c, drag, p, d, before)
    ensures Move(c, before, drag, q).Some? && Dragged(c, drag, q, d, Move(c, before, drag, q).value)
  {
    MoveStored(c, before, drag, q);
    PlaceTwice(drag, d.duration.value, p, q,
               Objects(d.entries), Objects(before.entries), Objects(Move(c, before, drag, q).value.entries));
  }

  /** Any run of pointer moves leaves what its last move alone would have left. */
  lemma {:induction false} DragRun(c: Config, d: Draft, drag: Drag, pointers: seq<real>)
    requires ValidConfig(c) && Stored(c, d) && drag.initial != [] && InSpan(drag.initial, d.duration.value)
    requires pointers != []
    ensures MoveAll(c, d, drag, pointers).Some?
    ensures Dragged(c, drag, pointers[|pointers| - 1], d, MoveAll(c, d, drag, pointers).value)
  {
    var n := |pointers| - 1;
    if n == 0 {
      assert pointers[..0] == [];
      MoveStored(c, d, drag, pointers[0]);
    } else {
      DragRun(c, d, drag, pointers[..n]);
      MoveOn(c, d, drag, pointers[n - 1], MoveAll(c, d, drag, pointers[..n]).value, pointers[n]);
    }
  }

  lemma {:induction false} GrabSpan(c: Config, limit: real, events: seq<Event>, ids: set<string>)
    requires Canonical(c, limit, events)
    ensures InSpan(Grab(events, ids), limit)
  {
    if events != [] {
      InitCanonical(c, limit, events);
      GrabSpan(c, limit, events[..|events| - 1], ids);
    }
  }

  lemma StartOfStep(starts: seq<Grabbed>, s: Grabbed, id: string)
    ensures StartOf(starts + [s], id) == if s.id == id then Some(s.at) else StartOf(starts, id)
  {
    assert (starts + [s])[..|starts|] == starts;
  }

  lemma GrabStep(events: seq<Event>, ids: set<string>)
    requires events != []
    ensures var e, init := events[|events| - 1], Grab(events[..|events| - 1], ids);
            Grab(events, ids) == if e.id.Some? && e.id.value in ids then init + [Grabbed(e.id.value, At(e))] else init
  {
  }

  lemma {:induction false} GrabAbsent(events: seq<Event>, ids: set<string>, id: string)
    requires !Holds(events, id)
    ensures StartOf(Grab(events, ids), id).None?
  {
    if events != [] {
      var n := |events| - 1;
      assert !Holds(events[..n], id) && events[n].id != Some(id);
      GrabAbsent(events[..n], ids, id);
      GrabStep(events, ids);
      if events[n].id.Some? {
        StartOfStep(Grab(events[..n], ids), Grabbed(events[n].id.value, At(events[n])), id);
      }
    }
  }

  lemma {:induction false} GrabPresent(c: Config, limit: real, events: seq<Event>, ids: set<string>, i: nat)
    requires Canonical(c, limit, events) && i < |events|
    ensures events[i].id.Some?
    ensures StartOf(Grab(events, ids), events[i].id.value)
            == if events[i].id.value in ids then Some(At(events[i])) else None
  {
    var n := |events| - 1;
    InitCanonical(c, limit, events);
    var last := Grabbed(events[n].id.value, At(events[n]));
    assert Clean(c, limit, events[i]);
    GrabStep(events, ids);
    StartOfStep(Grab(events[..n], ids), last, events[i].id.value);
    if i < n {
      GrabPresent(c, limit, events[..n], ids, i);
      assert events[i].id != events[n].id;
    } else {
      GrabAbsent(events[..n], ids, last.id);
    }
  }

  /** Where the drag leaves each event. */
  function TimeAfter(e: Event, ids: set<string>, delta: real): real {
    if e.id.Some? && e.id.value in ids then At(e) + delta else At(e)
  }

  /** Every move reads the stored draft through normalisation, so an unwritten one is dragged like its normal form. */
  lemma {:induction false} MovesRead(c: Config, d: Draft, drag: Drag, pointers: seq<real>)
    requires ValidConfig(c) && Normalize(c, d).Some? && pointers != [] && drag.initial != []
    ensures MoveAll(c, d, drag, pointers) == MoveAll(c, Normalize(c, d).value, drag, pointers)
  {
    var n := |pointers| - 1;
    NormalizeTwice(c, d);
    if n == 0 {
      assert pointers[..0] == [];
    } else {
      MovesRead(c, d, drag, pointers[..n]);
    }
  }

  /** Moved by `shift`, every dragged event stays within the timeline. */
  ghost predicate KeepsInside(events: seq<Event>, ids: set<string>, limit: real, shift: real) {
    forall e :: e in events && e.id.Some? && e.id.value in ids ==> 0.0 <= At(e) + shift <= limit
  }

  function Distance(x: real, y: real): real { if x < y then y - x else x - y }

  /** Of all shifts that keep the dragged events inside, the one closest to what the drag asks for. */
  ghost predicate ClosestShift(events: seq<Event>, ids: set<string>, limit: real, wanted: real, shift: real) {
    && KeepsInside(events, ids, limit, shift)
    && forall x :: KeepsInside(events, ids, limit, x) ==> Distance(shift, wanted) <= Distance(x, wanted)
  }

  /** `after` holds every event of `before`, the dragged ones moved by `shift`, and nothing else. */
  ghost predicate MovedBy(before: seq<Event>, ids: set<string>, shift: real, after: seq<Event>) {
    && (forall e :: e in before ==> e.(atMs := Some(TimeAfter(e, ids, shift))) in after)
    && (forall x :: x in after ==> exists e :: e in before && x == e.(atMs := Some(TimeAfter(e, ids, shift))))
  }

  /**
   A whole drag of the events `ids` over any stored draft whose normalisation ends.
   Every dragged event has moved by one common amount, so all gaps among them are
   kept: by as much as the last pointer position is away from where the drag began,
   or, where that would take some event out of [0, duration], by the closest amount
   that does not.  Nothing else has moved.
   */
  lemma DragOutcome(c: Config, stored: Draft, ids: set<string>, anchor: real, pointers: seq<real>) returns (shift: real)
    requires ValidConfig(c) && Normalize(c, stored).Some? && pointers != []
    requires Grab(Objects(Normalize(c, stored).value.entries), ids) != []
    ensures var d := Normalize(c, stored).value;
            var drag := Drag(Grab(Objects(d.entries), ids), anchor);
            var after := MoveAll(c, stored, drag, pointers);
            && after.Some? && DistinctIds(Objects(after.value.entries))
            && after.value.duration == d.duration && after.value.lanes == d.lanes
            && ClosestShift(Objects(d.entries), ids, d.duration.value, pointers[|pointers| - 1] - anchor, shift)
            && MovedBy(Objects(d.entries), ids, shift, Objects(after.value.entries))
  {
    NormalForm(c, stored);
    var d := Normalize(c, stored).value;
    var events, limit, drag := Objects(d.entries), d.duration.value, Drag(Grab(Objects(d.entries), ids), anchor);
    var p := pointers[|pointers| - 1];
    MovesRead(c, stored, drag, pointers);
    GrabSpan(c, limit, events, ids);
    DragRun(c, d, drag, pointers);
    shift := Delta(drag, limit, p);
    PlacedIsMoved(c, limit, events, ids, anchor, p, Objects(MoveAll(c, d, drag, pointers).value.entries));
    DeltaIsClosest(c, limit, events, ids, anchor, p);
  }

  lemma PlacedIsMoved(c: Config, limit: real, events: seq<Event>, ids: set<string>, anchor: real, p: real,
                      after: seq<Event>)
    requires Canonical(c, limit, events) && Grab(events, ids) != []
    requires Placed(Drag(Grab(events, ids), anchor), limit, p, events, after)
    ensures MovedBy(events, ids, Delta(Drag(Grab(events, ids), anchor), limit, p), after)
  {
    var drag := Drag(Grab(events, ids), anchor);
    var shift := Delta(drag, limit, p);
    forall e | e in events ensures Place(drag, limit, shift, e) == e.(atMs := Some(TimeAfter(e, ids, shift))) {
      PlaceGrabbed(c, limit, events, ids, anchor, p, e);
    }
    forall x | x in after ensures exists e :: e in events && x == e.(atMs := Some(TimeAfter(e, ids, shift))) {
      var e :| e in events && x == Place(drag, limit, shift, e);
    }
  }

  predicate StartsInside(starts: seq<Grabbed>, limit: real, x: real) {
    forall i :: 0 <= i < |starts| ==> 0.0 <= starts[i].at + x <= limit
  }

  lemma {:induction false} InsideExtremes(starts: seq<Grabbed>, limit: real, x: real)
    requires starts != []
    ensures StartsInside(starts, limit, x) <==> -MinAt(starts) <= x <= limit - MaxAt(starts)
  {
    var n := |starts| - 1;
    if n > 0 {
      InsideExtremes(starts[..n], limit, x);
      StartsSnoc(starts[..n], starts[n], limit, x);
      assert starts == starts[..n] + [starts[n]];
    }
  }

  lemma StartsSnoc(starts: seq<Grabbed>, s: Grabbed, limit: real, x: real)
    ensures StartsInside(starts + [s], limit, x) <==> StartsInside(starts, limit, x) && 0.0 <= s.at + x <= limit
  {
    var all := starts + [s];
    assert all[|starts|] == s && forall i :: 0 <= i < |starts| ==> all[i] == starts[i];
  }

  lemma {:induction false} GrabInside(events: seq<Event>, ids: set<string>, limit: real, x: real)
    ensures KeepsInside(events, ids, limit, x) <==> StartsInside(Grab(events, ids), limit, x)
  {
    if events != [] {
      var init, e := events[..|events| - 1], events[|events| - 1];
      assert events == init + [e];
      GrabInside(init, ids, limit, x);
      GrabStep(events, ids);
      InsideSnoc(init, e, ids, limit, x);
      if e.id.Some? { StartsSnoc(Grab(init, ids), Grabbed(e.id.value, At(e)), limit, x); }
    }
  }

  lemma InsideSnoc(events: seq<Event>, e: Event, ids: set<string>, limit: real, x: real)
    ensures KeepsInside(events + [e], ids, limit, x)
            <==> KeepsInside(events, ids, limit, x)
                 && (e.id.Some? && e.id.value in ids ==> 0.0 <= At(e) + x <= limit)
  {
    assert e in events + [e];
  }

  lemma InsideIff(events: seq<Event>, ids: set<string>, limit: real, x: real)
    requires Grab(events, ids) != []
    ensures KeepsInside(events, ids, limit, x)
            <==> -MinAt(Grab(events, ids)) <= x <= limit - MaxAt(Grab(events, ids))
  {
    GrabInside(events, ids, limit, x);
    InsideExtremes(Grab(events, ids), limit, x);
  }

  lemma DeltaIsClosest(c: Config, limit: real, events: seq<Event>, ids: set<string>, anchor: real, p: real)
    requires Canonical(c, limit, events) && Grab(events, ids) != []
    ensures ClosestShift(events, ids, limit, p - anchor, Delta(Drag(Grab(events, ids), anchor), limit, p))
  {
    var starts := Grab(events, ids);
    var shift := Delta(Drag(starts, anchor), limit, p);
    GrabSpan(c, limit, events, ids);
    SpanBounds(starts, limit);
    DeltaClamps(starts, limit, anchor, p, shift);
    InsideIff(events, ids, limit, shift);
    forall x | KeepsInside(events, ids, limit, x) ensures Distance(shift, p - anchor) <= Distance(x, p - anchor) {
      InsideIff(events, ids, limit, x);
      DeltaClamps(starts, limit, anchor, p, x);
    }
  }

  lemma DeltaClamps(starts: seq<Grabbed>, limit: real, anchor: real, p: real, x: real)
    requires starts != [] && 0.0 <= MinAt(starts) && MaxAt(starts) <= limit
    ensures var least, most, shift := -MinAt(starts), limit - MaxAt(starts), Delta(Drag(starts, anchor), limit, p);
            && least <= shift <= most
            && (least <= x <= most ==> Distance(shift, p - anchor) <= Distance(x, p - anchor))
  {
  }

  lemma PlaceGrabbed(c: Config, limit: real, events: seq<Event>, ids: set<string>, anchor: real, pointerAt: real,
                     e: Event)
    requires Canonical(c, limit, events) && Grab(events, ids) != [] && e in events
    ensures var drag := Drag(Grab(events, ids), anchor);
            var delta := Delta(drag, limit, pointerAt);
            && Place(drag, limit, delta, e) == e.(atMs := Some(TimeAfter(e, ids, delta)))
            && 0.0 <= TimeAfter(e, ids, delta) <= limit
  {
    var i :| 0 <= i < |events| && events[i] == e;
    assert Clean(c, limit, events[i]);
    GrabSpan(c, limit, events, ids);
    GrabPresent(c, limit, events, ids, i);
    PlaceStarted(Drag(Grab(events, ids), anchor), limit, pointerAt, e, ids);
  }

  lemma PlaceStarted(drag: Drag, limit: real, pointerAt: real, e: Event, ids: set<string>)
    requires drag.initial != [] && InSpan(drag.initial, limit)
    requires e.id.Some? && e.atMs.Some? && 0.0 <= At(e) <= limit
    requires StartOf(drag.initial, e.id.value) == if e.id.value in ids then Some(At(e)) else None
    ensures var delta := Delta(drag, limit, pointerAt);
            && Place(drag, limit, delta, e) == e.(atMs := Some(TimeAfter(e, ids, delta)))
            && 0.0 <= TimeAfter(e, ids, delta) <= limit
  {
    if e.id.value in ids { PlaceExact(drag, limit, pointerAt, e.id.value); }
  }
}
