/**
 Attributing runtime outputs to expectation events in a test review
 (`skillTestReviewRuntimeOutputsForExpectation` and
 `skillTestReviewLaneRuntimeOutputCount` in static/js/app/skill-test.js).
 */
module OutputBinding {
  import opened Options
  import opened Timeline
  import opened TimelineNormal

  datatype Output = Output(id: string, at: real)

  /** Stage outputs reported by the server, by expectation id. */
  type Stages = map<string, seq<Output>>

  function ExpectationsOf(c: Config, events: seq<Event>): seq<Event> {
    if events == [] then []
    else
      var e := events[|events| - 1];
      ExpectationsOf(c, events[..|events| - 1]) + if IsExpectation(c, e) then [e] else []
  }

  function LaneEvents(events: seq<Event>, lane: string): seq<Event> {
    if events == [] then []
    else
      var e := events[|events| - 1];
      LaneEvents(events[..|events| - 1], lane) + if e.laneId == lane then [e] else []
  }

  /** `findIndex` of the first expectation at or after a time; -1 when there is none. */
  function BindingIndex(expectations: seq<Event>, at: real): (i: int)
    ensures -1 <= i < |expectations|
    ensures i >= 0 ==> at <= At(expectations[i]) && forall j :: 0 <= j < i ==> At(expectations[j]) < at
    ensures i < 0 ==> forall j :: 0 <= j < |expectations| ==> At(expectations[j]) < at
  {
    if expectations == [] then -1
    else
      var i := BindingIndex(expectations[..|expectations| - 1], at);
      if i >= 0 then i
      else if at <= At(expectations[|expectations| - 1]) then |expectations| - 1 else -1
  }

  function IndexById(expectations: seq<Event>, id: Option<string>): (i: int)
    ensures -1 <= i < |expectations|
    ensures i >= 0 ==> expectations[i].id == id && forall j :: 0 <= j < i ==> expectations[j].id != id
    ensures i < 0 ==> forall j :: 0 <= j < |expectations| ==> expectations[j].id != id
  {
    if expectations == [] then -1
    else
      var i := IndexById(expectations[..|expectations| - 1], id);
      if i >= 0 then i
      else if expectations[|expectations| - 1].id == id then |expectations| - 1 else -1
  }

  /** The outputs whose binding index lies in `low..high`. */
  function Bound(expectations: seq<Event>, outputs: seq<Output>, low: int, high: int): seq<Output> {
    if outputs == [] then []
    else
      var o := outputs[|outputs| - 1];
      Bound(expectations, outputs[..|outputs| - 1], low, high)
      + if low <= BindingIndex(expectations, o.at) < high then [o] else []
  }

  function OutputsAmong(expectations: seq<Event>, outputs: seq<Output>, e: Event): seq<Output> {
    var target := IndexById(expectations, e.id);
    if target < 0 then [] else Bound(expectations, outputs, target, target + 1)
  }

  function OutputsFor(c: Config, events: seq<Event>, outputs: seq<Output>, stages: Stages, e: Event): seq<Output> {
    if !IsExpectation(c, e) then []
    else if e.id.Some? && e.id.value in stages && stages[e.id.value] != [] then stages[e.id.value]
    else OutputsAmong(Sort(ExpectationsOf(c, events)), outputs, e)
  }

  function TotalFor(c: Config, events: seq<Event>, outputs: seq<Output>, stages: Stages, shown: seq<Event>): nat {
    if shown == [] then 0
    else
      TotalFor(c, events, outputs, stages, shown[..|shown| - 1])
      + |OutputsFor(c, events, outputs, stages, shown[|shown| - 1])|
  }

  function LaneCount(c: Config, events: seq<Event>, outputs: seq<Output>, stages: Stages, lane: string): nat {
    if lane != c.expectationLane then 0
    else TotalFor(c, events, outputs, stages, LaneEvents(events, lane))
  }

  // ------------------------------------------------------------------ lemmas

  lemma {:induction false} LaneIsExpectations(c: Config, limit: real, events: seq<Event>)
    requires forall i :: 0 <= i < |events| ==> Clean(c, limit, events[i])
    ensures LaneEvents(events, c.expectationLane) == ExpectationsOf(c, events)
  {
    if events != [] {
      var n := |events| - 1;
      forall i | 0 <= i < n ensures Clean(c, limit, events[..n][i]) { assert Clean(c, limit, events[i]); }
      LaneIsExpectations(c, limit, events[..n]);
      assert Clean(c, limit, events[n]);
    }
  }

  lemma {:induction false} ExpectationMembers(c: Config, events: seq<Event>)
    ensures forall e :: e in ExpectationsOf(c, events) <==> e in events && IsExpectation(c, e)
  {
    if events != [] {
      var n := |events| - 1;
      ExpectationMembers(c, events[..n]);
      assert events == events[..n] + [events[n]];
    }
  }

  /** Filtering keeps order and distinct ids. */
  lemma {:induction false} ExpectationsOrdered(c: Config, events: seq<Event>)
    requires InOrder(events) && DistinctIds(events)
    ensures InOrder(ExpectationsOf(c, events)) && DistinctIds(ExpectationsOf(c, events))
  {
    if events != [] {
      var n := |events| - 1;
      var init := events[..n];
      ExpectationsOrdered(c, init);
      ExpectationMembers(c, init);
      var kept := ExpectationsOf(c, init);
      forall i | 0 <= i < |kept| ensures At(kept[i]) <= At(events[n]) && kept[i].id != events[n].id {
        assert kept[i] in kept;
        var j :| 0 <= j < n && init[j] == kept[i];
      }
    }
  }

  lemma {:induction false} BoundSplit(expectations: seq<Event>, outputs: seq<Output>, mid: int)
    requires mid >= 0
    ensures |Bound(expectations, outputs, 0, mid + 1)|
            == |Bound(expectations, outputs, 0, mid)| + |Bound(expectations, outputs, mid, mid + 1)|
  {
    if outputs != [] { BoundSplit(expectations, outputs[..|outputs| - 1], mid); }
  }

  lemma {:induction false} BoundEmpty(expectations: seq<Event>, outputs: seq<Output>)
    ensures Bound(expectations, outputs, 0, 0) == []
  {
    if outputs != [] { BoundEmpty(expectations, outputs[..|outputs| - 1]); }
  }

  /** A review timeline: the events of some normalised draft. */
  ghost predicate ReviewEvents(c: Config, limit: real, events: seq<Event>) {
    Canonical(c, limit, events) && InOrder(events)
  }

  lemma ReviewExpectations(c: Config, limit: real, events: seq<Event>)
    requires ReviewEvents(c, limit, events)
    ensures Sort(ExpectationsOf(c, events)) == ExpectationsOf(c, events) == LaneEvents(events, c.expectationLane)
    ensures DistinctIds(ExpectationsOf(c, events)) && InOrder(ExpectationsOf(c, events))
    ensures forall i :: 0 <= i < |ExpectationsOf(c, events)| ==> IsExpectation(c, ExpectationsOf(c, events)[i])
  {
    ExpectationsOrdered(c, events);
    SortOfInOrder(ExpectationsOf(c, events));
    LaneIsExpectations(c, limit, events);
    ExpectationMembers(c, events);
    var es := ExpectationsOf(c, events);
    forall i | 0 <= i < |es| ensures IsExpectation(c, es[i]) {
      assert es[i] in es;
    }
  }

  /** The expectation at `i` is the first one at or after the time. */
  predicate IsEarliest(es: seq<Event>, i: nat, at: real)
    requires i < |es|
  {
    at <= At(es[i]) && forall j :: 0 <= j < i ==> At(es[j]) < at
  }

  /** The outputs for which the expectation at `i` is the earliest at or after them, in order. */
  function EarliestFor(es: seq<Event>, outputs: seq<Output>, i: nat): seq<Output>
    requires i < |es|
  {
    if outputs == [] then []
    else
      var init, o := EarliestFor(es, outputs[..|outputs| - 1], i), outputs[|outputs| - 1];
      if IsEarliest(es, i, o.at) then init + [o] else init
  }

  /** The server reports outputs of its own for the event. */
  predicate Staged(stages: Stages, e: Event) { e.id.Some? && e.id.value in stages && |stages[e.id.value]| > 0 }

  /**
   An expectation shows the outputs its own stage reports, or else those at or before
   it and after every earlier one; an output later than all of them is shown nowhere.
   */
  lemma OutputsPartition(c: Config, limit: real, events: seq<Event>, outputs: seq<Output>, stages: Stages, i: nat)
    requires ReviewEvents(c, limit, events) && i < |ExpectationsOf(c, events)|
    ensures var es := ExpectationsOf(c, events);
            OutputsFor(c, events, outputs, stages, es[i])
            == if Staged(stages, es[i]) then stages[es[i].id.value] else EarliestFor(es, outputs, i)
  {
    var es := ExpectationsOf(c, events);
    ReviewExpectations(c, limit, events);
    AmongDistinct(es, outputs, i);
    BoundIsEarliest(es, outputs, i);
    assert OutputsFor(c, events, outputs, stages, es[i])
           == if Staged(stages, es[i]) then stages[es[i].id.value] else OutputsAmong(Sort(es), outputs, es[i]);
  }

  lemma {:induction false} BoundIsEarliest(es: seq<Event>, outputs: seq<Output>, i: nat)
    requires i < |es|
    ensures Bound(es, outputs, i, i + 1) == EarliestFor(es, outputs, i)
  {
    if outputs != [] {
      BoundIsEarliest(es, outputs[..|outputs| - 1], i);
      EarliestIndex(es, i, outputs[|outputs| - 1].at);
    }
  }

  lemma EarliestIndex(es: seq<Event>, i: nat, at: real)
    requires i < |es|
    ensures BindingIndex(es, at) == i <==> IsEarliest(es, i, at)
  {
    var b := BindingIndex(es, at);
  }

  /** What is not an expectation of the timeline shows no output, unless its own stage reports some. */
  lemma OthersShowNone(c: Config, limit: real, events: seq<Event>, outputs: seq<Output>, stages: Stages, e: Event)
    requires ReviewEvents(c, limit, events)
    ensures !IsExpectation(c, e) ==> OutputsFor(c, events, outputs, stages, e) == []
    ensures IsExpectation(c, e) && !Staged(stages, e)
            && (forall i :: 0 <= i < |ExpectationsOf(c, events)| ==> ExpectationsOf(c, events)[i].id != e.id) ==>
              OutputsFor(c, events, outputs, stages, e) == []
  {
    ReviewExpectations(c, limit, events);
  }

  lemma AmongDistinct(es: seq<Event>, outputs: seq<Output>, i: nat)
    requires DistinctIds(es) && i < |es|
    ensures OutputsAmong(es, outputs, es[i]) == Bound(es, outputs, i, i + 1)
  {
    var t := IndexById(es, es[i].id);
    assert t >= 0 && es[t].id == es[i].id;
    assert t == i;
  }

  lemma ReviewOutputs(c: Config, limit: real, events: seq<Event>, outputs: seq<Output>, i: nat)
    requires ReviewEvents(c, limit, events) && i < |ExpectationsOf(c, events)|
    ensures OutputsFor(c, events, outputs, map[], ExpectationsOf(c, events)[i])
            == Bound(ExpectationsOf(c, events), outputs, i, i + 1)
  {
    OutputsPartition(c, limit, events, outputs, map[], i);
    BoundIsEarliest(ExpectationsOf(c, events), outputs, i);
  }

  /** The review timeline is a normalised draft. */
  lemma ReviewOfDraft(c: Config, d: Draft)
    requires ValidConfig(c) && Normalize(c, d).Some?
    ensures ReviewEvents(c, Normalize(c, d).value.duration.value, Objects(Normalize(c, d).value.entries))
  {
    NormalForm(c, d);
  }

  lemma {:induction false} TotalOfPrefix(c: Config, limit: real, events: seq<Event>, outputs: seq<Output>, k: nat)
    requires ReviewEvents(c, limit, events) && k <= |ExpectationsOf(c, events)|
    ensures var es := ExpectationsOf(c, events);
            TotalFor(c, events, outputs, map[], es[..k]) == |Bound(es, outputs, 0, k)|
  {
    var es := ExpectationsOf(c, events);
    if k == 0 {
      BoundEmpty(es, outputs);
    } else {
      TotalOfPrefix(c, limit, events, outputs, k - 1);
      assert es[..k][..k - 1] == es[..k - 1];
      ReviewOutputs(c, limit, events, outputs, k - 1);
      BoundSplit(es, outputs, k - 1);
    }
  }

  /** The outputs no later than a time. */
  function NotAfter(outputs: seq<Output>, at: real): seq<Output> {
    if outputs == [] then []
    else
      var o := outputs[|outputs| - 1];
      NotAfter(outputs[..|outputs| - 1], at) + if o.at <= at then [o] else []
  }

  lemma {:induction false} BoundIsNotAfter(es: seq<Event>, outputs: seq<Output>)
    requires es != [] && InOrder(es)
    ensures Bound(es, outputs, 0, |es|) == NotAfter(outputs, At(es[|es| - 1]))
  {
    if outputs != [] { BoundIsNotAfter(es, outputs[..|outputs| - 1]); }
  }

  /** How many outputs the first k expectations show. */
  function ShownUpTo(es: seq<Event>, outputs: seq<Output>, stages: Stages, k: nat): nat
    requires k <= |es|
  {
    if k == 0 then 0
    else
      var e := es[k - 1];
      ShownUpTo(es, outputs, stages, k - 1)
      + if Staged(stages, e) then |stages[e.id.value]| else |EarliestFor(es, outputs, k - 1)|
  }

  lemma {:induction false} TotalIsShown(c: Config, limit: real, events: seq<Event>, outputs: seq<Output>,
                                        stages: Stages, k: nat)
    requires ReviewEvents(c, limit, events) && k <= |ExpectationsOf(c, events)|
    ensures var es := ExpectationsOf(c, events);
            TotalFor(c, events, outputs, stages, es[..k]) == ShownUpTo(es, outputs, stages, k)
  {
    var es := ExpectationsOf(c, events);
    if k > 0 {
      TotalIsShown(c, limit, events, outputs, stages, k - 1);
      assert es[..k][..k - 1] == es[..k - 1];
      OutputsPartition(c, limit, events, outputs, stages, k - 1);
    }
  }

  /** The expectation lane counts what its expectations show, and every other lane nothing. */
  lemma LaneCountShows(c: Config, limit: real, events: seq<Event>, outputs: seq<Output>, stages: Stages, lane: string)
    requires ReviewEvents(c, limit, events)
    ensures var es := ExpectationsOf(c, events);
            LaneCount(c, events, outputs, stages, lane)
            == if lane == c.expectationLane then ShownUpTo(es, outputs, stages, |es|) else 0
  {
    var es := ExpectationsOf(c, events);
    ReviewExpectations(c, limit, events);
    TotalIsShown(c, limit, events, outputs, stages, |es|);
    assert es[..|es|] == es;
  }

  /** Without stage outputs it counts each output up to the last expectation once, and no other. */
  lemma LaneCountIs(c: Config, limit: real, events: seq<Event>, outputs: seq<Output>)
    requires ReviewEvents(c, limit, events)
    ensures var es := ExpectationsOf(c, events);
            LaneCount(c, events, outputs, map[], c.expectationLane)
            == if es == [] then 0 else |NotAfter(outputs, At(es[|es| - 1]))|
  {
    var es := ExpectationsOf(c, events);
    ReviewExpectations(c, limit, events);
    TotalOfPrefix(c, limit, events, outputs, |es|);
    assert es[..|es|] == es;
    if es != [] { BoundIsNotAfter(es, outputs); }
  }
}
