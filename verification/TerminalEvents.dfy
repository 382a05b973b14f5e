/**
 The terminal transcript as plain data: what a terminal event is, and the two
 pure merges that build a transcript (static/js/utils/runtime-events.js and the
 computation inside `mergeTerminalEvents`).

 An event is a record.  `seq_no` and `id` are always present; every other field
 is an entry of `attrs`, because the merge is the object spread
 `{ ...old, ...new }`, under which a field missing from the new record survives
 from the old one.
 */
module TerminalEvents {

  const EXTERNAL_ID := "external_event_id"
  const OPTIMISTIC := "_optimistic"

  datatype Event = Event(seqNo: nat, id: string, attrs: map<string, string>) {
    predicate Optimistic() { OPTIMISTIC in attrs && attrs[OPTIMISTIC] == "true" }

    /** The external id, or "" when the event has none. */
    function External(): string { if EXTERNAL_ID in attrs then attrs[EXTERNAL_ID] else "" }
  }

  /** `{ ...old, ...incoming }` */
  function Spread(old_: Event, incoming: Event): Event {
    Event(incoming.seqNo, incoming.id, old_.attrs + incoming.attrs)
  }

  // ---------------------------------------------------------------- tables

  type Table = map<nat, Event>

  /** The first loop of `mergeBySeq`: later items win whole. */
  function Index(events: seq<Event>): Table {
    if events == [] then map[]
    else
      var last := events[|events| - 1];
      Index(events[..|events| - 1])[last.seqNo := last]
  }

  function Put(table: Table, item: Event): Table {
    table[item.seqNo := if item.seqNo in table then Spread(table[item.seqNo], item) else item]
  }

  /** The second loop of `mergeBySeq`: later items are spread over earlier ones. */
  function Overlay(table: Table, incoming: seq<Event>): Table {
    if incoming == [] then table
    else Put(Overlay(table, incoming[..|incoming| - 1]), incoming[|incoming| - 1])
  }

  predicate Keyed(table: Table) {
    forall k :: k in table ==> table[k].seqNo == k
  }

  function MaxOf(keys: set<nat>): (m: nat)
    requires keys != {}
    ensures m in keys && forall k :: k in keys ==> k <= m
  {
    MaxExists(keys);
    var m :| m in keys && forall k :: k in keys ==> k <= m;
    m
  }

  lemma MaxExists(keys: set<nat>)
    requires keys != {}
    ensures exists m :: m in keys && forall k :: k in keys ==> k <= m
  {
    var x :| x in keys;
    if keys != {x} {
      var rest := keys - {x};
      MaxExists(rest);
      var m :| m in rest && forall k :: k in rest ==> k <= m;
      var top := if m < x then x else m;
      assert top in keys;
      forall k | k in keys ensures k <= top {
        if k != x { assert k in rest; }
      }
    }
  }

  /** `Array.from(map.values()).sort(by seq_no)`. */
  function Listing(table: Table): seq<Event>
    decreases |table|
  {
    if table == map[] then []
    else
      var k := MaxOf(table.Keys);
      assert |(table - {k}).Keys| < |table.Keys| by { assert (table - {k}).Keys == table.Keys - {k}; }
      Listing(table - {k}) + [table[k]]
  }

  predicate Sorted(events: seq<Event>) {
    forall i, j :: 0 <= i < j < |events| ==> events[i].seqNo < events[j].seqNo
  }

  lemma SortedAppend(prefix: seq<Event>, e: Event)
    requires Sorted(prefix) && forall x :: x in prefix ==> x.seqNo < e.seqNo
    ensures Sorted(prefix + [e])
  {
    forall i | 0 <= i < |prefix| ensures prefix[i].seqNo < e.seqNo { assert prefix[i] in prefix; }
  }

  lemma {:induction false} ListingSorted(table: Table)
    requires Keyed(table)
    ensures Sorted(Listing(table))
    ensures forall e :: e in Listing(table) <==> e.seqNo in table && table[e.seqNo] == e
    decreases |table|
  {
    if table != map[] {
      var k := MaxOf(table.Keys);
      var rest := table - {k};
      assert rest.Keys == table.Keys - {k};
      ListingSorted(rest);
      var prefix := Listing(rest);
      assert Listing(table) == prefix + [table[k]];
      SortedAppend(prefix, table[k]);
    }
  }

  lemma {:induction false} IndexAt(events: seq<Event>, i: nat)
    requires Sorted(events) && i < |events|
    ensures events[i].seqNo in Index(events) && Index(events)[events[i].seqNo] == events[i]
  {
    var n := |events| - 1;
    if i < n {
      IndexAt(events[..n], i);
      assert events[i].seqNo < events[n].seqNo;
    }
  }

  lemma {:induction false} IndexOnly(events: seq<Event>, k: nat)
    requires k in Index(events)
    ensures Index(events)[k].seqNo == k && Index(events)[k] in events
  {
    var n := |events| - 1;
    if k != events[n].seqNo { IndexOnly(events[..n], k); }
  }

  lemma IndexOfSorted(events: seq<Event>)
    requires Sorted(events)
    ensures Keyed(Index(events))
    ensures forall k :: k in Index(events) ==> Index(events)[k] in events
    ensures forall e :: e in events ==> e.seqNo in Index(events) && Index(events)[e.seqNo] == e
  {
    forall k | k in Index(events) ensures Index(events)[k].seqNo == k && Index(events)[k] in events {
      IndexOnly(events, k);
    }
    forall e | e in events ensures e.seqNo in Index(events) && Index(events)[e.seqNo] == e {
      var i :| 0 <= i < |events| && events[i] == e;
      IndexAt(events, i);
    }
  }

  /** Without a shared sequence number the overlay is a plain union. */
  lemma {:induction false} OverlayDisjoint(table: Table, incoming: seq<Event>)
    requires Sorted(incoming)
    requires forall i :: 0 <= i < |incoming| ==> incoming[i].seqNo !in table
    ensures Overlay(table, incoming) == table + Index(incoming)
  {
    if incoming != [] {
      var n := |incoming| - 1;
      var init, last := incoming[..n], incoming[n];
      OverlayDisjoint(table, init);
      if last.seqNo in Index(init) {
        IndexOnly(init, last.seqNo);
      }
    }
  }

  function MergedBySeq(existing: seq<Event>, incoming: seq<Event>): seq<Event> {
    Listing(Overlay(Index(existing), incoming))
  }

  method MergeBySeq(existing: seq<Event>, incoming: seq<Event>) returns (merged: seq<Event>)
    ensures merged == MergedBySeq(existing, incoming)
  {
    var table: Table := map[];
    for i := 0 to |existing|
      invariant table == Index(existing[..i])
    {
      table := table[existing[i].seqNo := existing[i]];
      assert existing[..i + 1][..i] == existing[..i];
    }
    assert existing[..|existing|] == existing;
    for i := 0 to |incoming|
      invariant table == Overlay(Index(existing), incoming[..i])
    {
      table := Put(table, incoming[i]);
      assert incoming[..i + 1][..i] == incoming[..i];
    }
    assert incoming[..|incoming|] == incoming;
    merged := Listing(table);
  }

  // ------------------------------------------------------ what a merge holds

  /** The last record under a number, if there is one. */
  function LastUnder(events: seq<Event>, n: nat): seq<Event> {
    if events == [] then []
    else if events[|events| - 1].seqNo == n then [events[|events| - 1]]
    else LastUnder(events[..|events| - 1], n)
  }

  /** The records that make up the merged entry under a number: the last existing one, and all incoming ones. */
  function Layers(existing: seq<Event>, incoming: seq<Event>, n: nat): seq<Event> {
    if incoming == [] then LastUnder(existing, n)
    else
      var below := Layers(existing, incoming[..|incoming| - 1], n);
      if incoming[|incoming| - 1].seqNo == n then below + [incoming[|incoming| - 1]] else below
  }

  /** Layer `i` is the topmost that has the field. */
  predicate TopField(layers: seq<Event>, key: string, i: nat) {
    i < |layers| && key in layers[i].attrs && forall j :: i < j < |layers| ==> key !in layers[j].attrs
  }

  /** Every field of `e` comes from the topmost layer that has it. */
  ghost predicate SpreadOf(e: Event, layers: seq<Event>, n: nat) {
    && layers != [] && e.seqNo == n && e.id == layers[|layers| - 1].id
    && (forall key :: key in e.attrs <==> exists i: nat :: TopField(layers, key, i))
    && (forall key, i: nat :: TopField(layers, key, i) ==> key in e.attrs && e.attrs[key] == layers[i].attrs[key])
  }

  lemma OneLayer(e: Event)
    ensures SpreadOf(e, [e], e.seqNo)
  {
    forall key | key in e.attrs ensures exists i: nat :: TopField([e], key, i) { assert TopField([e], key, 0); }
  }

  lemma TopBelow(layers: seq<Event>, item: Event, key: string, i: nat)
    requires i < |layers| && key !in item.attrs
    ensures TopField(layers + [item], key, i) <==> TopField(layers, key, i)
  {
    var all := layers + [item];
    assert forall j :: 0 <= j < |layers| ==> all[j] == layers[j];
    if TopField(all, key, i) {
      forall j | i < j < |layers| ensures key !in layers[j].attrs { assert key !in all[j].attrs; }
    }
  }

  lemma ItemOnTop(layers: seq<Event>, item: Event, key: string, i: nat)
    requires key in item.attrs
    ensures TopField(layers + [item], key, i) <==> i == |layers|
  {
    assert (layers + [item])[|layers|] == item;
  }

  lemma NextLayer(e: Event, layers: seq<Event>, item: Event)
    requires SpreadOf(e, layers, item.seqNo)
    ensures SpreadOf(Spread(e, item), layers + [item], item.seqNo)
  {
    var all, n := layers + [item], |layers|;
    forall key, i: nat
      ensures key in item.attrs ==> (TopField(all, key, i) <==> i == n)
      ensures key !in item.attrs ==> (TopField(all, key, i) <==> TopField(layers, key, i))
    {
      if key in item.attrs {
        ItemOnTop(layers, item, key, i);
      } else if i < n {
        TopBelow(layers, item, key, i);
      }
    }
    forall key ensures key in Spread(e, item).attrs <==> exists i: nat :: TopField(all, key, i) {
      if key in item.attrs {
        assert TopField(all, key, n);
      } else if key in e.attrs {
        var i: nat :| TopField(layers, key, i);
        assert TopField(all, key, i);
      }
    }
  }

  lemma {:induction false} IndexLayers(existing: seq<Event>, n: nat)
    ensures n in Index(existing) <==> LastUnder(existing, n) != []
    ensures n in Index(existing) ==> SpreadOf(Index(existing)[n], LastUnder(existing, n), n)
  {
    if existing != [] {
      IndexLayers(existing[..|existing| - 1], n);
      OneLayer(existing[|existing| - 1]);
    }
  }

  lemma {:induction false} OverlayLayers(existing: seq<Event>, incoming: seq<Event>, n: nat)
    ensures var table := Overlay(Index(existing), incoming);
            && (n in table <==> Layers(existing, incoming, n) != [])
            && (n in table ==> SpreadOf(table[n], Layers(existing, incoming, n), n))
  {
    if incoming == [] {
      IndexLayers(existing, n);
    } else {
      var init, item := incoming[..|incoming| - 1], incoming[|incoming| - 1];
      OverlayLayers(existing, init, n);
      OneLayer(item);
      if item.seqNo == n && n in Overlay(Index(existing), init) {
        NextLayer(Overlay(Index(existing), init)[n], Layers(existing, init, n), item);
      } else if item.seqNo == n {
        assert Layers(existing, incoming, n) == [item];
      }
    }
  }

  /** A merge of any two lists: ascending, one entry per number found in either, its fields from the topmost layer. */
  lemma MergedFields(existing: seq<Event>, incoming: seq<Event>)
    ensures Sorted(MergedBySeq(existing, incoming))
    ensures forall e :: e in MergedBySeq(existing, incoming) ==>
              SpreadOf(e, Layers(existing, incoming, e.seqNo), e.seqNo)
    ensures forall n :: Layers(existing, incoming, n) != [] ==>
              exists e :: e in MergedBySeq(existing, incoming) && e.seqNo == n
  {
    var table := Overlay(Index(existing), incoming);
    forall n
      ensures n in table <==> Layers(existing, incoming, n) != []
      ensures n in table ==> SpreadOf(table[n], Layers(existing, incoming, n), n)
    {
      OverlayLayers(existing, incoming, n);
    }
    ListingSorted(table);
    forall n | n in table ensures exists e :: e in Listing(table) && e.seqNo == n { assert table[n] in Listing(table); }
  }

  // ------------------------------------------------------- transcript merge

  function RealSeqs(events: seq<Event>): set<nat> {
    set e | e in events && !e.Optimistic() :: e.seqNo
  }

  function RealExternals(events: seq<Event>): set<string> {
    set e | e in events && !e.Optimistic() && e.External() != "" :: e.External()
  }

  /** An optimistic entry that a real incoming event stands for, by position or by external id. */
  predicate Replaced(e: Event, incoming: seq<Event>) {
    e.Optimistic() && (e.seqNo in RealSeqs(incoming) || e.External() in RealExternals(incoming))
  }

  function ReplacedIds(events: seq<Event>, incoming: seq<Event>): set<string> {
    set e | e in events && Replaced(e, incoming) :: e.id
  }

  predicate Kept(e: Event, events: seq<Event>, incoming: seq<Event>) {
    e.seqNo !in RealSeqs(incoming) && e.id !in ReplacedIds(events, incoming)
  }

  function Filter(events: seq<Event>, keep: Event -> bool): (kept: seq<Event>)
    ensures forall e :: e in kept <==> e in events && keep(e)
  {
    if events == [] then []
    else
      var init, last := events[..|events| - 1], events[|events| - 1];
      assert events == init + [last];
      if keep(last) then Filter(init, keep) + [last] else Filter(init, keep)
  }

  lemma {:induction false} FilterSorted(events: seq<Event>, keep: Event -> bool)
    requires Sorted(events)
    ensures Sorted(Filter(events, keep))
  {
    if events != [] {
      var n := |events| - 1;
      var init := events[..n];
      FilterSorted(init, keep);
      var kept := Filter(init, keep);
      forall i | 0 <= i < |kept| ensures kept[i].seqNo < events[n].seqNo {
        assert kept[i] in init;
        var j :| 0 <= j < n && init[j] == kept[i];
        assert events[j].seqNo < events[n].seqNo;
      }
    }
  }

  /** What `mergeTerminalEvents` makes of the transcript. */
  function Merged(events: seq<Event>, incoming: seq<Event>): seq<Event> {
    MergedBySeq(Filter(events, e => Kept(e, events, incoming)), incoming)
  }

  predicate AllReal(events: seq<Event>) {
    forall e :: e in events ==> !e.Optimistic()
  }

  /** Merging real events: exactly the kept entries plus the incoming ones, no field mixed in. */
  lemma MergeReal(events: seq<Event>, incoming: seq<Event>)
    requires Sorted(events) && Sorted(incoming) && AllReal(incoming)
    ensures Sorted(Merged(events, incoming))
    ensures forall e :: e in Merged(events, incoming)
                        <==> e in incoming || (e in events && Kept(e, events, incoming))
  {
    var kept := Filter(events, e => Kept(e, events, incoming));
    FilterSorted(events, e => Kept(e, events, incoming));
    IndexOfSorted(kept);
    IndexOfSorted(incoming);
    forall i | 0 <= i < |incoming| ensures incoming[i].seqNo !in Index(kept) {
      assert incoming[i] in incoming && incoming[i].seqNo in RealSeqs(incoming);
    }
    OverlayDisjoint(Index(kept), incoming);
    var table := Index(kept) + Index(incoming);
    assert Keyed(table);
    ListingSorted(table);
    forall e ensures e in Merged(events, incoming)
                     <==> e in incoming || (e in events && Kept(e, events, incoming))
    {
      if e in incoming { assert e.seqNo in Index(incoming); }
      if e in kept { assert e.seqNo in Index(kept) && e.seqNo !in Index(incoming); }
    }
  }

  /** Merging a fresh optimistic event appends it and touches nothing else. */
  lemma MergeOptimistic(events: seq<Event>, o: Event)
    requires Sorted(events) && o.Optimistic()
    requires forall e :: e in events ==> e.seqNo < o.seqNo
    ensures Sorted(Merged(events, [o]))
    ensures forall e :: e in Merged(events, [o]) <==> e in events || e == o
  {
    assert RealSeqs([o]) == {} && RealExternals([o]) == {};
    var kept := Filter(events, e => Kept(e, events, [o]));
    FilterSorted(events, e => Kept(e, events, [o]));
    assert forall e :: e in kept <==> e in events;
    IndexOfSorted(kept);
    IndexOfSorted([o]);
    assert o.seqNo !in Index(kept);
    OverlayDisjoint(Index(kept), [o]);
    var table := Index(kept) + Index([o]);
    assert Keyed(table);
    ListingSorted(table);
    forall e ensures e in Merged(events, [o]) <==> e in events || e == o {
      if e in kept {
        assert e.seqNo in Index(kept) && e.seqNo < o.seqNo;
        assert forall k :: k in Index([o]) ==> k == o.seqNo;
      }
      assert o in [o];
    }
  }

  // -------------------------------------------------------- sequence search

  /** The least number from `k` on that is not in `seqs`. */
  function LeastMissingFrom(seqs: set<nat>, k: nat): (n: nat)
    ensures k <= n && n !in seqs
    ensures forall j :: k <= j < n ==> j in seqs
    decreases seqs
  {
    if k in seqs then LeastMissingFrom(seqs - {k}, k + 1) else k
  }

  function MaxSeq(events: seq<Event>, floor: nat): (m: nat)
    ensures m >= floor && forall e :: e in events ==> e.seqNo <= m
    ensures m == floor || exists e :: e in events && e.seqNo == m
  {
    if events == [] then floor
    else
      var init, last := events[..|events| - 1], events[|events| - 1];
      assert events == init + [last];
      var m := MaxSeq(init, floor);
      if last.seqNo > m then last.seqNo else m
  }
}
