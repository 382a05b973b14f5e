/**
 The browser's live view of one run's terminal (static/js/app/runtime.js).

 `View` is the state and one function per uninterrupted piece of an asynchronous
 method: what happens between two `await`s.  Class `Client` keeps the same state
 in mutable fields and performs each piece the way the source does; every method
 is tied to the function of the same step.
 */
module TerminalClient {
  import opened Options
  import opened TerminalEvents

  /** The shared in-flight reconcile request: which one it is, and where it starts. */
  datatype Slot = Slot(ticket: nat, from: nat)

  datatype View = View(
    open: bool,               // `liveRun` is this run
    events: seq<Event>,       // liveRunTerminalEvents
    latest: nat,              // liveRun.latest_terminal_seq
    busy: bool,               // busy.terminalInput
    draft: string,            // terminalInputForm
    generation: nat,          // _liveRunLoadGeneration
    slot: Option<Slot>)       // _liveRunTerminalReconcileRequest

  // ------------------------------------------------------------ view steps

  /** Replace the transcript, then `updateLiveRunLatestTerminalSeq`. */
  function WithEvents(v: View, events: seq<Event>): View {
    v.(events := events, latest := if v.open then MaxSeq(events, v.latest) else v.latest)
  }

  function Receive(v: View, incoming: seq<Event>): View {
    if v.open then WithEvents(v, Merged(v.events, incoming)) else v
  }

  function ReconcileFrom(v: View): nat {
    LeastMissingFrom(RealSeqs(v.events) - {0}, 1)
  }

  function FreshSeq(v: View): nat {
    MaxSeq(v.events, v.latest) + 1
  }

  function OptimisticEvent(seqNo: nat, id: string, text: string): (e: Event)
    ensures e.Optimistic() && e.External() == id
  {
    Event(seqNo, id,
          map[EXTERNAL_ID := id, OPTIMISTIC := "true", "_optimistic_status" := "sent", "payload_inline" := text])
  }

  predicate CanSend(v: View, usable: bool) { v.open && !v.busy && usable }

  function ShowSent(v: View, id: string, text: string): View {
    Receive(v, [OptimisticEvent(FreshSeq(v), id, text)])
  }

  function BeginSend(v: View, id: string, text: string): View {
    ShowSent(v.(busy := true), id, text).(draft := "")
  }

  /** The send's own reply is dropped once the view has been torn down. */
  function Acknowledge(v: View, generation: nat, event: Event): View {
    if v.generation == generation then Receive(v, [event]) else v
  }

  /** The event of `read` that carries the external id, if any. */
  function FindExternal(read: seq<Event>, id: string): (found: Option<Event>)
    ensures found.None? <==> forall e :: e in read ==> e.External() != id
    ensures found.Some? ==> found.value in read && found.value.External() == id
  {
    if read == [] then None
    else if read[0].External() == id then Some(read[0])
    else
      assert read == [read[0]] + read[1..];
      FindExternal(read[1..], id)
  }

  method SearchExternal(read: seq<Event>, id: string) returns (found: Option<Event>)
    ensures found == FindExternal(read, id)
  {
    var i := 0;
    while i < |read| && read[i].External() != id
      invariant i <= |read|
      invariant FindExternal(read, id) == FindExternal(read[i..], id)
    {
      i := i + 1;
    }
    found := if i < |read| then Some(read[i]) else None;
  }

  /** After a failed send: adopt the event when the log has it, else give the draft back. */
  function SettleLookup(v: View, id: string, text: string, found: Option<Event>): View {
    match found
    case Some(e) => Receive(v, [e])
    case None => WithEvents(v, Filter(v.events, (e: Event) => e.id != id)).(draft := text)
  }

  function Summarise(v: View, serverLatest: nat): View {
    if v.open then WithEvents(v.(latest := serverLatest), v.events) else v
  }

  function EndSend(v: View, generation: nat): View {
    if v.open && v.generation == generation then v.(busy := false) else v
  }

  predicate Starts(v: View, from: nat) {
    v.open && !(v.slot.Some? && v.slot.value.from == from)
  }

  function StartReconcile(v: View, from: nat, ticket: nat): View {
    if Starts(v, from) then v.(slot := Some(Slot(ticket, from))) else v
  }

  function FreeSlot(v: View, ticket: nat): View {
    if v.slot.Some? && v.slot.value.ticket == ticket then v.(slot := None) else v
  }

  /** A pushed event opens a reconcile first when it leaves a gap. */
  predicate Gap(v: View, event: Event, mounted: bool) { event.seqNo > ReconcileFrom(v) && mounted }

  function Push(v: View, event: Event, mounted: bool, ticket: nat): View {
    if !v.open then v
    else Receive(if Gap(v, event, mounted) then StartReconcile(v, ReconcileFrom(v), ticket) else v, [event])
  }

  function Destroy(v: View): View {
    View(false, [], 0, false, "", v.generation + 1, None)
  }

  function Open(v: View, serverLatest: nat): View {
    v.(open := true, latest := serverLatest)
  }

  // ---------------------------------------------------------------- object

  class Client {
    var open: bool
    var events: seq<Event>
    var latest: nat
    var busy: bool
    var draft: string
    var generation: nat
    var slot: Option<Slot>

    ghost function Value(): View
      reads this
    {
      View(open, events, latest, busy, draft, generation, slot)
    }

    constructor ()
      ensures Value() == View(false, [], 0, false, "", 0, None)
    {
      open, events, latest, busy, draft, generation, slot := false, [], 0, false, "", 0, None;
    }

    method UpdateLatest()
      modifies this`latest
      ensures Value() == WithEvents(old(Value()), events)
    {
      if open {
        var top := latest;
        for i := 0 to |events|
          invariant top == MaxSeq(events[..i], latest)
        {
          assert events[..i + 1][..i] == events[..i];
          if events[i].seqNo > top { top := events[i].seqNo; }
        }
        assert events[..|events|] == events;
        latest := top;
      }
    }

    method MergeTerminalEvents(incoming: seq<Event>)
      modifies this`events, this`latest
      ensures Value() == WithEvents(old(Value()), Merged(old(events), incoming))
    {
      var before := events;
      var base := Filter(events, e => Kept(e, before, incoming));
      events := MergeBySeq(base, incoming);
      UpdateLatest();
    }

    method NextTerminalReconcileFromSeq() returns (expected: nat)
      ensures expected == ReconcileFrom(Value())
    {
      var realSeqs := RealSeqs(events) - {0};
      var rest := realSeqs;
      expected := 1;
      while expected in realSeqs
        invariant rest <= realSeqs
        invariant forall j :: j >= expected && j in realSeqs ==> j in rest
        invariant LeastMissingFrom(rest, expected) == LeastMissingFrom(realSeqs, 1)
        decreases rest
      {
        rest := rest - {expected};
        expected := expected + 1;
      }
    }

    method NextOptimisticTerminalSeq() returns (n: nat)
      ensures n == FreshSeq(Value())
      ensures forall e :: e in events ==> e.seqNo < n
    {
      var top := latest;
      for i := 0 to |events|
        invariant top == MaxSeq(events[..i], latest)
      {
        assert events[..i + 1][..i] == events[..i];
        if events[i].seqNo > top { top := events[i].seqNo; }
      }
      assert events[..|events|] == events;
      n := top + 1;
    }

    method RequestReconcile(from: nat, ticket: nat) returns (started: bool)
      modifies this`slot
      ensures started == Starts(old(Value()), from)
      ensures Value() == StartReconcile(old(Value()), from, ticket)
    {
      started := open && !(slot.Some? && slot.value.from == from);
      if started { slot := Some(Slot(ticket, from)); }
    }

    method ReconcileReply(ticket: nat, read: seq<Event>)
      modifies this
      ensures Value() == FreeSlot(Receive(old(Value()), read), ticket)
    {
      if open { MergeTerminalEvents(read); }
      if slot.Some? && slot.value.ticket == ticket { slot := None; }
    }

    method HandleAppended(event: Event, mounted: bool, ticket: nat)
      modifies this
      ensures Value() == Push(old(Value()), event, mounted, ticket)
    {
      if !open { return; }
      var expected := NextTerminalReconcileFromSeq();
      if event.seqNo > expected && mounted {
        var _ := RequestReconcile(expected, ticket);
      }
      MergeTerminalEvents([event]);
    }

    method SendTerminalInput(id: string, text: string, usable: bool) returns (sent: bool, from: nat)
      modifies this
      ensures sent == CanSend(old(Value()), usable)
      ensures sent ==> from == ReconcileFrom(old(Value())) && Value() == BeginSend(old(Value()), id, text)
      ensures !sent ==> Value() == old(Value())
    {
      sent := open && !busy && usable;
      from := NextTerminalReconcileFromSeq();
      if sent {
        busy := true;
        ShowOptimistic(id, text);
        draft := "";
      }
    }

    method ShowOptimistic(id: string, text: string)
      requires open
      modifies this`events, this`latest
      ensures Value() == ShowSent(old(Value()), id, text)
    {
      var seqNo := NextOptimisticTerminalSeq();
      MergeTerminalEvents([OptimisticEvent(seqNo, id, text)]);
    }

    method SendAcknowledged(sentIn: nat, event: Event)
      modifies this
      ensures Value() == Acknowledge(old(Value()), sentIn, event)
      ensures !(old(open) && old(generation) == sentIn) ==> Value() == old(Value())
    {
      if open && generation == sentIn { MergeTerminalEvents([event]); }
    }

    method AcceptanceReply(id: string, text: string, read: seq<Event>) returns (accepted: bool)
      modifies this
      ensures accepted <==> exists e :: e in read && e.External() == id
      ensures Value() == SettleLookup(old(Value()), id, text, FindExternal(read, id))
    {
      var found := SearchExternal(read, id);
      accepted := found.Some?;
      if accepted {
        if open { MergeTerminalEvents([found.value]); }
      } else {
        events := Filter(events, (e: Event) => e.id != id);
        UpdateLatest();
        draft := text;
      }
    }

    method SummaryReply(serverLatest: nat)
      modifies this
      ensures Value() == Summarise(old(Value()), serverLatest)
    {
      if open {
        latest := serverLatest;
        UpdateLatest();
      }
    }

    method SendFinished(sentIn: nat)
      modifies this
      ensures Value() == EndSend(old(Value()), sentIn)
      ensures busy == (old(busy) && !(old(open) && old(generation) == sentIn))
    {
      if open && generation == sentIn { busy := false; }
    }

    method DestroyView()
      modifies this
      ensures Value() == Destroy(old(Value()))
    {
      generation := generation + 1;
      open, events, latest, busy, draft, slot := false, [], 0, false, "", None;
    }

    method OpenView(serverLatest: nat)
      modifies this
      ensures Value() == Open(old(Value()), serverLatest)
    {
      open, latest := true, serverLatest;
    }
  }
}
