/**
 Every interleaving of the terminal protocol: a server that appends to a log, a
 socket that loses, repeats and reorders pushes, reads that return a prefix-cut
 slice of the log, sends whose replies may be lost and whose input the server
 may still accept later, and a client view that can be torn down and reopened
 while any of these are in flight.

 Assumed of the server: sequence numbers are 1, 2, 3, ... in log order, external
 ids in the log are unique, `from_seq` is inclusive, server event ids and the
 external ids of other producers never look like a client-made local id.
 */
module TerminalProtocol {
  import opened Options
  import opened TerminalEvents
  import opened TerminalClient

  datatype Phase = Posting | LookingUp | Refreshing

  /** A send not yet over; `shownAt` is the number its optimistic entry was given. */
  datatype Send = Send(text: string, from: nat, shownAt: nat, generation: nat, phase: Phase)

  /** A read in flight; `generation` records the view that asked. */
  datatype Read = Read(from: nat, generation: nat)

  datatype State = State(
    log: seq<Event>,
    view: View,
    sends: map<string, Send>,
    used: set<string>,        // local ids handed out so far
    inflight: map<nat, Read>,
    tickets: nat)

  datatype Action =
    | ServerAppend(event: Event)
    | ServerAccept(id: string, event: Event)
    | PushDelivered(k: nat, mounted: bool)
    | SocketOpened(mounted: bool)
    | LoadStarted
    | ReadDelivered(ticket: nat, n: nat)
    | ReadFailed(ticket: nat)
    | SendBegun(id: string, text: string, usable: bool)
    | SendAcked(id: string)
    | SendErrored(id: string)
    | LookupDelivered(id: string, n: nat)
    | LookupErrored(id: string)
    | SendRefreshed(id: string, serverLatest: Option<nat>)
    | SummaryDelivered(n: nat)
    | ViewDestroyed
    | ViewOpened(n: nat)

  const LOCAL := "local-terminal-"

  predicate IsLocal(id: string) { LOCAL <= id }

  const Initial := State([], View(false, [], 0, false, "", 0, None), map[], {}, map[], 0)

  predicate InLog(log: seq<Event>, id: string) {
    exists i :: 0 <= i < |log| && log[i].External() == id
  }

  /** What the server may append next. */
  predicate Appendable(log: seq<Event>, e: Event) {
    && e.seqNo == |log| + 1 && OPTIMISTIC !in e.attrs && !IsLocal(e.id)
    && (e.External() != "" ==> !InLog(log, e.External()))
  }

  /** `from_seq` read of a log that held `n` events. */
  function Slice(log: seq<Event>, from: nat, n: nat): seq<Event>
    requires n <= |log|
  {
    if 1 <= from <= n then log[from - 1..n] else if from == 0 then log[..n] else []
  }

  predicate Enabled(s: State, a: Action) {
    match a
    case ServerAppend(e) => Appendable(s.log, e) && !IsLocal(e.External())
    case ServerAccept(id, e) => Appendable(s.log, e) && id in s.used && e.External() == id
    case PushDelivered(k, _) => 1 <= k <= |s.log|
    case ReadDelivered(ticket, n) => ticket in s.inflight && n <= |s.log|
    case ReadFailed(ticket) => ticket in s.inflight
    case SendBegun(id, _, usable) => CanSend(s.view, usable) && IsLocal(id) && id !in s.used
    case SendAcked(id) => id in s.sends && s.sends[id].phase == Posting && InLog(s.log, id)
    case SendErrored(id) => id in s.sends && s.sends[id].phase == Posting
    case LookupDelivered(id, n) => id in s.sends && s.sends[id].phase == LookingUp && n <= |s.log|
    case LookupErrored(id) => id in s.sends && s.sends[id].phase == LookingUp
    case SendRefreshed(id, _) => id in s.sends && s.sends[id].phase == Refreshing
    case ViewOpened(_) => !s.view.open
    case _ => true
  }

  predicate Live(s: State, id: string)
    requires id in s.sends
  {
    s.view.open && s.sends[id].generation == s.view.generation
  }

  function StartRead(s: State, from: nat): State {
    s.(view := StartReconcile(s.view, from, s.tickets),
       inflight := if Starts(s.view, from) then s.inflight[s.tickets := Read(from, s.view.generation)] else s.inflight,
       tickets := s.tickets + 1)
  }

  function Pushed(s: State, event: Event, mounted: bool): State {
    var view := Push(s.view, event, mounted, s.tickets);
    if s.view.open && Gap(s.view, event, mounted) then StartRead(s, ReconcileFrom(s.view)).(view := view)
    else s.(view := view)
  }

  function Sent(s: State, id: string, text: string): State {
    s.(view := BeginSend(s.view, id, text),
       sends := s.sends[id := Send(text, ReconcileFrom(s.view), FreshSeq(s.view), s.view.generation, Posting)],
       used := s.used + {id})
  }

  function SettleSend(s: State, id: string, found: Option<Event>): State
    requires id in s.sends
  {
    var send := s.sends[id];
    var view := SettleLookup(s.view, id, send.text, found);
    if found.Some? then s.(view := view, sends := s.sends[id := send.(phase := Refreshing)])
    else s.(view := EndSend(view, send.generation), sends := s.sends - {id})
  }

  function Apply(s: State, a: Action): State
    requires Enabled(s, a)
  {
    match a
    case ServerAppend(e) => s.(log := s.log + [e])
    case ServerAccept(_, e) => s.(log := s.log + [e])
    case PushDelivered(k, mounted) => Pushed(s, s.log[k - 1], mounted)
    case SocketOpened(mounted) => if mounted then StartRead(s, ReconcileFrom(s.view)) else s
    case LoadStarted =>
      if s.view.open
      then s.(inflight := s.inflight[s.tickets := Read(1, s.view.generation)], tickets := s.tickets + 1)
      else s
    case ReadDelivered(ticket, n) =>
      s.(view := FreeSlot(Receive(s.view, Slice(s.log, s.inflight[ticket].from, n)), ticket),
         inflight := s.inflight - {ticket})
    case ReadFailed(ticket) => s.(view := FreeSlot(s.view, ticket), inflight := s.inflight - {ticket})
    case SendBegun(id, text, _) => Sent(s, id, text)
    case SendAcked(id) =>
      if Live(s, id) then
        s.(view := Acknowledge(s.view, s.sends[id].generation, FindExternal(s.log, id).value),
           sends := s.sends[id := s.sends[id].(phase := Refreshing)])
      else s.(sends := s.sends - {id})
    case SendErrored(id) =>
      if Live(s, id) then s.(sends := s.sends[id := s.sends[id].(phase := LookingUp)])
      else s.(sends := s.sends - {id})
    case LookupDelivered(id, n) => SettleSend(s, id, FindExternal(Slice(s.log, s.sends[id].from, n), id))
    case LookupErrored(id) => SettleSend(s, id, None)
    case SendRefreshed(id, serverLatest) =>
      var view := if serverLatest.Some? then Summarise(s.view, serverLatest.value) else s.view;
      s.(view := EndSend(view, s.sends[id].generation), sends := s.sends - {id})
    case SummaryDelivered(n) => s.(view := Summarise(s.view, n))
    case ViewDestroyed => s.(view := Destroy(s.view))
    case ViewOpened(n) => s.(view := Open(s.view, n))
  }

  predicate Allowed(s: State, run: seq<Action>)
    decreases |run|
  {
    run == [] || (Enabled(s, run[0]) && Allowed(Apply(s, run[0]), run[1..]))
  }

  function Run(s: State, run: seq<Action>): State
    requires Allowed(s, run)
    decreases |run|
  {
    if run == [] then s else Run(Apply(s, run[0]), run[1..])
  }

  // ------------------------------------------------------------- invariant

  ghost predicate LogOk(log: seq<Event>, used: set<string>) {
    && (forall i :: 0 <= i < |log| ==>
          log[i].seqNo == i + 1 && OPTIMISTIC !in log[i].attrs && !IsLocal(log[i].id)
          && (IsLocal(log[i].External()) ==> log[i].External() in used))
    && (forall i, j :: 0 <= i < j < |log| && log[i].External() != "" ==> log[i].External() != log[j].External())
  }

  predicate FromLog(e: Event, log: seq<Event>) {
    1 <= e.seqNo <= |log| && e == log[e.seqNo - 1]
  }

  /** Every non-optimistic entry is, field for field, the server's event at that position. */
  ghost predicate Faithful(events: seq<Event>, log: seq<Event>) {
    forall e :: e in events && !e.Optimistic() ==> FromLog(e, log)
  }

  /** An optimistic entry belongs to a send of this view that is still unsettled. */
  ghost predicate Pending(e: Event, s: State) {
    && e.id == e.External() && IsLocal(e.id) && e.id in s.sends
    && s.sends[e.id].generation == s.view.generation && s.sends[e.id].phase != Refreshing
  }

  ghost predicate ViewOk(s: State) {
    var v := s.view;
    && Sorted(v.events) && Faithful(v.events, s.log)
    && (forall e :: e in v.events ==> e.seqNo <= v.latest)
    && (forall e :: e in v.events && e.Optimistic() ==> Pending(e, s))
    && (forall e, x :: e in v.events && e.Optimistic() && x in v.events && x.Optimistic() ==> e == x)
    && (forall e, x :: e in v.events && e.Optimistic() && x in v.events && !x.Optimistic() ==>
          x.External() != e.External())
    && (!v.open ==> v.events == [] && !v.busy)
  }

  ghost predicate SendsOk(s: State) {
    && (forall id :: id in s.sends ==> IsLocal(id) && id in s.used && s.sends[id].generation <= s.view.generation)
    && (forall id :: id in s.sends && s.sends[id].generation == s.view.generation ==> s.view.open && s.view.busy)
    && (forall i, j | i in s.sends && j in s.sends ::
          s.sends[i].generation == s.view.generation == s.sends[j].generation ==> i == j)
  }

  /** The start saved before a send is at or below the place the log gives, or can still give, that input. */
  ghost predicate StartsOk(s: State) {
    forall id :: id in s.sends ==>
      1 <= s.sends[id].from <= |s.log| + 1
      && (forall i :: 0 <= i < |s.log| && s.log[i].External() == id ==> s.sends[id].from <= i + 1)
  }

  /** A read of the current view starts at a point below which nothing is missing. */
  ghost predicate ReadsOk(s: State) {
    forall t :: t in s.inflight ==>
      1 <= s.inflight[t].from && s.inflight[t].generation <= s.view.generation
      && (s.inflight[t].generation == s.view.generation ==> Covers(s.view.events, s.log, s.inflight[t].from - 1))
  }

  /** The transcript holds the log's first `n` events. */
  ghost predicate Covers(events: seq<Event>, log: seq<Event>, n: nat) {
    n <= |log| && forall k :: 0 <= k < n ==> log[k] in events
  }

  ghost predicate Inv(s: State) {
    LogOk(s.log, s.used) && ViewOk(s) && SendsOk(s) && StartsOk(s) && ReadsOk(s)
  }

  // --------------------------------------------------------- one real merge

  ghost predicate SubLog(read: seq<Event>, log: seq<Event>) {
    Sorted(read) && forall e :: e in read ==> FromLog(e, log)
  }

  lemma KeepsReal(s: State, read: seq<Event>, e: Event)
    requires LogOk(s.log, s.used) && ViewOk(s) && SubLog(read, s.log)
    requires e in s.view.events && !e.Optimistic()
    ensures e in read || Kept(e, s.view.events, read)
  {
    assert FromLog(e, s.log);
    if e.seqNo in RealSeqs(read) {
      var r :| r in read && r.seqNo == e.seqNo;
    }
  }

  /** Merging part of the log: what enters, what stays, what leaves. */
  lemma MergeLogPart(s: State, read: seq<Event>)
    requires LogOk(s.log, s.used) && ViewOk(s) && SubLog(read, s.log)
    ensures Sorted(Merged(s.view.events, read))
    ensures forall e :: e in Merged(s.view.events, read) <==>
              e in read || (e in s.view.events && (e.Optimistic() ==> !Replaced(e, read)))
  {
    assert AllReal(read);
    MergeReal(s.view.events, read);
    forall e | e in s.view.events
      ensures e.Optimistic() ==> (Kept(e, s.view.events, read) <==> !Replaced(e, read))
      ensures !e.Optimistic() ==> e in read || Kept(e, s.view.events, read)
    {
      if !e.Optimistic() { KeepsReal(s, read, e); }
    }
  }

  ghost predicate MergedFrom(s: State, read: seq<Event>, events: seq<Event>) {
    Sorted(events)
    && forall e :: e in events <==>
         e in read || (e in s.view.events && (e.Optimistic() ==> !Replaced(e, read)))
  }

  lemma MergeKeepsView(s: State, read: seq<Event>, events: seq<Event>)
    requires LogOk(s.log, s.used) && ViewOk(s) && SubLog(read, s.log) && s.view.open
    requires MergedFrom(s, read, events)
    ensures ViewOk(s.(view := WithEvents(s.view, events)))
  {
    var s' := s.(view := WithEvents(s.view, events));
    forall e, x | e in events && e.Optimistic() && x in events && !x.Optimistic()
      ensures x.External() != e.External()
    {
      assert Pending(e, s);
      if x in read { assert x.External() == "" || x.External() in RealExternals(read); }
    }
    forall e | e in events && e.Optimistic() ensures Pending(e, s') {
      assert Pending(e, s);
    }
  }

  lemma ReceiveKeepsView(s: State, read: seq<Event>)
    requires LogOk(s.log, s.used) && ViewOk(s) && SubLog(read, s.log)
    ensures ViewOk(s.(view := Receive(s.view, read)))
    ensures s.view.open ==> MergedFrom(s, read, Receive(s.view, read).events)
  {
    if s.view.open {
      MergeLogPart(s, read);
      MergeKeepsView(s, read, Merged(s.view.events, read));
    }
  }

  lemma ReceiveKeepsInv(s: State, read: seq<Event>)
    requires Inv(s) && SubLog(read, s.log)
    ensures Inv(s.(view := Receive(s.view, read)))
  {
    ReceiveKeepsView(s, read);
    ReadsKept(s, s.(view := Receive(s.view, read)));
  }

  // ------------------------------------------------------------ other steps

  lemma AppendKeepsInv(s: State, e: Event)
    requires Inv(s) && Appendable(s.log, e) && (IsLocal(e.External()) ==> e.External() in s.used)
    ensures Inv(s.(log := s.log + [e]))
  {
    var s' := s.(log := s.log + [e]);
    forall x | x in s.view.events && !x.Optimistic() ensures FromLog(x, s'.log) {
      assert FromLog(x, s.log);
    }
    forall x | x in s.view.events && x.Optimistic() ensures Pending(x, s') {
      assert Pending(x, s);
    }
    forall t | t in s.inflight && s.inflight[t].generation == s.view.generation
      ensures Covers(s'.view.events, s'.log, s'.inflight[t].from - 1)
    {
      assert Covers(s.view.events, s.log, s.inflight[t].from - 1);
    }
  }

  lemma BelowReconcileFrom(s: State, k: nat)
    requires LogOk(s.log, s.used) && ViewOk(s) && 1 <= k < ReconcileFrom(s.view)
    ensures k <= |s.log| && s.log[k - 1] in s.view.events
  {
    var seqs := RealSeqs(s.view.events) - {0};
    assert k in seqs;
    var e :| e in s.view.events && !e.Optimistic() && e.seqNo == k;
    assert FromLog(e, s.log);
  }

  /** Below the least missing number the transcript is complete. */
  lemma ReconcileFromCovers(s: State)
    requires LogOk(s.log, s.used) && ViewOk(s)
    ensures Covers(s.view.events, s.log, ReconcileFrom(s.view) - 1)
  {
    forall k | 0 <= k < ReconcileFrom(s.view) - 1 ensures k < |s.log| && s.log[k] in s.view.events {
      BelowReconcileFrom(s, k + 1);
    }
    if ReconcileFrom(s.view) > 1 { BelowReconcileFrom(s, ReconcileFrom(s.view) - 1); }
  }

  lemma StartReadKeepsInv(s: State)
    requires Inv(s)
    ensures Inv(StartRead(s, ReconcileFrom(s.view)))
  {
    ReconcileFromCovers(s);
    var s' := StartRead(s, ReconcileFrom(s.view));
    forall e | e in s.view.events && e.Optimistic() ensures Pending(e, s') {
      assert Pending(e, s);
    }
  }

  /** Before a send nothing is optimistic, and its new id is nowhere to be seen. */
  lemma IdleView(s: State, id: string)
    requires Inv(s) && !s.view.busy && IsLocal(id) && id !in s.used
    ensures forall e :: e in s.view.events ==> !e.Optimistic() && e.External() != id
    ensures !InLog(s.log, id)
    ensures forall i :: i in s.sends ==> s.sends[i].generation < s.view.generation
  {
    forall e | e in s.view.events ensures !e.Optimistic() && e.External() != id {
      if !e.Optimistic() { assert FromLog(e, s.log); }
    }
  }

  lemma SentKeepsView(s: State, s': State, o: Event)
    requires Inv(s) && s.view.open
    requires forall e :: e in s.view.events ==> !e.Optimistic() && e.External() != o.External()
    requires s'.log == s.log && s'.view.open && Sorted(s'.view.events) && o.Optimistic() && Pending(o, s')
    requires forall e :: e in s'.view.events <==> e in s.view.events || e == o
    requires forall e :: e in s'.view.events ==> e.seqNo <= s'.view.latest
    ensures ViewOk(s')
  {
    forall e | e in s'.view.events && !e.Optimistic() ensures FromLog(e, s'.log) {
      assert FromLog(e, s.log);
    }
  }

  lemma ReadsKept(s: State, s': State)
    requires ReadsOk(s) && s'.log == s.log && s'.view.generation == s.view.generation
    requires forall t :: t in s'.inflight ==> t in s.inflight && s'.inflight[t] == s.inflight[t]
    requires forall e :: e in s.view.events && e in s.log ==> e in s'.view.events
    ensures ReadsOk(s')
  {
    forall t | t in s'.inflight && s'.inflight[t].generation == s'.view.generation
      ensures Covers(s'.view.events, s'.log, s'.inflight[t].from - 1)
    {
      assert Covers(s.view.events, s.log, s.inflight[t].from - 1);
    }
  }

  lemma BeginSendView(v: View, id: string, text: string)
    requires v.open && Sorted(v.events) && forall e :: e in v.events ==> e.seqNo <= v.latest
    ensures var v' := BeginSend(v, id, text);
            var o := OptimisticEvent(FreshSeq(v), id, text);
            && v'.open && v'.busy && v'.generation == v.generation && Sorted(v'.events)
            && (forall e :: e in v'.events <==> e in v.events || e == o)
            && (forall e :: e in v'.events ==> e.seqNo <= v'.latest)
  {
    var o := OptimisticEvent(FreshSeq(v), id, text);
    MergeOptimistic(v.events, o);
    assert BeginSend(v, id, text).events == Merged(v.events, [o]);
  }

  lemma SentSends(s: State, s': State, id: string, send: Send)
    requires SendsOk(s) && IsLocal(id) && s'.sends == s.sends[id := send] && s'.used == s.used + {id}
    requires forall i :: i in s.sends ==> s.sends[i].generation < s.view.generation
    requires s'.view.open && s'.view.busy && send.generation == s'.view.generation == s.view.generation
    ensures SendsOk(s')
  {
  }

  lemma SentStarts(s: State, s': State, id: string, send: Send)
    requires StartsOk(s) && !InLog(s.log, id) && s'.log == s.log
    requires s'.sends == s.sends[id := send] && 1 <= send.from <= |s.log| + 1
    ensures StartsOk(s')
  {
    forall i | i in s'.sends && i != id ensures i in s.sends && s'.sends[i] == s.sends[i] {
    }
  }

  lemma SentView(s: State, id: string, text: string)
    requires Inv(s) && CanSend(s.view, true) && IsLocal(id) && id !in s.used
    ensures var v := Sent(s, id, text).view;
            && ViewOk(Sent(s, id, text)) && v.open && v.busy && v.generation == s.view.generation
            && forall e :: e in s.view.events ==> e in v.events
  {
    var o := OptimisticEvent(FreshSeq(s.view), id, text);
    BeginSendView(s.view, id, text);
    IdleView(s, id);
    SentKeepsView(s, Sent(s, id, text), o);
  }

  lemma SentRest(s: State, id: string, text: string)
    requires Inv(s) && CanSend(s.view, true) && IsLocal(id) && id !in s.used
    ensures SendsOk(Sent(s, id, text)) && StartsOk(Sent(s, id, text))
  {
    var s' := Sent(s, id, text);
    IdleView(s, id);
    ReconcileFromCovers(s);
    SentSends(s, s', id, s'.sends[id]);
    SentStarts(s, s', id, s'.sends[id]);
  }

  lemma SendBegunKeepsInv(s: State, id: string, text: string)
    requires Inv(s) && CanSend(s.view, true) && IsLocal(id) && id !in s.used
    ensures Inv(Sent(s, id, text))
  {
    var s' := Sent(s, id, text);
    SentView(s, id, text);
    ReadsKept(s, s');
    SentRest(s, id, text);
  }

  // ---------------------------------------------------------- settling steps

  /** A settled send leaves the transcript free of its own optimistic entry. */
  lemma ReceiveClears(s: State, e: Event)
    requires Inv(s) && s.view.open && FromLog(e, s.log) && e.External() != ""
    ensures Inv(s.(view := Receive(s.view, [e])))
    ensures forall x :: x in Receive(s.view, [e]).events && x.Optimistic() ==> x.External() != e.External()
    ensures e in Receive(s.view, [e]).events
  {
    assert e in [e];
    assert SubLog([e], s.log);
    ReceiveKeepsInv(s, [e]);
    ReceiveKeepsView(s, [e]);
    assert e.External() in RealExternals([e]);
  }

  /** Moving a send on, once none of the view's entries wait for it. */
  lemma RephaseKeepsInv(s: State, id: string, phase: Phase)
    requires Inv(s) && id in s.sends
    requires phase == Refreshing ==> forall e :: e in s.view.events && e.Optimistic() ==> e.id != id
    ensures Inv(s.(sends := s.sends[id := s.sends[id].(phase := phase)]))
  {
    var s' := s.(sends := s.sends[id := s.sends[id].(phase := phase)]);
    forall e | e in s.view.events && e.Optimistic() ensures Pending(e, s') {
      assert Pending(e, s);
    }
  }

  lemma DropKeepsInv(s: State, id: string)
    requires Inv(s) && id in s.sends
    requires forall e :: e in s.view.events && e.Optimistic() ==> e.id != id
    ensures Inv(s.(view := EndSend(s.view, s.sends[id].generation), sends := s.sends - {id}))
  {
    var s' := s.(view := EndSend(s.view, s.sends[id].generation), sends := s.sends - {id});
    forall e | e in s.view.events && e.Optimistic() ensures Pending(e, s') {
      assert Pending(e, s);
    }
    assert SendsOk(s');
  }

  lemma RemoveKeepsInv(s: State, id: string, text: string)
    requires Inv(s) && IsLocal(id)
    ensures Inv(s.(view := SettleLookup(s.view, id, text, None)))
    ensures forall e :: e in SettleLookup(s.view, id, text, None).events <==> e in s.view.events && e.id != id
  {
    var keep := (e: Event) => e.id != id;
    var s' := s.(view := SettleLookup(s.view, id, text, None));
    assert s'.view.events == Filter(s.view.events, keep);
    FilterSorted(s.view.events, keep);
    forall e | e in s'.view.events && e.Optimistic() ensures Pending(e, s') {
      assert Pending(e, s);
    }
    ReadsKept(s, s');
  }

  lemma SliceAt(log: seq<Event>, from: nat, n: nat, j: nat)
    requires n <= |log| && j < |Slice(log, from, n)|
    ensures var k := (if from == 0 then 0 else from - 1) + j;
            k < n && Slice(log, from, n)[j] == log[k]
  {
  }

  lemma SliceMember(log: seq<Event>, used: set<string>, from: nat, n: nat, k: nat)
    requires LogOk(log, used) && k < n <= |log|
    ensures log[k] in Slice(log, from, n) <==> from <= k + 1
  {
    var read := Slice(log, from, n);
    var first := if from == 0 then 0 else from - 1;
    if from <= k + 1 {
      assert read[k - first] == log[k];
    }
  }

  /** A read returns log events in order. */
  lemma SliceOfLog(log: seq<Event>, used: set<string>, from: nat, n: nat)
    requires LogOk(log, used) && n <= |log|
    ensures SubLog(Slice(log, from, n), log)
  {
    var read := Slice(log, from, n);
    var first := if from == 0 then 0 else from - 1;
    forall j | 0 <= j < |read| ensures first + j < n && read[j] == log[first + j] && read[j].seqNo == first + j + 1 {
      SliceAt(log, from, n, j);
    }
  }

  lemma LogEntry(log: seq<Event>, used: set<string>, k: nat)
    requires LogOk(log, used) && 1 <= k <= |log|
    ensures SubLog([log[k - 1]], log)
  {
  }

  lemma SettleKeepsInv(s: State, id: string, found: Option<Event>)
    requires Inv(s) && id in s.sends
    requires found.Some? ==> FromLog(found.value, s.log) && found.value.External() == id
    ensures Inv(SettleSend(s, id, found))
  {
    var seen := s.(view := SettleLookup(s.view, id, s.sends[id].text, found));
    if found.Some? {
      if s.view.open { ReceiveClears(s, found.value); }
      assert Inv(seen);
      forall e | e in seen.view.events && e.Optimistic() ensures e.id != id { assert Pending(e, seen); }
      RephaseKeepsInv(seen, id, Refreshing);
    } else {
      RemoveKeepsInv(s, id, s.sends[id].text);
      DropKeepsInv(seen, id);
    }
  }

  lemma AckKeepsInv(s: State, id: string)
    requires Inv(s) && Enabled(s, SendAcked(id))
    ensures Inv(Apply(s, SendAcked(id)))
  {
    var e := FindExternal(s.log, id).value;
    assert FromLog(e, s.log);
    if Live(s, id) {
      ReceiveClears(s, e);
      var seen := s.(view := Receive(s.view, [e]));
      forall x | x in seen.view.events && x.Optimistic() ensures x.id != id { assert Pending(x, seen); }
      RephaseKeepsInv(seen, id, Refreshing);
    } else {
      StaleDropKeepsInv(s, id);
    }
  }

  lemma StaleDropKeepsInv(s: State, id: string)
    requires Inv(s) && id in s.sends && !Live(s, id)
    ensures Inv(s.(sends := s.sends - {id}))
  {
    forall e | e in s.view.events && e.Optimistic() ensures e.id != id { assert Pending(e, s); }
    DropKeepsInv(s, id);
  }

  lemma SummariseKeepsInv(s: State, n: nat)
    requires Inv(s)
    ensures Inv(s.(view := Summarise(s.view, n)))
  {
    var s' := s.(view := Summarise(s.view, n));
    forall e | e in s.view.events && e.Optimistic() ensures Pending(e, s') { assert Pending(e, s); }
    ReadsKept(s, s');
  }

  lemma PushKeepsInv(s: State, event: Event, mounted: bool)
    requires Inv(s) && SubLog([event], s.log)
    ensures Inv(Pushed(s, event, mounted))
  {
    if s.view.open && Gap(s.view, event, mounted) {
      StartReadKeepsInv(s);
      ReceiveKeepsInv(StartRead(s, ReconcileFrom(s.view)), [event]);
    } else {
      ReceiveKeepsInv(s, [event]);
    }
  }

  lemma ApplyPush(s: State, k: nat, mounted: bool)
    requires 1 <= k <= |s.log|
    ensures Apply(s, PushDelivered(k, mounted)) == Pushed(s, s.log[k - 1], mounted)
  {
  }

  lemma PushStepKeepsInv(s: State, k: nat, mounted: bool)
    requires Inv(s) && 1 <= k <= |s.log|
    ensures Inv(Apply(s, PushDelivered(k, mounted)))
  {
    LogEntry(s.log, s.used, k);
    PushKeepsInv(s, s.log[k - 1], mounted);
    ApplyPush(s, k, mounted);
  }

  lemma ReadKeepsInv(s: State, ticket: nat, n: nat)
    requires Inv(s) && ticket in s.inflight && n <= |s.log|
    ensures Inv(Apply(s, ReadDelivered(ticket, n)))
  {
    var read := Slice(s.log, s.inflight[ticket].from, n);
    SliceOfLog(s.log, s.used, s.inflight[ticket].from, n);
    ReceiveKeepsInv(s, read);
    var s1 := s.(view := Receive(s.view, read));
    SlotFree(s1, ticket);
  }

  lemma SlotFree(s: State, ticket: nat)
    requires Inv(s)
    ensures Inv(s.(view := FreeSlot(s.view, ticket), inflight := s.inflight - {ticket}))
  {
    var s' := s.(view := FreeSlot(s.view, ticket), inflight := s.inflight - {ticket});
    forall e | e in s.view.events && e.Optimistic() ensures Pending(e, s') { assert Pending(e, s); }
  }

  lemma LoadKeepsInv(s: State)
    requires Inv(s)
    ensures Inv(Apply(s, LoadStarted))
  {
    var s' := Apply(s, LoadStarted);
    forall e | e in s.view.events && e.Optimistic() ensures Pending(e, s') { assert Pending(e, s); }
  }

  lemma RefreshedKeepsInv(s: State, id: string, serverLatest: Option<nat>)
    requires Inv(s) && Enabled(s, SendRefreshed(id, serverLatest))
    ensures Inv(Apply(s, SendRefreshed(id, serverLatest)))
  {
    var s1 := if serverLatest.Some? then s.(view := Summarise(s.view, serverLatest.value)) else s;
    if serverLatest.Some? { SummariseKeepsInv(s, serverLatest.value); }
    forall e | e in s1.view.events && e.Optimistic() ensures e.id != id { assert Pending(e, s1); }
    DropKeepsInv(s1, id);
  }

  predicate SendStep(a: Action) {
    a.SendBegun? || a.SendAcked? || a.SendErrored? || a.LookupDelivered? || a.LookupErrored? || a.SendRefreshed?
  }

  lemma SendStepKeepsInv(s: State, a: Action)
    requires Inv(s) && Enabled(s, a) && SendStep(a)
    ensures Inv(Apply(s, a))
  {
    match a {
      case SendBegun(id, text, _) => SendBegunKeepsInv(s, id, text);
      case SendAcked(id) => AckKeepsInv(s, id);
      case SendErrored(id) =>
        if Live(s, id) { RephaseKeepsInv(s, id, LookingUp); } else { StaleDropKeepsInv(s, id); }
      case LookupDelivered(id, n) =>
        SliceOfLog(s.log, s.used, s.sends[id].from, n);
        SettleKeepsInv(s, id, FindExternal(Slice(s.log, s.sends[id].from, n), id));
      case LookupErrored(id) => SettleKeepsInv(s, id, None);
      case SendRefreshed(id, serverLatest) => RefreshedKeepsInv(s, id, serverLatest);
    }
  }

  lemma OtherStepKeepsInv(s: State, a: Action)
    requires Inv(s) && Enabled(s, a) && !SendStep(a)
    ensures Inv(Apply(s, a))
  {
    match a {
      case ServerAppend(e) => AppendKeepsInv(s, e);
      case ServerAccept(_, e) => AppendKeepsInv(s, e);
      case PushDelivered(k, mounted) => PushStepKeepsInv(s, k, mounted);
      case SocketOpened(mounted) => if mounted { StartReadKeepsInv(s); }
      case LoadStarted => LoadKeepsInv(s);
      case ReadDelivered(ticket, n) => ReadKeepsInv(s, ticket, n);
      case ReadFailed(ticket) => SlotFree(s, ticket);
      case SummaryDelivered(n) => SummariseKeepsInv(s, n);
      case ViewDestroyed =>
      case ViewOpened(n) =>
    }
  }

  lemma StepKeepsInv(s: State, a: Action)
    requires Inv(s) && Enabled(s, a)
    ensures Inv(Apply(s, a))
  {
    if SendStep(a) { SendStepKeepsInv(s, a); } else { OtherStepKeepsInv(s, a); }
  }
}
