/**
 What each step of the terminal protocol does to the view, said of the log, the
 transcript and the sends alone: which events enter, which leave, and what the
 latest number, the draft, the busy flag and the request slot become.
 */
module TerminalEffects {
  import opened Options
  import opened TerminalEvents
  import opened TerminalClient
  import opened TerminalProtocol
  import opened TerminalRuns

  /** The event is one of the log's, numbered above `low` and up to `high`. */
  predicate Among(e: Event, log: seq<Event>, low: nat, high: nat) {
    low < e.seqNo <= high && FromLog(e, log)
  }

  /** The j-th log event has the entry's number or its external id. */
  predicate AnsweredAt(e: Event, log: seq<Event>, j: nat) {
    j < |log| && (j + 1 == e.seqNo || log[j].External() == e.External())
  }

  /** One of those log events answers the entry. */
  ghost predicate Answered(e: Event, log: seq<Event>, low: nat, high: nat) {
    exists j: nat :: low <= j < high && AnsweredAt(e, log, j)
  }

  /** Those log events are in, every real entry is still there, and so is an optimistic one unless answered. */
  ghost predicate TookIn(s: State, events: seq<Event>, low: nat, high: nat) {
    && Sorted(events)
    && forall e :: e in events <==>
         Among(e, s.log, low, high) || (e in s.view.events && (e.Optimistic() ==> !Answered(e, s.log, low, high)))
  }

  /** The greater of `floor` and all numbers shown. */
  ghost predicate LatestIs(latest: nat, events: seq<Event>, floor: nat) {
    && floor <= latest && (forall e :: e in events ==> e.seqNo <= latest)
    && (latest == floor || exists e :: e in events && e.seqNo == latest)
  }

  /** An open view took in the log's events above `low` up to `high`; a closed one took in nothing. */
  ghost predicate Received(s: State, view: View, low: nat, high: nat) {
    && view == s.view.(events := view.events, latest := view.latest, slot := view.slot)
    && (s.view.open ==> TookIn(s, view.events, low, high) && LatestIs(view.latest, view.events, s.view.latest))
    && (!s.view.open ==> view.events == s.view.events && view.latest == s.view.latest)
  }

  lemma ReplacedIsAnswered(s: State, read: seq<Event>, low: nat, high: nat, e: Event)
    requires Inv(s) && SubLog(read, s.log) && (forall x :: x in read <==> Among(x, s.log, low, high))
    requires e in s.view.events && e.Optimistic()
    ensures Replaced(e, read) <==> Answered(e, s.log, low, high)
  {
    assert Pending(e, s);
    if Answered(e, s.log, low, high) {
      var j: nat :| low <= j < high && AnsweredAt(e, s.log, j);
      assert s.log[j].seqNo == j + 1 && Among(s.log[j], s.log, low, high);
      assert s.log[j] in read && !s.log[j].Optimistic();
    }
    if Replaced(e, read) {
      var r :| r in read && !r.Optimistic() && (r.seqNo == e.seqNo || r.External() == e.External());
      assert Among(r, s.log, low, high) && AnsweredAt(e, s.log, r.seqNo - 1);
    }
  }

  lemma ReceivedIs(s: State, read: seq<Event>, low: nat, high: nat)
    requires Inv(s) && SubLog(read, s.log) && (forall x :: x in read <==> Among(x, s.log, low, high))
    ensures Received(s, Receive(s.view, read), low, high)
  {
    ReceiveKeepsView(s, read);
    forall e | e in s.view.events && e.Optimistic() ensures Replaced(e, read) <==> Answered(e, s.log, low, high) {
      ReplacedIsAnswered(s, read, low, high, e);
    }
  }

  lemma OneReceived(s: State, k: nat)
    requires Inv(s) && 1 <= k <= |s.log|
    ensures Received(s, Receive(s.view, [s.log[k - 1]]), k - 1, k)
  {
    LogEntry(s.log, s.used, k);
    assert s.log[k - 1].seqNo == k;
    ReceivedIs(s, [s.log[k - 1]], k - 1, k);
  }

  lemma PushedIs(s: State, event: Event, mounted: bool)
    ensures var s' := Pushed(s, event, mounted);
            && s'.view == Receive(s.view, [event]).(slot := s'.view.slot) && s'.sends == s.sends && s'.log == s.log
            && (!s.view.open ==> s' == s)
  {
  }

  /** A push of the k-th event takes in that event. */
  lemma PushTakesIn(s: State, k: nat, mounted: bool)
    requires Reachable(s) && 1 <= k <= |s.log|
    ensures var s' := Apply(s, PushDelivered(k, mounted));
            && Received(s, s'.view, k - 1, k) && s'.sends == s.sends && s'.log == s.log
            && (!s.view.open ==> s' == s)
  {
    ReachableInv(s);
    OneReceived(s, k);
    PushedIs(s, s.log[k - 1], mounted);
    ApplyPush(s, k, mounted);
  }

  lemma SliceIsAmong(s: State, from: nat, n: nat, x: Event)
    requires Inv(s) && 1 <= from && n <= |s.log|
    ensures x in Slice(s.log, from, n) <==> Among(x, s.log, from - 1, n)
  {
    SliceOfLog(s.log, s.used, from, n);
    if x in Slice(s.log, from, n) {
      var j :| 0 <= j < |Slice(s.log, from, n)| && Slice(s.log, from, n)[j] == x;
      SliceAt(s.log, from, n, j);
    }
    if Among(x, s.log, from - 1, n) { SliceMember(s.log, s.used, from, n, x.seqNo - 1); }
  }

  /** However a request ends, it is no longer in flight, and the slot is free if it held that request. */
  ghost predicate ReadEnds(s: State, s': State, ticket: nat) {
    && s'.inflight == s.inflight - {ticket} && s'.sends == s.sends && s'.log == s.log && s'.tickets == s.tickets
    && s'.view.slot == (if s.view.slot.Some? && s.view.slot.value.ticket == ticket then None else s.view.slot)
  }

  lemma SliceReceived(s: State, from: nat, n: nat)
    requires Inv(s) && 1 <= from && n <= |s.log|
    ensures Received(s, Receive(s.view, Slice(s.log, from, n)), from - 1, n)
  {
    SliceOfLog(s.log, s.used, from, n);
    forall x ensures x in Slice(s.log, from, n) <==> Among(x, s.log, from - 1, n) { SliceIsAmong(s, from, n, x); }
    ReceivedIs(s, Slice(s.log, from, n), from - 1, n);
  }

  lemma ReadIs(s: State, ticket: nat, n: nat)
    requires Enabled(s, ReadDelivered(ticket, n))
    ensures var s' := Apply(s, ReadDelivered(ticket, n));
            && ReadEnds(s, s', ticket)
            && s'.view == Receive(s.view, Slice(s.log, s.inflight[ticket].from, n)).(slot := s'.view.slot)
  {
  }

  /** A reply takes in what the log held from the start of the request on. */
  lemma ReadTakesIn(s: State, ticket: nat, n: nat)
    requires Reachable(s) && ticket in s.inflight && n <= |s.log|
    ensures var s', from := Apply(s, ReadDelivered(ticket, n)), s.inflight[ticket].from;
            from >= 1 && Received(s, s'.view, from - 1, n) && ReadEnds(s, s', ticket)
  {
    ReachableInv(s);
    SliceReceived(s, s.inflight[ticket].from, n);
    ReadIs(s, ticket, n);
  }

  /** A failed read takes in nothing. */
  lemma ReadFails(s: State, ticket: nat)
    requires ticket in s.inflight
    ensures var s' := Apply(s, ReadFailed(ticket)); ReadEnds(s, s', ticket) && s'.view == s.view.(slot := s'.view.slot)
  {
  }

  /** The optimistic entry shown for input that is on its way. */
  predicate ShowsInput(e: Event, id: string, text: string) {
    && e.Optimistic() && e.id == id && e.External() == id
    && "payload_inline" in e.attrs && e.attrs["payload_inline"] == text
  }

  /** `e` was added, above everything shown or known. */
  ghost predicate Added(v: View, view: View, e: Event) {
    && e.seqNo == view.latest == v.latest + 1
    && (forall x :: x in v.events ==> x.seqNo < e.seqNo)
    && (forall x :: x in view.events <==> x in v.events || x == e)
  }

  /** Sending empties the draft, makes the view busy and adds one entry for the input, above everything else. */
  lemma SendShows(s: State, id: string, text: string, usable: bool)
    requires Reachable(s) && Enabled(s, SendBegun(id, text, usable))
    ensures usable && s.view.open && !s.view.busy
    ensures var view := Apply(s, SendBegun(id, text, usable)).view;
            && view == s.view.(events := view.events, latest := view.latest, busy := true, draft := "")
            && exists e :: ShowsInput(e, id, text) && Added(s.view, view, e)
  {
    ReachableInv(s);
    BeginSendShows(s.view, id, text);
  }

  lemma BeginSendShows(v: View, id: string, text: string)
    requires v.open && Sorted(v.events) && forall e :: e in v.events ==> e.seqNo <= v.latest
    ensures var view := BeginSend(v, id, text);
            && view == v.(events := view.events, latest := view.latest, busy := true, draft := "")
            && exists e :: ShowsInput(e, id, text) && Added(v, view, e)
  {
    var e := OptimisticEvent(FreshSeq(v), id, text);
    MergeOptimistic(v.events, e);
    assert ShowsInput(e, id, text) && Added(v, BeginSend(v, id, text), e);
  }

  lemma SentRecord(s: State, id: string, text: string)
    requires forall e :: e in s.view.events ==> e.seqNo <= s.view.latest
    ensures var s' := Sent(s, id, text);
            && s' == s.(view := s'.view, sends := s'.sends, used := s.used + {id})
            && s'.sends
               == s.sends[id := Send(text, ReconcileFrom(s.view), s.view.latest + 1, s.view.generation, Posting)]
  {
  }

  /** The send remembers its text, its view, its entry's number and where its failure-path lookup must start. */
  lemma SendRemembers(s: State, id: string, text: string, usable: bool) returns (from: nat)
    requires Reachable(s) && Enabled(s, SendBegun(id, text, usable))
    ensures FirstMissing(s, from)
    ensures var s' := Apply(s, SendBegun(id, text, usable));
            && s' == s.(view := s'.view, sends := s'.sends, used := s.used + {id})
            && s'.sends == s.sends[id := Send(text, from, s.view.latest + 1, s.view.generation, Posting)]
  {
    ReachableInv(s);
    StartIsFirstMissing(s);
    from := ReconcileFrom(s.view);
    SentRecord(s, id, text);
    assert Apply(s, SendBegun(id, text, usable)) == Sent(s, id, text);
  }

  /** The log's event with an external id, by number. */
  ghost predicate CarriedAt(log: seq<Event>, id: string, k: nat) {
    1 <= k <= |log| && log[k - 1].External() == id
  }

  lemma FoundAt(s: State, read: seq<Event>, id: string) returns (k: nat)
    requires Inv(s) && SubLog(read, s.log) && FindExternal(read, id).Some?
    ensures CarriedAt(s.log, id, k) && FindExternal(read, id).value == s.log[k - 1]
  {
    k := FindExternal(read, id).value.seqNo;
  }

  /** An acknowledgement reaches only the view that sent: it takes in the server's event, and refreshes the summary. */
  lemma AckTakesIn(s: State, id: string) returns (k: nat)
    requires Reachable(s) && Enabled(s, SendAcked(id))
    ensures CarriedAt(s.log, id, k)
    ensures var s', send := Apply(s, SendAcked(id)), s.sends[id];
            && s'.log == s.log && s'.inflight == s.inflight && s'.view.slot == s.view.slot
            && if s.view.open && send.generation == s.view.generation
               then Received(s, s'.view, k - 1, k) && s'.sends == s.sends[id := send.(phase := Refreshing)]
               else s'.view == s.view && s'.sends == s.sends - {id}
  {
    ReachableInv(s);
    WholeLog(s);
    k := FoundAt(s, s.log, id);
    OneReceived(s, k);
  }

  lemma WholeLog(s: State)
    requires Inv(s)
    ensures SubLog(s.log, s.log)
  {
  }

  /** A failed send is looked up by the view that sent, and is otherwise forgotten; the view stays as it is. */
  lemma ErrorLooksUp(s: State, id: string)
    requires Enabled(s, SendErrored(id))
    ensures var s', send := Apply(s, SendErrored(id)), s.sends[id];
            && s' == s.(sends := s'.sends)
            && s'.sends == if s.view.open && send.generation == s.view.generation
                           then s.sends[id := send.(phase := LookingUp)] else s.sends - {id}
  {
  }

  /** Only the view that sent stops being busy. */
  predicate EndsBusy(s: State, view: View, generation: nat) {
    view.busy == (s.view.busy && !(s.view.open && s.view.generation == generation))
  }

  /** A lookup whose answer shows the input takes in the server's event, and refreshes the summary. */
  lemma LookupTakesIn(s: State, a: Action, id: string) returns (k: nat)
    requires Reachable(s) && Enabled(s, a) && LooksUp(a, id) && Shows(s, a, id)
    ensures CarriedAt(s.log, id, k)
    ensures var s' := Apply(s, a);
            && s' == s.(view := s'.view, sends := s.sends[id := s.sends[id].(phase := Refreshing)])
            && Received(s, s'.view, k - 1, k) && s'.view.slot == s.view.slot
  {
    ReachableInv(s);
    LookupFinds(s, id, a.n);
    SliceOfLog(s.log, s.used, s.sends[id].from, a.n);
    k := FoundAt(s, Slice(s.log, s.sends[id].from, a.n), id);
    OneReceived(s, k);
  }

  /** Nothing of the view is lost but the input's optimistic entry; its text is back in the draft. */
  ghost predicate GaveBack(s: State, view: View, id: string)
    requires id in s.sends
  {
    && view == s.view.(events := view.events, draft := s.sends[id].text, busy := view.busy)
    && EndsBusy(s, view, s.sends[id].generation)
    && (forall e :: e in view.events <==> e in s.view.events && !(e.Optimistic() && e.id == id))
  }

  /** A lookup that fails, or whose answer lacks the input, gives the text back and ends the send. */
  lemma LookupGivesBack(s: State, a: Action, id: string)
    requires Reachable(s) && Enabled(s, a) && LooksUp(a, id) && !Shows(s, a, id)
    ensures var s' := Apply(s, a); s' == s.(view := s'.view, sends := s.sends - {id}) && GaveBack(s, s'.view, id)
  {
    ReachableInv(s);
    if a.LookupDelivered? { LookupFinds(s, id, a.n); }
    RemovalIs(s, id);
  }

  lemma RemovalIs(s: State, id: string)
    requires Inv(s) && id in s.sends
    ensures GaveBack(s, SettleSend(s, id, None).view, id)
  {
    forall e | e in s.view.events && !e.Optimistic() ensures e.id != id { assert FromLog(e, s.log); }
  }

  /** A summary sets an open view's latest number to the server's, raised over what is shown, and nothing else. */
  ghost predicate Summarised(v: View, view: View, serverLatest: nat) {
    && view == v.(latest := view.latest)
    && (v.open ==> LatestIs(view.latest, v.events, serverLatest)) && (!v.open ==> view == v)
  }

  lemma SummaryRaises(s: State, n: nat)
    requires Reachable(s)
    ensures var s' := Apply(s, SummaryDelivered(n)); s' == s.(view := s'.view) && Summarised(s.view, s'.view, n)
  {
    ReachableInv(s);
  }

  /** The refresh after a send ends it, whether or not its summary came. */
  lemma RefreshEnds(s: State, id: string, serverLatest: Option<nat>)
    requires Reachable(s) && Enabled(s, SendRefreshed(id, serverLatest))
    ensures var s' := Apply(s, SendRefreshed(id, serverLatest));
            && s' == s.(view := s'.view, sends := s.sends - {id}) && EndsBusy(s, s'.view, s.sends[id].generation)
            && (serverLatest.None? ==> s'.view == s.view.(busy := s'.view.busy))
            && (serverLatest.Some? ==> Summarised(s.view, s'.view.(busy := s.view.busy), serverLatest.value))
  {
    ReachableInv(s);
  }

  /**
   A teardown leaves a closed, empty, idle view of the next generation; an opened one
   starts empty on the server's latest number.  What is under way goes on.
   */
  lemma ViewsComeAndGo(s: State, n: nat)
    requires Reachable(s)
    ensures var s' := Apply(s, ViewDestroyed);
            s' == s.(view := View(false, [], 0, false, "", s.view.generation + 1, None))
    ensures !s.view.open ==> var s' := Apply(s, ViewOpened(n));
            && s' == s.(view := s'.view) && s'.view.open && s'.view.events == [] && s'.view.latest == n && !s'.view.busy
            && s'.view.generation == s.view.generation
  {
    ReachableInv(s);
  }

  /** What the server does to its log no view notices; the first load of an open view reads everything. */
  lemma OthersIdle(s: State, a: Action)
    requires Enabled(s, a)
    ensures a.ServerAppend? || a.ServerAccept? ==> Apply(s, a) == s.(log := s.log + [a.event])
    ensures a == LoadStarted ==>
              Apply(s, a) == if s.view.open then s.(inflight := s.inflight[s.tickets := Read(1, s.view.generation)],
                                                    tickets := s.tickets + 1) else s
    ensures a == SocketOpened(false) || (a == SocketOpened(true) && !s.view.open) ==>
              Apply(s, a) == s.(tickets := Apply(s, a).tickets)
  {
  }
}
