/**
 What holds in every state of every run of the terminal protocol: the transcript,
 optimistic input, reads and their replies, and the settling of sends.
 */
module TerminalRuns {
  import opened Options
  import opened TerminalEvents
  import opened TerminalClient
  import opened TerminalProtocol

  lemma {:induction false} RunKeepsInv(s: State, run: seq<Action>)
    requires Inv(s) && Allowed(s, run)
    ensures Inv(Run(s, run))
    decreases |run|
  {
    if run != [] {
      StepKeepsInv(s, run[0]);
      RunKeepsInv(Apply(s, run[0]), run[1..]);
    }
  }

  ghost predicate Reachable(s: State) {
    exists run :: Allowed(Initial, run) && Run(Initial, run) == s
  }

  lemma ReachableInv(s: State)
    requires Reachable(s)
    ensures Inv(s)
  {
    var run :| Allowed(Initial, run) && Run(Initial, run) == s;
    RunKeepsInv(Initial, run);
  }

  lemma {:induction false} RunSnoc(s: State, run: seq<Action>, a: Action)
    requires Allowed(s, run) && Enabled(Run(s, run), a)
    ensures Allowed(s, run + [a]) && Run(s, run + [a]) == Apply(Run(s, run), a)
    decreases |run|
  {
    if run == [] {
      assert run + [a] == [a];
      assert Run(Apply(s, a), []) == Apply(s, a);
    } else {
      assert (run + [a])[1..] == run[1..] + [a];
      RunSnoc(Apply(s, run[0]), run[1..], a);
    }
  }

  lemma ReachableStep(s: State, a: Action)
    requires Reachable(s) && Enabled(s, a)
    ensures Reachable(Apply(s, a))
  {
    var run :| Allowed(Initial, run) && Run(Initial, run) == s;
    RunSnoc(Initial, run, a);
  }

  lemma ReachableInitial()
    ensures Reachable(Initial)
  {
    assert Allowed(Initial, []) && Run(Initial, []) == Initial;
  }

  /** No external id is shown twice. */
  ghost predicate ExternalsDistinct(events: seq<Event>) {
    forall i, j :: 0 <= i < j < |events| && events[i].External() != "" ==> events[i].External() != events[j].External()
  }

  lemma RealExternalsDistinct(s: State, x: Event, y: Event)
    requires Inv(s) && x in s.view.events && y in s.view.events && x.seqNo < y.seqNo
    ensures x.External() == "" || x.External() != y.External()
  {
    if !x.Optimistic() && !y.Optimistic() {
      assert FromLog(x, s.log) && FromLog(y, s.log);
    }
  }

  /** The transcript in every state of every run. */
  lemma TranscriptFaithful(s: State)
    requires Reachable(s)
    ensures Sorted(s.view.events)
    ensures forall e :: e in s.view.events && !e.Optimistic() ==> FromLog(e, s.log)
    ensures ExternalsDistinct(s.view.events)
  {
    ReachableInv(s);
    var events := s.view.events;
    forall i, j | 0 <= i < j < |events| && events[i].External() != ""
      ensures events[i].External() != events[j].External()
    {
      RealExternalsDistinct(s, events[i], events[j]);
    }
  }

  /** What a user may see of unsent input, in every state of every run. */
  lemma OptimisticDiscipline(s: State)
    requires Reachable(s)
    ensures forall e, x :: e in s.view.events && e.Optimistic() && x in s.view.events && x.Optimistic() ==> e == x
    ensures (exists e :: e in s.view.events && e.Optimistic()) ==> s.view.open && s.view.busy
    ensures forall e :: e in s.view.events ==> e.seqNo < FreshSeq(s.view)
  {
    ReachableInv(s);
    if e :| e in s.view.events && e.Optimistic() {
      assert Pending(e, s);
    }
  }

  lemma ReceiveKeepsReal(s: State, read: seq<Event>, e: Event)
    requires Inv(s) && SubLog(read, s.log) && e in s.view.events && !e.Optimistic()
    ensures e in Receive(s.view, read).events
  {
    ReceiveKeepsView(s, read);
  }

  lemma SettleKeepsReal(s: State, id: string, found: Option<Event>, e: Event)
    requires Inv(s) && id in s.sends && e in s.view.events && !e.Optimistic()
    requires found.Some? ==> FromLog(found.value, s.log)
    ensures e in SettleSend(s, id, found).view.events
  {
    if found.Some? {
      ReceiveKeepsReal(s, [found.value], e);
    } else {
      assert FromLog(e, s.log);
      RemoveKeepsInv(s, id, s.sends[id].text);
    }
  }

  /** Opening a reconcile does not change what a push does to the transcript. */
  lemma PushEvents(v: View, event: Event, mounted: bool, ticket: nat)
    ensures Push(v, event, mounted, ticket).events == Receive(v, [event]).events
  {
  }

  lemma PushedKeepsReal(s: State, event: Event, mounted: bool, e: Event)
    requires Inv(s) && SubLog([event], s.log) && e in s.view.events && !e.Optimistic()
    ensures e in Pushed(s, event, mounted).view.events
  {
    PushEvents(s.view, event, mounted, s.tickets);
    ReceiveKeepsReal(s, [event], e);
  }

  lemma PushKeepsReal(s: State, k: nat, mounted: bool, e: Event)
    requires Inv(s) && 1 <= k <= |s.log| && e in s.view.events && !e.Optimistic()
    ensures e in Apply(s, PushDelivered(k, mounted)).view.events
  {
    LogEntry(s.log, s.used, k);
    PushedKeepsReal(s, s.log[k - 1], mounted, e);
    ApplyPush(s, k, mounted);
  }

  predicate TouchesTranscript(a: Action) {
    a.PushDelivered? || a.ReadDelivered? || a.SendBegun? || a.SendAcked? || a.LookupDelivered? || a.LookupErrored?
    || a.ViewDestroyed?
  }

  lemma OtherStepsKeepEvents(s: State, a: Action)
    requires Enabled(s, a) && !TouchesTranscript(a)
    ensures Apply(s, a).view.events == s.view.events
  {
  }

  lemma ReadKeepsReal(s: State, ticket: nat, n: nat, e: Event)
    requires Inv(s) && Enabled(s, ReadDelivered(ticket, n)) && e in s.view.events && !e.Optimistic()
    ensures e in Apply(s, ReadDelivered(ticket, n)).view.events
  {
    SliceOfLog(s.log, s.used, s.inflight[ticket].from, n);
    ReceiveKeepsReal(s, Slice(s.log, s.inflight[ticket].from, n), e);
  }

  lemma LookupKeepsReal(s: State, id: string, n: nat, e: Event)
    requires Inv(s) && Enabled(s, LookupDelivered(id, n)) && e in s.view.events && !e.Optimistic()
    ensures e in Apply(s, LookupDelivered(id, n)).view.events
  {
    SliceOfLog(s.log, s.used, s.sends[id].from, n);
    SettleKeepsReal(s, id, FindExternal(Slice(s.log, s.sends[id].from, n), id), e);
  }

  lemma AckKeepsReal(s: State, id: string, e: Event)
    requires Inv(s) && Enabled(s, SendAcked(id)) && e in s.view.events && !e.Optimistic()
    ensures e in Apply(s, SendAcked(id)).view.events
  {
    ReceiveKeepsReal(s, [FindExternal(s.log, id).value], e);
  }

  lemma StepKeepsReal(s: State, a: Action, e: Event)
    requires Inv(s) && Enabled(s, a) && a != ViewDestroyed
    requires e in s.view.events && !e.Optimistic()
    ensures e in Apply(s, a).view.events
  {
    if !TouchesTranscript(a) {
      OtherStepsKeepEvents(s, a);
    } else {
      match a {
        case PushDelivered(k, mounted) => PushKeepsReal(s, k, mounted, e);
        case ReadDelivered(ticket, n) => ReadKeepsReal(s, ticket, n, e);
        case SendBegun(id, text, _) => BeginSendView(s.view, id, text);
        case SendAcked(id) => AckKeepsReal(s, id, e);
        case LookupDelivered(id, n) => LookupKeepsReal(s, id, n, e);
        case LookupErrored(id) => SettleKeepsReal(s, id, None, e);
      }
    }
  }

  /** As long as the view is not torn down, no real entry is ever lost. */
  lemma {:induction false} RealNeverLost(s: State, run: seq<Action>, e: Event)
    requires Inv(s) && Allowed(s, run) && ViewDestroyed !in run
    requires e in s.view.events && !e.Optimistic()
    ensures e in Run(s, run).view.events
    decreases |run|
  {
    if run != [] {
      StepKeepsInv(s, run[0]);
      StepKeepsReal(s, run[0], e);
      RealNeverLost(Apply(s, run[0]), run[1..], e);
    }
  }

  /**
   A reply to a read that saw `n` log entries leaves 1..n present exactly when
   nothing was missing below the read's start.
   */
  lemma ReplyCompletesIff(s: State, ticket: nat, n: nat)
    requires Reachable(s) && Enabled(s, ReadDelivered(ticket, n)) && s.view.open
    ensures Covers(Apply(s, ReadDelivered(ticket, n)).view.events, s.log, n)
            <==> forall k :: 0 <= k < n && k + 1 < s.inflight[ticket].from ==> s.log[k] in s.view.events
  {
    ReachableInv(s);
    var from := s.inflight[ticket].from;
    var read := Slice(s.log, from, n);
    SliceOfLog(s.log, s.used, from, n);
    ReceiveKeepsView(s, read);
    var after := Receive(s.view, read).events;
    forall k | 0 <= k < n ensures s.log[k] in after <==> s.log[k] in s.view.events || from <= k + 1 {
      SliceMember(s.log, s.used, from, n, k);
    }
    assert Apply(s, ReadDelivered(ticket, n)).view.events == after;
  }

  /** A reconcile reply that comes back to the view that asked always completes it. */
  lemma ReplyCompletes(s: State, ticket: nat, n: nat)
    requires Reachable(s) && Enabled(s, ReadDelivered(ticket, n)) && s.view.open
    requires s.inflight[ticket].generation == s.view.generation
    ensures Covers(Apply(s, ReadDelivered(ticket, n)).view.events, s.log, n)
  {
    ReachableInv(s);
    ReplyCompletesIff(s, ticket, n);
  }

  /** The start saved before a send is at or below the input's place in the log. */
  lemma StartNotAboveInput(s: State, id: string, i: nat)
    requires Reachable(s) && id in s.sends && i < |s.log| && s.log[i].External() == id
    ensures 1 <= s.sends[id].from <= s.log[i].seqNo
  {
    ReachableInv(s);
  }

  /**
   Failure-path lookup: the draft comes back exactly when the log that was read
   lacks the input; otherwise the input is found, and an open view shows the
   server's event and no optimistic entry for it.
   */
  lemma LookupDecides(s: State, id: string, n: nat)
    requires Reachable(s) && Enabled(s, LookupDelivered(id, n))
    ensures var s' := Apply(s, LookupDelivered(id, n));
            && (id !in s'.sends <==> !InLog(s.log[..n], id))
            && (!InLog(s.log[..n], id) ==> s'.view.draft == s.sends[id].text)
            && (InLog(s.log[..n], id) ==> s'.view.draft == s.view.draft)
            && (InLog(s.log[..n], id) && s.view.open ==>
                  exists e :: e in s'.view.events && e.External() == id && FromLog(e, s.log))
            && (forall e :: e in s'.view.events && e.Optimistic() ==> e.id != id)
  {
    ReachableInv(s);
    LookupFinds(s, id, n);
    SettleDecides(s, id, FindExternal(Slice(s.log, s.sends[id].from, n), id));
  }

  /** The read from the saved start finds the input exactly when the log that was read holds it. */
  lemma LookupFinds(s: State, id: string, n: nat)
    requires Inv(s) && id in s.sends && n <= |s.log|
    ensures var found := FindExternal(Slice(s.log, s.sends[id].from, n), id);
            && (found.Some? <==> InLog(s.log[..n], id))
            && (found.Some? ==> FromLog(found.value, s.log) && found.value.External() == id)
  {
    FindInSlice(s.log, s.used, s.sends[id].from, n, id);
  }

  lemma FindInSlice(log: seq<Event>, used: set<string>, from: nat, n: nat, id: string)
    requires LogOk(log, used) && n <= |log| && 1 <= from
    requires forall i :: 0 <= i < |log| && log[i].External() == id ==> from <= i + 1
    ensures var found := FindExternal(Slice(log, from, n), id);
            && (found.Some? <==> InLog(log[..n], id))
            && (found.Some? ==> FromLog(found.value, log) && found.value.External() == id)
  {
    SliceOfLog(log, used, from, n);
    if i :| 0 <= i < n && log[..n][i].External() == id { SliceMember(log, used, from, n, i); }
    var found := FindExternal(Slice(log, from, n), id);
    if found.Some? { SliceInLog(log, from, n, found.value); }
  }

  lemma SliceInLog(log: seq<Event>, from: nat, n: nat, e: Event)
    requires n <= |log| && e in Slice(log, from, n)
    ensures InLog(log[..n], e.External())
  {
    var j :| 0 <= j < |Slice(log, from, n)| && Slice(log, from, n)[j] == e;
    SliceAt(log, from, n, j);
    LogMember(log, n, (if from == 0 then 0 else from - 1) + j, e.External());
  }

  lemma LogMember(log: seq<Event>, n: nat, k: nat, id: string)
    requires k < n <= |log| && log[k].External() == id
    ensures InLog(log[..n], id)
  {
    assert log[..n][k] == log[k];
  }

  lemma SettleDecides(s: State, id: string, found: Option<Event>)
    requires Inv(s) && id in s.sends
    requires found.Some? ==> FromLog(found.value, s.log) && found.value.External() == id
    ensures var s' := SettleSend(s, id, found);
            && (id in s'.sends <==> found.Some?)
            && s'.view.draft == (if found.Some? then s.view.draft else s.sends[id].text)
            && (found.Some? && s.view.open ==> found.value in s'.view.events)
            && (forall e :: e in s'.view.events && e.Optimistic() ==> e.id != id)
  {
    SettleKeepsInv(s, id, found);
    var s' := SettleSend(s, id, found);
    if found.Some? {
      if s.view.open { ReceiveClears(s, found.value); }
      forall e | e in s'.view.events && e.Optimistic() ensures e.id != id { assert Pending(e, s'); }
    } else {
      RemoveKeepsInv(s, id, s.sends[id].text);
    }
  }

  // --------------------------------------------- what stale replies can do

  lemma PushShows(s: State, k: nat)
    requires Reachable(s) && s.view.open && 1 <= k <= |s.log|
    ensures var s' := Apply(s, PushDelivered(k, false));
            && Reachable(s') && s.log[k - 1] in s'.view.events && s'.view.open
            && s'.log == s.log && s'.inflight == s.inflight && s'.tickets == s.tickets && s'.view.slot == s.view.slot
  {
    ReachableStep(s, PushDelivered(k, false));
    ReachableInv(s);
    LogEntry(s.log, s.used, k);
    ReceiveKeepsView(s, [s.log[k - 1]]);
    ApplyPush(s, k, false);
  }

  /** A reconcile of a view that holds the first event starts above it. */
  lemma ReconcileAbove(s: State, e: Event)
    requires Reachable(s) && s.view.open && s.view.slot.None? && e in s.view.events && e.seqNo == 1 && !e.Optimistic()
    ensures var s' := Apply(s, SocketOpened(true));
            && Reachable(s') && s'.log == s.log
            && s.tickets in s'.inflight && s'.inflight[s.tickets].from >= 2
  {
    ReachableStep(s, SocketOpened(true));
    assert 1 in RealSeqs(s.view.events) - {0};
  }

  /**
   A read begun by a view that held the first event, answered to a view opened later:
   the second event arrives and the first stays missing.
   */
  lemma StaleReplyLeavesGap(e1: Event, e2: Event) returns (s: State)
    requires Appendable([], e1) && !IsLocal(e1.External())
    requires Appendable([e1], e2) && !IsLocal(e2.External())
    ensures Reachable(s) && s.view.open && s.log == [e1, e2] && Enabled(s, ReadDelivered(0, 2))
    ensures !Covers(Apply(s, ReadDelivered(0, 2)).view.events, s.log, 2)
  {
    var asked := AskedAbove(e1);
    var reopened := Reopened(asked);
    ReachableStep(reopened, ServerAppend(e2));
    s := Apply(reopened, ServerAppend(e2));
    assert s.log == [e1, e2] && s.view.events == [];
    ReplyCompletesIff(s, 0, 2);
    assert s.log[0] !in s.view.events;
  }

  lemma AskedAbove(e: Event) returns (s: State)
    requires Appendable([], e) && !IsLocal(e.External())
    ensures Reachable(s) && s.log == [e] && 0 in s.inflight && s.inflight[0].from >= 2
  {
    ReachableInitial();
    ReachableStep(Initial, ViewOpened(0));
    var first := Apply(Initial, ViewOpened(0));
    ReachableStep(first, ServerAppend(e));
    var appended := Apply(first, ServerAppend(e));
    assert appended.log == [e];
    PushShows(appended, 1);
    var shown := Apply(appended, PushDelivered(1, false));
    ReconcileAbove(shown, e);
    s := Apply(shown, SocketOpened(true));
  }

  lemma Reopened(s: State) returns (s': State)
    requires Reachable(s)
    ensures Reachable(s') && s'.log == s.log && s'.inflight == s.inflight && s'.view.open && s'.view.events == []
  {
    ReachableStep(s, ViewDestroyed);
    var gone := Apply(s, ViewDestroyed);
    ReachableStep(gone, ViewOpened(0));
    s' := Apply(gone, ViewOpened(0));
  }

  predicate LooksUp(a: Action, id: string) { a == LookupErrored(id) || (a.LookupDelivered? && a.id == id) }

  /** The answer of a failure-path lookup shows the input. */
  predicate Shows(s: State, a: Action, id: string)
    requires Enabled(s, a) && LooksUp(a, id)
  {
    a.LookupDelivered? && InLog(s.log[..a.n], id)
  }

  /**
   The draft is restored exactly when no answer shows the input: the lookup failed, or
   the log it read did not hold it yet.  The log itself may hold the input all the
   same, and where it does not, the server may still take it afterwards.
   */
  lemma DraftRestoredIff(s: State, a: Action, id: string)
    requires Reachable(s) && Enabled(s, a) && LooksUp(a, id)
    ensures var s' := Apply(s, a);
            && (id !in s'.sends <==> !Shows(s, a, id))
            && s'.view.draft == (if Shows(s, a, id) then s.view.draft else s.sends[id].text)
            && s'.log == s.log
            && (forall e :: Appendable(s.log, e) && e.External() == id ==> Enabled(s', ServerAccept(id, e)))
  {
    ReachableInv(s);
    if a.LookupDelivered? {
      LookupDecides(s, id, a.n);
    } else {
      SettleDecides(s, id, None);
    }
    SettleKeepsLog(s, a, id);
  }

  lemma SettleKeepsLog(s: State, a: Action, id: string)
    requires Enabled(s, a) && LooksUp(a, id)
    ensures Apply(s, a).log == s.log && Apply(s, a).used == s.used
  {
  }

  /** Input that the log holds, and that is back in the draft for the user to send again. */
  lemma RestoredThoughAccepted(id: string, text: string, e: Event) returns (s: State)
    requires IsLocal(id) && Appendable([], e) && e.External() == id
    ensures Reachable(s) && InLog(s.log, id) && id !in s.sends && s.view.open && s.view.draft == text
  {
    ReachableInitial();
    ReachableStep(Initial, ViewOpened(0));
    s := Apply(Initial, ViewOpened(0));
    ReachableStep(s, SendBegun(id, text, true));
    s := Apply(s, SendBegun(id, text, true));
    assert s.log == [] && s.view.open && s.view.generation == 0 && s.sends[id].text == text;
    ReachableStep(s, ServerAccept(id, e));
    s := Apply(s, ServerAccept(id, e));
    assert s.log[0].External() == id;
    s := LookupFails(s, id);
  }

  lemma LookupFails(s: State, id: string) returns (s': State)
    requires Reachable(s) && id in s.sends && s.sends[id].phase == Posting && Live(s, id)
    ensures Reachable(s') && s'.log == s.log && id !in s'.sends && s'.view.open && s'.view.draft == s.sends[id].text
  {
    ReachableStep(s, SendErrored(id));
    var looking := Apply(s, SendErrored(id));
    ReachableStep(looking, LookupErrored(id));
    DraftRestoredIff(looking, LookupErrored(id), id);
    s' := Apply(looking, LookupErrored(id));
  }

  // ------------------------------------------------- when a read is started

  /** Below `k` the transcript lacks something of the log. */
  ghost predicate LacksBelow(events: seq<Event>, log: seq<Event>, k: nat) {
    exists j :: 0 <= j < k - 1 && j < |log| && log[j] !in events
  }

  /** `n` is the number of the first event of the log that the transcript lacks. */
  ghost predicate FirstLacking(events: seq<Event>, log: seq<Event>, n: nat) {
    1 <= n <= |log| && Covers(events, log, n - 1) && log[n - 1] !in events
  }

  /** From `s` to `s'` a read from `n` was started, unless the slot held one from there. */
  ghost predicate ReadStarted(s: State, s': State, n: nat) {
    if s.view.slot.Some? && s.view.slot.value.from == n then
      s'.view.slot == s.view.slot && s'.inflight == s.inflight
    else
      s'.view.slot == Some(Slot(s.tickets, n)) && s'.inflight == s.inflight[s.tickets := Read(n, s.view.generation)]
  }

  lemma NotHeld(s: State, n: nat)
    requires Inv(s) && 1 <= n <= |s.log| && n !in RealSeqs(s.view.events)
    ensures s.log[n - 1] !in s.view.events
  {
    assert s.log[n - 1].seqNo == n && !s.log[n - 1].Optimistic();
  }

  lemma LackingStart(s: State, k: nat)
    requires Inv(s) && 1 <= k <= |s.log|
    ensures ReconcileFrom(s.view) < k <==> LacksBelow(s.view.events, s.log, k)
    ensures ReconcileFrom(s.view) <= |s.log| ==> FirstLacking(s.view.events, s.log, ReconcileFrom(s.view))
  {
    var n := ReconcileFrom(s.view);
    ReconcileFromCovers(s);
    if n <= |s.log| { NotHeld(s, n); }
    forall j | 0 <= j < n - 1 ensures j < |s.log| && s.log[j] in s.view.events {}
    if n < k { assert s.log[n - 1] !in s.view.events; }
  }

  /**
   A push starts a read exactly when the tab is mounted and something below the pushed
   event is missing; the read then starts at the first missing event.
   */
  lemma PushStartsRead(s: State, k: nat, mounted: bool)
    requires Reachable(s) && s.view.open && 1 <= k <= |s.log|
    ensures var s' := Apply(s, PushDelivered(k, mounted));
            if mounted && LacksBelow(s.view.events, s.log, k)
            then exists n :: FirstLacking(s.view.events, s.log, n) && ReadStarted(s, s', n)
            else s'.view.slot == s.view.slot && s'.inflight == s.inflight
  {
    ReachableInv(s);
    LackingStart(s, k);
    ApplyPush(s, k, mounted);
    PushedReads(s, s.log[k - 1], mounted);
  }

  lemma PushedReads(s: State, event: Event, mounted: bool)
    requires s.view.open
    ensures var s' := Pushed(s, event, mounted);
            if mounted && ReconcileFrom(s.view) < event.seqNo then ReadStarted(s, s', ReconcileFrom(s.view))
            else s'.view.slot == s.view.slot && s'.inflight == s.inflight
  {
  }

  /** `n` is the first number missing from the transcript: an event's, or the one after the last. */
  ghost predicate FirstMissing(s: State, n: nat) {
    FirstLacking(s.view.events, s.log, n) || (n == |s.log| + 1 && Covers(s.view.events, s.log, |s.log|))
  }

  lemma StartIsFirstMissing(s: State)
    requires Inv(s)
    ensures FirstMissing(s, ReconcileFrom(s.view))
  {
    ReconcileFromCovers(s);
    if ReconcileFrom(s.view) <= |s.log| { NotHeld(s, ReconcileFrom(s.view)); }
  }

  /** A socket that opens over a mounted tab always starts one, at the first missing number. */
  lemma SocketStartsRead(s: State)
    requires Reachable(s) && s.view.open
    ensures exists n :: FirstMissing(s, n) && ReadStarted(s, Apply(s, SocketOpened(true)), n)
  {
    ReachableInv(s);
    StartIsFirstMissing(s);
    assert ReadStarted(s, Apply(s, SocketOpened(true)), ReconcileFrom(s.view));
  }

  // --------------------------------------------------------- busy and the slot

  /** A send of the present view is under way. */
  ghost predicate Sending(s: State) {
    exists id :: id in s.sends && s.sends[id].generation == s.view.generation
  }

  ghost predicate BusyOk(s: State) { s.view.busy <==> Sending(s) }

  /** A request in the slot is in flight, from where the slot says, and the view's own. */
  ghost predicate SlotOk(s: State) {
    && (s.view.slot.Some? ==>
          s.view.slot.value.ticket in s.inflight
          && s.inflight[s.view.slot.value.ticket] == Read(s.view.slot.value.from, s.view.generation))
    && (forall t :: t in s.inflight ==> t < s.tickets)
  }

  ghost predicate SameBusy(s: State, s': State) {
    s'.view.busy == s.view.busy && s'.view.generation == s.view.generation && s'.sends == s.sends
  }

  lemma EndKeepsBusy(s: State, s': State, id: string)
    requires Inv(s) && BusyOk(s) && id in s.sends && s'.sends == s.sends - {id}
    requires s'.view.generation == s.view.generation
    requires s'.view.busy == (s.view.busy && !(s.view.open && s.view.generation == s.sends[id].generation))
    ensures BusyOk(s')
  {
    if s.sends[id].generation != s.view.generation && Sending(s) {
      var i :| i in s.sends && s.sends[i].generation == s.view.generation;
      assert i in s'.sends;
    }
  }

  lemma MoveKeepsBusy(s: State, s': State, id: string)
    requires BusyOk(s) && id in s.sends && s'.view.generation == s.view.generation && s'.view.busy == s.view.busy
    requires s'.sends.Keys == s.sends.Keys
    requires forall i :: i in s.sends ==> s'.sends[i].generation == s.sends[i].generation
    ensures BusyOk(s')
  {
    if Sending(s) {
      var i :| i in s.sends && s.sends[i].generation == s.view.generation;
      assert i in s'.sends;
    }
    if Sending(s') {
      var i :| i in s'.sends && s'.sends[i].generation == s'.view.generation;
      assert i in s.sends;
    }
  }

  lemma SettleKeepsBusy(s: State, id: string, found: Option<Event>)
    requires Inv(s) && BusyOk(s) && id in s.sends
    ensures BusyOk(SettleSend(s, id, found))
  {
    var s' := SettleSend(s, id, found);
    if found.Some? { MoveKeepsBusy(s, s', id); } else { EndKeepsBusy(s, s', id); }
  }

  lemma BegunKeepsBusy(s: State, id: string, text: string)
    requires CanSend(s.view, true)
    ensures BusyOk(Sent(s, id, text))
  {
    var s' := Sent(s, id, text);
    assert id in s'.sends && s'.sends[id].generation == s'.view.generation;
  }

  lemma AckKeepsBusy(s: State, id: string)
    requires Inv(s) && BusyOk(s) && Enabled(s, SendAcked(id))
    ensures BusyOk(Apply(s, SendAcked(id)))
  {
    var s' := Apply(s, SendAcked(id));
    if Live(s, id) { MoveKeepsBusy(s, s', id); } else { EndKeepsBusy(s, s', id); }
  }

  lemma ErrorKeepsBusy(s: State, id: string)
    requires Inv(s) && BusyOk(s) && Enabled(s, SendErrored(id))
    ensures BusyOk(Apply(s, SendErrored(id)))
  {
    var s' := Apply(s, SendErrored(id));
    if Live(s, id) { MoveKeepsBusy(s, s', id); } else { EndKeepsBusy(s, s', id); }
  }

  lemma RefreshKeepsBusy(s: State, id: string, serverLatest: Option<nat>)
    requires Inv(s) && BusyOk(s) && Enabled(s, SendRefreshed(id, serverLatest))
    ensures BusyOk(Apply(s, SendRefreshed(id, serverLatest)))
  {
    EndKeepsBusy(s, Apply(s, SendRefreshed(id, serverLatest)), id);
  }

  lemma SendKeepsBusy(s: State, a: Action)
    requires Inv(s) && BusyOk(s) && Enabled(s, a) && SendStep(a)
    ensures BusyOk(Apply(s, a))
  {
    match a {
      case SendBegun(id, text, _) => BegunKeepsBusy(s, id, text);
      case SendAcked(id) => AckKeepsBusy(s, id);
      case SendErrored(id) => ErrorKeepsBusy(s, id);
      case LookupDelivered(id, n) => SettleKeepsBusy(s, id, FindExternal(Slice(s.log, s.sends[id].from, n), id));
      case LookupErrored(id) => SettleKeepsBusy(s, id, None);
      case SendRefreshed(id, serverLatest) => RefreshKeepsBusy(s, id, serverLatest);
    }
  }

  lemma PushKeepsBusy(s: State, event: Event, mounted: bool)
    ensures SameBusy(s, Pushed(s, event, mounted))
  {
  }

  lemma OtherKeepsBusy(s: State, a: Action)
    requires Inv(s) && BusyOk(s) && Enabled(s, a) && !SendStep(a)
    ensures BusyOk(Apply(s, a))
  {
    if a.PushDelivered? {
      PushKeepsBusy(s, s.log[a.k - 1], a.mounted);
    } else if a != ViewDestroyed {
      QuietKeepsBusy(s, a);
    }
  }

  lemma QuietKeepsBusy(s: State, a: Action)
    requires Enabled(s, a) && !SendStep(a) && !a.PushDelivered? && a != ViewDestroyed
    ensures SameBusy(s, Apply(s, a))
  {
  }

  lemma PushKeepsSlot(s: State, event: Event, mounted: bool)
    requires SlotOk(s)
    ensures SlotOk(Pushed(s, event, mounted))
  {
  }

  lemma ReadKeepsSlot(s: State, a: Action)
    requires SlotOk(s) && Enabled(s, a) && (a.ReadDelivered? || a.ReadFailed?)
    ensures SlotOk(Apply(s, a))
  {
  }

  lemma StepKeepsSlot(s: State, a: Action)
    requires Inv(s) && SlotOk(s) && Enabled(s, a)
    ensures SlotOk(Apply(s, a))
  {
    if a.PushDelivered? {
      PushKeepsSlot(s, s.log[a.k - 1], a.mounted);
    } else if a.ReadDelivered? || a.ReadFailed? {
      ReadKeepsSlot(s, a);
    } else if SendStep(a) {
      SendKeepsSlot(s, a);
    } else {
      QuietKeepsSlot(s, a);
    }
  }

  lemma SendKeepsSlot(s: State, a: Action)
    requires SlotOk(s) && Enabled(s, a) && SendStep(a)
    ensures SlotOk(Apply(s, a))
  {
  }

  lemma QuietKeepsSlot(s: State, a: Action)
    requires SlotOk(s) && Enabled(s, a) && !SendStep(a) && !a.PushDelivered? && !a.ReadDelivered? && !a.ReadFailed?
    ensures SlotOk(Apply(s, a))
  {
  }

  lemma {:induction false} RunKeepsTidy(s: State, run: seq<Action>)
    requires Inv(s) && BusyOk(s) && SlotOk(s) && Allowed(s, run)
    ensures BusyOk(Run(s, run)) && SlotOk(Run(s, run))
    decreases |run|
  {
    if run != [] {
      StepKeepsInv(s, run[0]);
      if SendStep(run[0]) { SendKeepsBusy(s, run[0]); } else { OtherKeepsBusy(s, run[0]); }
      StepKeepsSlot(s, run[0]);
      RunKeepsTidy(Apply(s, run[0]), run[1..]);
    }
  }

  /**
   In every reachable state the view is busy exactly while a send of its own is under
   way, and what its slot holds is a request of its own still in flight.
   */
  lemma BusyWhileSending(s: State)
    requires Reachable(s)
    ensures s.view.busy <==> exists id :: id in s.sends && s.sends[id].generation == s.view.generation
    ensures s.view.slot.Some? ==>
              s.view.slot.value.ticket in s.inflight
              && s.inflight[s.view.slot.value.ticket] == Read(s.view.slot.value.from, s.view.generation)
  {
    ReachableInv(Initial) by { ReachableInitial(); }
    var run :| Allowed(Initial, run) && Run(Initial, run) == s;
    RunKeepsTidy(Initial, run);
  }
}
