/**
 When the user sees input that is still being sent.

 A send shows an optimistic entry under a number no entry holds yet.  Another
 producer's event can be given that very number by the server; receiving it takes
 the entry away, though the send is still under way.
 */
module TerminalShown {
  import opened Options
  import opened TerminalEvents
  import opened TerminalClient
  import opened TerminalProtocol
  import opened TerminalRuns

  /** A send of the present view about whose input nothing is settled. */
  predicate Unsettled(s: State, id: string) {
    id in s.sends && s.sends[id].generation == s.view.generation && s.sends[id].phase != Refreshing
  }

  ghost predicate HasEntry(events: seq<Event>, id: string) {
    exists e :: e in events && e.Optimistic() && e.id == id
  }

  /** A server event holds the number, or is the input itself. */
  ghost predicate Taken(events: seq<Event>, n: nat, id: string) {
    exists x :: x in events && !x.Optimistic() && (x.seqNo == n || x.External() == id)
  }

  ghost predicate ShownOk(s: State) {
    && (forall e :: e in s.view.events && e.Optimistic() ==> e.id in s.sends && e.seqNo == s.sends[e.id].shownAt)
    && (forall id :: Unsettled(s, id) ==> HasEntry(s.view.events, id) || Taken(s.view.events, s.sends[id].shownAt, id))
  }

  // ------------------------------------------------------------- what carries

  ghost predicate SendsCarry(s: State, s': State) {
    forall id :: Unsettled(s', id) ==> Unsettled(s, id) && s'.sends[id].shownAt == s.sends[id].shownAt
  }

  /** No entry is new, no server event is lost, and an entry only goes when it is taken or its send is settled. */
  ghost predicate EventsCarry(s: State, s': State) {
    && (forall e :: e in s'.view.events && e.Optimistic() ==> e in s.view.events)
    && (forall x :: x in s.view.events && !x.Optimistic() ==> x in s'.view.events)
    && (forall e :: e in s.view.events && e.Optimistic() ==>
          e in s'.view.events || Taken(s'.view.events, e.seqNo, e.External()) || !Unsettled(s', e.id))
  }

  lemma CarriesShown(s: State, s': State)
    requires Inv(s) && Inv(s') && ShownOk(s) && SendsCarry(s, s') && EventsCarry(s, s')
    ensures ShownOk(s')
  {
    forall e | e in s'.view.events && e.Optimistic() ensures e.id in s'.sends && e.seqNo == s'.sends[e.id].shownAt {
      assert Pending(e, s');
      assert Unsettled(s', e.id);
    }
    forall id | Unsettled(s', id)
      ensures HasEntry(s'.view.events, id) || Taken(s'.view.events, s'.sends[id].shownAt, id)
    {
      if HasEntry(s.view.events, id) {
        var e :| e in s.view.events && e.Optimistic() && e.id == id;
        assert Pending(e, s);
      } else {
        var x :| x in s.view.events && !x.Optimistic() && (x.seqNo == s.sends[id].shownAt || x.External() == id);
        assert x in s'.view.events;
      }
    }
  }

  lemma MergeCarries(s: State, read: seq<Event>, s': State)
    requires Inv(s) && SubLog(read, s.log) && s'.view.events == Receive(s.view, read).events
    ensures EventsCarry(s, s')
  {
    ReceiveKeepsView(s, read);
    forall x | x in s.view.events && !x.Optimistic() ensures x in s'.view.events { ReceiveKeepsReal(s, read, x); }
    if s.view.open {
      forall e | e in s.view.events && e.Optimistic() && Replaced(e, read)
        ensures Taken(s'.view.events, e.seqNo, e.External())
      {
        if e.seqNo in RealSeqs(read) {
          var x :| x in read && !x.Optimistic() && x.seqNo == e.seqNo;
          assert x in s'.view.events;
        } else {
          var x :| x in read && !x.Optimistic() && x.External() == e.External();
          assert x in s'.view.events;
        }
      }
    }
  }

  /** After a lookup without success the send is over and its entry gone. */
  lemma RemovalCarries(s: State, id: string, s': State)
    requires Inv(s) && id in s.sends && id !in s'.sends
    requires s'.view.events == SettleLookup(s.view, id, s.sends[id].text, None).events
    ensures EventsCarry(s, s')
  {
    RemoveKeepsInv(s, id, s.sends[id].text);
    forall x | x in s.view.events && !x.Optimistic() ensures x in s'.view.events { assert FromLog(x, s.log); }
  }

  // ------------------------------------------------------------ every step

  lemma SettleKeepsShown(s: State, id: string, found: Option<Event>)
    requires Inv(s) && ShownOk(s) && id in s.sends
    requires found.Some? ==> FromLog(found.value, s.log) && found.value.External() == id
    ensures ShownOk(SettleSend(s, id, found))
  {
    var s' := SettleSend(s, id, found);
    SettleKeepsInv(s, id, found);
    if found.Some? { MergeCarries(s, [found.value], s'); } else { RemovalCarries(s, id, s'); }
    CarriesShown(s, s');
  }

  lemma SentShown(s: State, s': State, id: string, o: Event)
    requires forall e :: e in s.view.events ==> !e.Optimistic()
    requires forall i :: i in s.sends ==> s.sends[i].generation < s'.view.generation
    requires forall e :: e in s'.view.events <==> e in s.view.events || e == o
    requires o.Optimistic() && o.id == id && id in s'.sends && s'.sends[id].shownAt == o.seqNo
    requires forall i :: i in s'.sends && i != id ==> i in s.sends && s'.sends[i] == s.sends[i]
    ensures ShownOk(s')
  {
    assert HasEntry(s'.view.events, id) by { assert o in s'.view.events; }
  }

  lemma BegunKeepsShown(s: State, id: string, text: string)
    requires Inv(s) && ShownOk(s) && CanSend(s.view, true) && IsLocal(id) && id !in s.used
    ensures ShownOk(Sent(s, id, text))
  {
    IdleView(s, id);
    BeginSendView(s.view, id, text);
    SentShown(s, Sent(s, id, text), id, OptimisticEvent(FreshSeq(s.view), id, text));
  }

  lemma AckKeepsShown(s: State, id: string)
    requires Inv(s) && ShownOk(s) && Enabled(s, SendAcked(id))
    ensures ShownOk(Apply(s, SendAcked(id)))
  {
    var s' := Apply(s, SendAcked(id));
    StepKeepsInv(s, SendAcked(id));
    AckCarries(s, id, s');
    CarriesShown(s, s');
  }

  lemma AckCarries(s: State, id: string, s': State)
    requires Inv(s) && Enabled(s, SendAcked(id)) && s' == Apply(s, SendAcked(id))
    ensures SendsCarry(s, s') && EventsCarry(s, s')
  {
    if Live(s, id) {
      var e := FindExternal(s.log, id).value;
      assert FromLog(e, s.log);
      MergeCarries(s, [e], s');
    }
  }

  lemma PushedKeepsShown(s: State, event: Event, mounted: bool)
    requires Inv(s) && ShownOk(s) && SubLog([event], s.log)
    ensures ShownOk(Pushed(s, event, mounted))
  {
    var s' := Pushed(s, event, mounted);
    PushKeepsInv(s, event, mounted);
    PushEvents(s.view, event, mounted, s.tickets);
    MergeCarries(s, [event], s');
    CarriesShown(s, s');
  }

  lemma PushKeepsShown(s: State, k: nat, mounted: bool)
    requires Inv(s) && ShownOk(s) && 1 <= k <= |s.log|
    ensures ShownOk(Apply(s, PushDelivered(k, mounted)))
  {
    LogEntry(s.log, s.used, k);
    PushedKeepsShown(s, s.log[k - 1], mounted);
    ApplyPush(s, k, mounted);
  }

  lemma ReadKeepsShown(s: State, ticket: nat, n: nat)
    requires Inv(s) && ShownOk(s) && Enabled(s, ReadDelivered(ticket, n))
    ensures ShownOk(Apply(s, ReadDelivered(ticket, n)))
  {
    var s' := Apply(s, ReadDelivered(ticket, n));
    StepKeepsInv(s, ReadDelivered(ticket, n));
    SliceOfLog(s.log, s.used, s.inflight[ticket].from, n);
    MergeCarries(s, Slice(s.log, s.inflight[ticket].from, n), s');
    CarriesShown(s, s');
  }

  lemma QuietKeepsShown(s: State, a: Action)
    requires Inv(s) && ShownOk(s) && Enabled(s, a) && !TouchesTranscript(a)
    ensures ShownOk(Apply(s, a))
  {
    StepKeepsInv(s, a);
    OtherStepsKeepEvents(s, a);
    CarriesShown(s, Apply(s, a));
  }

  lemma StepKeepsShown(s: State, a: Action)
    requires Inv(s) && ShownOk(s) && Enabled(s, a)
    ensures ShownOk(Apply(s, a))
  {
    if !TouchesTranscript(a) {
      QuietKeepsShown(s, a);
    } else {
      match a {
        case PushDelivered(k, mounted) => PushKeepsShown(s, k, mounted);
        case ReadDelivered(ticket, n) => ReadKeepsShown(s, ticket, n);
        case SendBegun(id, text, _) => BegunKeepsShown(s, id, text);
        case SendAcked(id) => AckKeepsShown(s, id);
        case LookupDelivered(id, n) =>
          LookupFinds(s, id, n);
          SettleKeepsShown(s, id, FindExternal(Slice(s.log, s.sends[id].from, n), id));
        case LookupErrored(id) => SettleKeepsShown(s, id, None);
        case ViewDestroyed =>
      }
    }
  }

  lemma {:induction false} RunKeepsShown(s: State, run: seq<Action>)
    requires Inv(s) && ShownOk(s) && Allowed(s, run)
    ensures ShownOk(Run(s, run))
    decreases |run|
  {
    if run != [] {
      StepKeepsInv(s, run[0]);
      StepKeepsShown(s, run[0]);
      RunKeepsShown(Apply(s, run[0]), run[1..]);
    }
  }

  lemma InitialShown()
    ensures Inv(Initial) && ShownOk(Initial)
  {
  }

  lemma ReachableShown(s: State)
    requires Reachable(s)
    ensures Inv(s) && ShownOk(s)
  {
    ReachableInv(s);
    InitialShown();
    var run :| Allowed(Initial, run) && Run(Initial, run) == s;
    RunKeepsShown(Initial, run);
  }

  // ------------------------------------------------------------ main results

  /**
   The entry of an unsettled send is missing exactly when the view has received a
   server event under the entry's number, or the input itself.
   */
  lemma EntryMissingIff(s: State, id: string)
    requires Reachable(s) && Unsettled(s, id)
    ensures !HasEntry(s.view.events, id) <==> Taken(s.view.events, s.sends[id].shownAt, id)
  {
    ReachableShown(s);
    if HasEntry(s.view.events, id) && Taken(s.view.events, s.sends[id].shownAt, id) {
      var e :| e in s.view.events && e.Optimistic() && e.id == id;
      var x :| x in s.view.events && !x.Optimistic() && (x.seqNo == s.sends[id].shownAt || x.External() == id);
      SameNumber(s, e, x);
    }
  }

  lemma SameNumber(s: State, e: Event, x: Event)
    requires Inv(s) && e in s.view.events && x in s.view.events && e.Optimistic() && !x.Optimistic()
    ensures x.seqNo != e.seqNo && x.External() != e.External() && e.External() == e.id
  {
    assert Pending(e, s);
    var events := s.view.events;
    var i :| 0 <= i < |events| && events[i] == e;
    var j :| 0 <= j < |events| && events[j] == x;
  }

  /**
   Unsettled input is out of the user's sight, neither as an entry nor as the server's
   event, exactly when another producer's event was received under its number and the
   input itself was not.
   */
  lemma InputHiddenIff(s: State, id: string)
    requires Reachable(s) && Unsettled(s, id)
    ensures (forall e :: e in s.view.events ==> e.External() != id)
            <==> (exists x :: x in s.view.events && !x.Optimistic() && x.seqNo == s.sends[id].shownAt)
                 && (forall x :: x in s.view.events && !x.Optimistic() ==> x.External() != id)
  {
    ReachableShown(s);
    EntryMissingIff(s, id);
    if HasEntry(s.view.events, id) {
      var e :| e in s.view.events && e.Optimistic() && e.id == id;
      assert Pending(e, s);
    }
    forall e | e in s.view.events && e.Optimistic() && e.External() == id ensures HasEntry(s.view.events, id) {
      assert Pending(e, s);
    }
  }

  /** A send still posting, in an open view, of which the user sees nothing. */
  lemma InputCanBeHidden(id: string, text: string, e: Event) returns (s: State)
    requires IsLocal(id) && Appendable([], e) && !IsLocal(e.External())
    ensures Reachable(s) && s.view.open && Unsettled(s, id) && s.sends[id].phase == Posting
    ensures forall x :: x in s.view.events ==> x.External() != id
  {
    ReachableInitial();
    ReachableStep(Initial, ViewOpened(0));
    var first := Apply(Initial, ViewOpened(0));
    ReachableStep(first, SendBegun(id, text, true));
    var sent := Apply(first, SendBegun(id, text, true));
    assert sent.sends[id].shownAt == 1 && sent.log == [];
    s := ForeignTakes(sent, id, e);
  }

  lemma ForeignTakes(sent: State, id: string, e: Event) returns (s: State)
    requires Reachable(sent) && sent.log == [] && sent.view.open && Appendable([], e) && !IsLocal(e.External())
    requires IsLocal(id) && Unsettled(sent, id) && sent.sends[id].phase == Posting && sent.sends[id].shownAt == 1
    ensures Reachable(s) && s.view.open && Unsettled(s, id) && s.sends[id].phase == Posting
    ensures forall x :: x in s.view.events ==> x.External() != id
  {
    ReachableStep(sent, ServerAppend(e));
    var appended := Apply(sent, ServerAppend(e));
    assert appended.log == [e];
    PushShows(appended, 1);
    PushKeepsSends(appended, 1);
    s := Apply(appended, PushDelivered(1, false));
    OnlyForeign(s, id, e);
    InputHiddenIff(s, id);
  }

  lemma OnlyForeign(s: State, id: string, e: Event)
    requires Reachable(s) && s.log == [e] && e.External() != id
    ensures forall x :: x in s.view.events && !x.Optimistic() ==> x.External() != id
  {
    ReachableInv(s);
    forall x | x in s.view.events && !x.Optimistic() ensures x.External() != id { assert FromLog(x, s.log); }
  }

  lemma PushKeepsSends(s: State, k: nat)
    requires 1 <= k <= |s.log|
    ensures Apply(s, PushDelivered(k, false)).sends == s.sends
    ensures Apply(s, PushDelivered(k, false)).view.generation == s.view.generation
  {
  }
}
