/**
 The replay tab's cache (`loadLiveRunReplay`, `scheduleLiveRunReplayRefresh` and
 the replay part of `handleRunWsEvent` in static/js/app/runtime.js).

 Every terminal or trace event makes the held replay stale.  The view clears its
 "loaded" marker on each event, but moves its generation on, which is what makes
 an unfinished request void, only while the replay tab is the active one.
 `seen` counts the events that have arrived; a request remembers that count.
 */
module ReplayCache {
  import opened Options

  datatype Request = Request(ticket: nat, generation: nat, begun: nat)

  datatype Cache = Cache(
    replayTab: bool,            // liveRunInteractionTab === "replay"
    loaded: bool,               // liveRunReplayLoadedRunId is this run
    held: Option<nat>,          // replayDetail: the event count when its request began
    generation: nat,            // _liveRunReplayGeneration
    slot: Option<Request>,      // _liveRunReplayRequest
    inflight: set<Request>,
    tickets: nat,
    seen: nat,                  // events arrived so far
    lastOnTab: nat,             // `seen` after the last event that arrived on the replay tab
    lastOffTab: nat)            // `seen` after the last event that arrived on another tab

  datatype Step =
    | EventArrives
    | RefreshScheduled
    | TabSelected(replay: bool)
    | LoadWanted
    | ReplyArrives(request: Request)
    | ReplyFails(request: Request)
    | ViewDestroyed

  const Empty := Cache(false, false, None, 0, None, {}, 0, 0, 0, 0)

  /** `scheduleLiveRunReplayRefresh`; the timer it sets is a later `LoadWanted`. */
  function Schedule(c: Cache): Cache {
    c.(generation := c.generation + 1, loaded := false)
  }

  /** `loadLiveRunReplay` up to its first await; a request in the slot is joined, not repeated. */
  function Load(c: Cache): Cache {
    if c.loaded || c.slot.Some? then c
    else
      var request := Request(c.tickets, c.generation, c.seen);
      c.(slot := Some(request), inflight := c.inflight + {request}, tickets := c.tickets + 1)
  }

  function Free(c: Cache, request: Request): Cache {
    c.(inflight := c.inflight - {request}, slot := if c.slot == Some(request) then None else c.slot)
  }

  function Reply(c: Cache, request: Request): Cache {
    Free(if c.generation == request.generation then c.(held := Some(request.begun), loaded := true) else c, request)
  }

  function Arrive(c: Cache): Cache {
    var c1 := c.(seen := c.seen + 1, loaded := false);
    if c.replayTab then Schedule(c1).(lastOnTab := c.seen + 1) else c1.(lastOffTab := c.seen + 1)
  }

  function Destroy(c: Cache): Cache {
    c.(generation := c.generation + 1, loaded := false, held := None, slot := None, replayTab := false)
  }

  predicate Enabled(c: Cache, step: Step) {
    match step
    case ReplyArrives(request) => request in c.inflight
    case ReplyFails(request) => request in c.inflight
    case _ => true
  }

  function Next(c: Cache, step: Step): Cache {
    match step
    case EventArrives => Arrive(c)
    case RefreshScheduled => Schedule(c)
    case TabSelected(replay) => if replay then Load(c.(replayTab := true)) else c.(replayTab := false)
    case LoadWanted => Load(c)
    case ReplyArrives(request) => Reply(c, request)
    case ReplyFails(request) => Free(c, request)
    case ViewDestroyed => Destroy(c)
  }

  predicate Allowed(c: Cache, run: seq<Step>)
    decreases |run|
  {
    run == [] || (Enabled(c, run[0]) && Allowed(Next(c, run[0]), run[1..]))
  }

  function Run(c: Cache, run: seq<Step>): Cache
    requires Allowed(c, run)
    decreases |run|
  {
    if run == [] then c else Run(Next(c, run[0]), run[1..])
  }

  /** The same cache kept in the view's fields. */
  class ReplayView {
    var replayTab: bool
    var loaded: bool
    var held: Option<nat>
    var generation: nat
    var slot: Option<Request>
    ghost var inflight: set<Request>
    var tickets: nat
    var seen: nat
    ghost var lastOnTab: nat
    ghost var lastOffTab: nat

    ghost function Value(): Cache
      reads this
    {
      Cache(replayTab, loaded, held, generation, slot, inflight, tickets, seen, lastOnTab, lastOffTab)
    }

    method ScheduleRefresh()
      modifies this
      ensures Value() == Schedule(old(Value()))
    {
      generation := generation + 1;
      loaded := false;
    }

    method HandleAppended()
      modifies this
      ensures Value() == Arrive(old(Value()))
    {
      seen := seen + 1;
      loaded := false;
      if replayTab {
        ScheduleRefresh();
        lastOnTab := seen;
      } else {
        lastOffTab := seen;
      }
    }

    method LoadReplay()
      modifies this
      ensures Value() == Load(old(Value()))
    {
      if loaded || slot.Some? { return; }
      var request := Request(tickets, generation, seen);
      slot := Some(request);
      inflight := inflight + {request};
      tickets := tickets + 1;
    }

    method ReplayReply(request: Request)
      modifies this
      ensures Value() == Reply(old(Value()), request)
    {
      if generation == request.generation {
        held := Some(request.begun);
        loaded := true;
      }
      if slot == Some(request) { slot := None; }
      inflight := inflight - {request};
    }
  }

  ghost predicate Inv(c: Cache) {
    && c.lastOnTab <= c.seen && c.lastOffTab <= c.seen
    && (c.seen > 0 ==> c.seen == c.lastOnTab || c.seen == c.lastOffTab)
    && (forall r :: r in c.inflight ==> r.generation <= c.generation && r.begun <= c.seen && r.ticket < c.tickets)
    && (c.slot.Some? ==> c.slot.value in c.inflight)
    && (forall r :: r in c.inflight && r.generation == c.generation ==> r.begun >= c.lastOnTab)
    && (c.loaded ==> c.held.Some? && c.lastOnTab <= c.held.value <= c.seen)
  }

  lemma ArriveKeepsInv(c: Cache)
    requires Inv(c)
    ensures Inv(Arrive(c))
  {
  }

  lemma ReplyKeepsInv(c: Cache, request: Request)
    requires Inv(c) && request in c.inflight
    ensures Inv(Reply(c, request))
  {
  }

  lemma StepKeepsInv(c: Cache, step: Step)
    requires Inv(c) && Enabled(c, step)
    ensures Inv(Next(c, step))
  {
    match step {
      case EventArrives => ArriveKeepsInv(c);
      case ReplyArrives(request) => ReplyKeepsInv(c, request);
      case _ =>
    }
  }

  lemma {:induction false} RunKeepsInv(c: Cache, run: seq<Step>)
    requires Inv(c) && Allowed(c, run)
    ensures Inv(Run(c, run))
    decreases |run|
  {
    if run != [] {
      StepKeepsInv(c, run[0]);
      RunKeepsInv(Next(c, run[0]), run[1..]);
    }
  }

  /**
   Whenever the marker is set, the held replay was requested after every event
   that arrived on the replay tab; it is up to date with all events exactly when
   no event arrived on another tab after its request began.
   */
  lemma LoadedReplay(run: seq<Step>)
    requires Allowed(Empty, run)
    ensures var c := Run(Empty, run);
            c.loaded ==> c.held.Some? && c.lastOnTab <= c.held.value
                         && (c.held.value == c.seen <==> c.lastOffTab <= c.held.value)
  {
    RunKeepsInv(Empty, run);
  }

  /** The request in the slot, or a set marker, is enough; otherwise one new request starts, here and now. */
  ghost predicate StartsOrJoins(c: Cache, next: Cache) {
    if c.loaded || c.slot.Some? then next == c.(replayTab := next.replayTab)
    else
      && next.slot.Some? && next.inflight == c.inflight + {next.slot.value} && next.slot.value !in c.inflight
      && next.slot.value.generation == c.generation && next.slot.value.begun == c.seen
      && next.held == c.held && !next.loaded && next.generation == c.generation && next.seen == c.seen
  }

  /** No reply now under way would still be kept. */
  ghost predicate AllVoid(c: Cache) {
    forall r :: r in c.inflight ==> !Next(c, ReplyArrives(r)).loaded && Next(c, ReplyArrives(r)).held == c.held
  }

  /** A wanted load, or the choice of the replay tab, starts a request or joins the one under way. */
  lemma LoadStarts(run: seq<Step>)
    requires Allowed(Empty, run)
    ensures var c := Run(Empty, run);
            && StartsOrJoins(c, Next(c, LoadWanted)) && Next(c, LoadWanted).replayTab == c.replayTab
            && StartsOrJoins(c, Next(c, TabSelected(true))) && Next(c, TabSelected(true)).replayTab
            && Next(c, TabSelected(false)) == c.(replayTab := false)
  {
    RunKeepsInv(Empty, run);
  }

  /**
   An event takes the marker away.  On the replay tab, as after a scheduled refresh or
   a teardown, nothing under way is kept any more; on another tab every request of
   this generation still is.  A teardown also drops what is held and the slot.
   */
  lemma EventsVoid(run: seq<Step>)
    requires Allowed(Empty, run)
    ensures var c := Run(Empty, run);
            var a, s, d := Next(c, EventArrives), Next(c, RefreshScheduled), Next(c, ViewDestroyed);
            && !a.loaded && a.seen == c.seen + 1 && !s.loaded && AllVoid(s) && !d.loaded && AllVoid(d)
            && (c.replayTab ==> AllVoid(a))
            && (!c.replayTab ==> forall r :: r in a.inflight && r.generation == c.generation ==>
                  Next(a, ReplyArrives(r)).loaded && Next(a, ReplyArrives(r)).held == Some(r.begun))
            && d.held.None? && d.slot.None? && !d.replayTab
            && a.held == s.held == c.held && a.slot == s.slot == c.slot
            && a.inflight == s.inflight == d.inflight == c.inflight
  {
    RunKeepsInv(Empty, run);
  }

  /**
   However a request ends, it leaves, and frees the slot if it is the one there; only a
   kept reply sets the marker.
   */
  lemma RequestEnds(run: seq<Step>, r: Request)
    requires Allowed(Empty, run) && r in Run(Empty, run).inflight
    ensures var c := Run(Empty, run);
            forall c' :: c' in {Next(c, ReplyArrives(r)), Next(c, ReplyFails(r))} ==>
              && r !in c'.inflight && c.inflight == c'.inflight + {r}
              && (c.slot == Some(r) ==> c'.slot.None?) && (c.slot != Some(r) ==> c'.slot == c.slot)
              && (c'.loaded && !c.loaded ==> c' == Next(c, ReplyArrives(r)) && r.generation == c.generation)
              && (c'.held == c.held || (c'.held == Some(r.begun) && c'.loaded))
  {
    RunKeepsInv(Empty, run);
  }

  /** The marker can vouch for a replay that misses an event seen on another tab. */
  lemma MarkerCanBeStale()
    ensures var run := [TabSelected(true), TabSelected(false), EventArrives, ReplyArrives(Request(0, 0, 0)),
                        TabSelected(true)];
            var c := Run(Empty, run);
            Allowed(Empty, run) && c.loaded && c.held == Some(0) && c.seen == 1
  {
    var r := Request(0, 0, 0);
    var c1 := Next(Empty, TabSelected(true));
    var c2 := Next(c1, TabSelected(false));
    var c3 := Next(c2, EventArrives);
    var c4 := Next(c3, ReplyArrives(r));
    var c5 := Next(c4, TabSelected(true));
    assert r in c3.inflight;
    assert c5.loaded && c5.held == Some(0) && c5.seen == 1;
    var run := [TabSelected(true), TabSelected(false), EventArrives, ReplyArrives(r), TabSelected(true)];
    assert run[1..] == [TabSelected(false), EventArrives, ReplyArrives(r), TabSelected(true)];
    assert run[1..][1..] == [EventArrives, ReplyArrives(r), TabSelected(true)];
    assert run[1..][1..][1..] == [ReplyArrives(r), TabSelected(true)];
    assert run[1..][1..][1..][1..] == [TabSelected(true)];
    assert run[1..][1..][1..][1..][1..] == [];
    assert Allowed(c5, []) && Run(c5, []) == c5;
    assert Allowed(c4, [TabSelected(true)]) && Run(c4, [TabSelected(true)]) == c5;
    assert Allowed(c3, run[3..]) && Run(c3, run[3..]) == c5;
    assert Allowed(c2, run[2..]) && Run(c2, run[2..]) == c5;
    assert Allowed(c1, run[1..]) && Run(c1, run[1..]) == c5;
  }
}
