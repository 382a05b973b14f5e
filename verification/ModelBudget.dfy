/**
 The budget on model calls and the token totals of a run, as recorded by the
 middlewares (backend/app/agent_harness/middlewares/model_events.py and
 token_usage.py) and as read back from the event log
 (backend/app/agent_harness/persistence/query_service.py).
 */
module ModelBudget {
  import opened Options

  datatype Usage = Usage(input: int, output: int, total: int)

  datatype LogEvent =
    | ModelStarted(index: nat)
    | ModelFailed(index: nat)
    | ModelCompleted(index: nat)
    | BudgetExceeded(limit: int, actual: nat)
    | TokenUsage(usage: Usage, runningTotal: Usage)
    | OtherEvent(kind: string)

  /** How one model call goes: a deadline or hook may raise first, the handler may raise, or the deadline may pass. */
  datatype Attempt = Attempt(blocked: bool, handlerRaises: bool, lateAfter: bool)

  // ------------------------------------------------------------- model calls

  datatype Calls = Calls(count: nat, handled: nat, log: seq<LogEvent>)

  predicate Allowed(limit: Option<int>, count: nat) { limit.None? || count <= limit.value }

  function AfterCall(limit: Option<int>, s: Calls, a: Attempt): Calls {
    if a.blocked then s
    else
      var index := s.count + 1;
      if !Allowed(limit, index) then Calls(index, s.handled, s.log + [BudgetExceeded(limit.value, index)])
      else
        Calls(index, s.handled + 1,
              s.log + [ModelStarted(index)]
              + if a.handlerRaises then [ModelFailed(index)] else if a.lateAfter then [] else [ModelCompleted(index)])
  }

  class ModelCallMiddleware {
    const limit: Option<int>
    var count: nat
    var log: seq<LogEvent>
    ghost var handled: nat

    constructor (limit: Option<int>)
      ensures this.limit == limit && Value() == Calls(0, 0, [])
    {
      this.limit := limit;
      count, log, handled := 0, [], 0;
    }

    ghost function Value(): Calls
      reads this
    {
      Calls(count, handled, log)
    }

    /** `wrap_model_call`; the handler runs once iff the call got past the budget. */
    method WrapModelCall(a: Attempt) returns (returned: bool)
      modifies this
      ensures Value() == AfterCall(limit, old(Value()), a)
      ensures returned <==> !a.blocked && Allowed(limit, old(count) + 1) && !a.handlerRaises && !a.lateAfter
    {
      if a.blocked { return false; }
      count := count + 1;
      if limit.Some? && !(count <= limit.value) {
        log := log + [BudgetExceeded(limit.value, count)];
        return false;
      }
      log := log + [ModelStarted(count)];
      handled := handled + 1;
      if a.handlerRaises {
        log := log + [ModelFailed(count)];
        return false;
      }
      if a.lateAfter { return false; }
      log := log + [ModelCompleted(count)];
      returned := true;
    }
  }

  function AfterCalls(limit: Option<int>, attempts: seq<Attempt>): Calls {
    if attempts == [] then Calls(0, 0, [])
    else AfterCall(limit, AfterCalls(limit, attempts[..|attempts| - 1]), attempts[|attempts| - 1])
  }

  /** The "started" events of a log, by index. */
  function Started(log: seq<LogEvent>): seq<nat> {
    if log == [] then []
    else Started(log[..|log| - 1]) + if log[|log| - 1].ModelStarted? then [log[|log| - 1].index] else []
  }

  lemma {:induction false} StartedConcat(a: seq<LogEvent>, b: seq<LogEvent>)
    ensures Started(a + b) == Started(a) + Started(b)
  {
    if b == [] {
      assert a + b == a;
    } else {
      var n := |b| - 1;
      assert (a + b)[..|a| + n] == a + b[..n];
      StartedConcat(a, b[..n]);
    }
  }

  function UpTo(k: nat): seq<nat> { seq(k, i => i + 1) }

  predicate Quiet(log: seq<LogEvent>) { forall i :: 0 <= i < |log| ==> !log[i].ModelStarted? }

  lemma {:induction false} QuietStartsNothing(log: seq<LogEvent>)
    requires Quiet(log)
    ensures Started(log) == []
  {
    if log != [] { QuietStartsNothing(log[..|log| - 1]); }
  }

  lemma StartedOne(e: LogEvent)
    ensures Started([e]) == if e.ModelStarted? then [e.index] else []
  {
    assert [e][..0] == [];
  }

  lemma CallStep(limit: Option<int>, s: Calls, a: Attempt)
    ensures Started(AfterCall(limit, s, a).log)
            == Started(s.log) + if !a.blocked && Allowed(limit, s.count + 1) then [s.count + 1] else []
  {
    var index := s.count + 1;
    if !a.blocked {
      if Allowed(limit, index) {
        var log1 := s.log + [ModelStarted(index)];
        var tail := AfterCall(limit, s, a).log[|log1|..];
        assert AfterCall(limit, s, a).log == log1 + tail;
        StartedConcat(s.log, [ModelStarted(index)]);
        StartedOne(ModelStarted(index));
        StartedConcat(log1, tail);
        QuietStartsNothing(tail);
      } else {
        StartedConcat(s.log, [BudgetExceeded(limit.value, index)]);
        StartedOne(BudgetExceeded(limit.value, index));
      }
    }
  }

  /**
   Over any sequence of calls the handler runs once per "started" event, these carry
   the indices 1..k, and k never exceeds a limit (a negative one counts as zero).
   */
  lemma {:induction false} CallsWithinBudget(limit: Option<int>, attempts: seq<Attempt>)
    ensures WithinBudget(limit, AfterCalls(limit, attempts))
  {
    if attempts != [] {
      var n := |attempts| - 1;
      var before := AfterCalls(limit, attempts[..n]);
      CallsWithinBudget(limit, attempts[..n]);
      CallStep(limit, before, attempts[n]);
      assert UpTo(before.handled + 1) == UpTo(before.handled) + [before.handled + 1];
    }
  }

  predicate WithinBudget(limit: Option<int>, s: Calls) {
    && Started(s.log) == UpTo(s.handled)
    && (Allowed(limit, s.count) ==> s.handled == s.count)
    && (!Allowed(limit, s.count) ==> s.handled == if limit.value < 0 then 0 else limit.value)
    && (limit.Some? ==> s.handled <= if limit.value < 0 then 0 else limit.value)
  }

  /** The count shown on the timeline: "started" events, or usage events when there are none. */
  function ModelCallCount(log: seq<LogEvent>): nat {
    if |Started(log)| > 0 then |Started(log)| else |UsageEvents(log)|
  }

  function UsageEvents(log: seq<LogEvent>): seq<LogEvent> {
    if log == [] then []
    else UsageEvents(log[..|log| - 1]) + if log[|log| - 1].TokenUsage? then [log[|log| - 1]] else []
  }

  // ------------------------------------------------------------ token totals

  /** A model reply as the usage hook sees it: its key, and its usage if it reports one. */
  datatype Reply = Reply(key: string, usage: Option<Usage>)

  const Zero := Usage(0, 0, 0)

  function Plus(a: Usage, b: Usage): Usage { Usage(a.input + b.input, a.output + b.output, a.total + b.total) }

  /** `_normalize_usage`: an all-zero usage counts as none. */
  predicate Counts(r: Reply) { r.usage.Some? && r.usage.value != Zero }

  datatype Meter = Meter(seen: set<string>, total: Usage, log: seq<LogEvent>)

  function Record(m: Meter, r: Reply): Meter {
    if !Counts(r) || r.key in m.seen then m
    else
      var total := Plus(m.total, r.usage.value);
      Meter(m.seen + {r.key}, total, m.log + [TokenUsage(r.usage.value, total)])
  }

  class TokenMeter {
    var seen: set<string>
    var total: Usage
    var log: seq<LogEvent>

    ghost function Value(): Meter
      reads this
    {
      Meter(seen, total, log)
    }

    constructor ()
      ensures Value() == Meter({}, Zero, [])
    {
      seen, total, log := {}, Zero, [];
    }

    method RecordUsage(r: Reply)
      modifies this
      ensures Value() == Record(old(Value()), r)
    {
      if !Counts(r) { return; }
      if r.key in seen { return; }
      seen := seen + {r.key};
      total := Plus(total, r.usage.value);
      log := log + [TokenUsage(r.usage.value, total)];
    }
  }

  function RecordAll(replies: seq<Reply>): Meter {
    if replies == [] then Meter({}, Zero, []) else Record(RecordAll(replies[..|replies| - 1]), replies[|replies| - 1])
  }

  datatype Totals = Totals(usage: Usage, llmCalls: nat)

  /** `_token_usage_from_events`: the last usage event's total and the number of usage events. */
  method TokenUsageFromEvents(log: seq<LogEvent>) returns (totals: Option<Totals>)
    ensures totals == ReadTotals(log)
  {
    var last: Option<Usage>, calls := None, 0;
    for i := 0 to |log|
      invariant calls == |UsageEvents(log[..i])|
      invariant forall j :: 0 <= j < |UsageEvents(log[..i])| ==> UsageEvents(log[..i])[j].TokenUsage?
      invariant last == if calls == 0 then None else Some(UsageEvents(log[..i])[calls - 1].runningTotal)
    {
      assert log[..i + 1][..i] == log[..i];
      if log[i].TokenUsage? {
        calls := calls + 1;
        last := Some(log[i].runningTotal);
      }
    }
    assert log[..|log|] == log;
    totals := if last.Some? then Some(Totals(last.value, calls)) else None;
  }

  lemma {:induction false} UsageEventsAre(log: seq<LogEvent>)
    ensures forall i :: 0 <= i < |UsageEvents(log)| ==> UsageEvents(log)[i].TokenUsage?
  {
    if log != [] { UsageEventsAre(log[..|log| - 1]); }
  }

  function ReadTotals(log: seq<LogEvent>): Option<Totals> {
    var events := UsageEvents(log);
    UsageEventsAre(log);
    if events == [] then None else Some(Totals(events[|events| - 1].runningTotal, |events|))
  }

  /** Some tokens are reported. */
  predicate HasUsage(r: Reply) {
    r.usage.Some? && (r.usage.value.input != 0 || r.usage.value.output != 0 || r.usage.value.total != 0)
  }

  /** The keys of the replies that count, and the sum of each key's first counted usage. */
  function CountedKeys(replies: seq<Reply>): set<string> { set r | r in replies && HasUsage(r) :: r.key }

  function SumOfFirsts(replies: seq<Reply>): Usage {
    if replies == [] then Zero
    else
      var init, r := replies[..|replies| - 1], replies[|replies| - 1];
      if HasUsage(r) && r.key !in CountedKeys(init) then Plus(SumOfFirsts(init), r.usage.value) else SumOfFirsts(init)
  }

  /** The usages that count: of each key the first. */
  function FirstUsages(replies: seq<Reply>): seq<Usage> {
    if replies == [] then []
    else
      var init, r := replies[..|replies| - 1], replies[|replies| - 1];
      if HasUsage(r) && r.key !in CountedKeys(init) then FirstUsages(init) + [r.usage.value] else FirstUsages(init)
  }

  /** An entry for `usage` that carries the total so far on. */
  predicate CarriesOn(e: LogEvent, usage: Usage, before: Usage) {
    && e.TokenUsage? && e.usage == usage
    && e.runningTotal.input == before.input + usage.input
    && e.runningTotal.output == before.output + usage.output
    && e.runningTotal.total == before.total + usage.total
  }

  function TotalBefore(log: seq<LogEvent>, i: nat): Usage {
    if 0 < i <= |log| && log[i - 1].TokenUsage? then log[i - 1].runningTotal else Zero
  }

  /** One entry per usage that counts, in order, with the totals run up along the way. */
  ghost predicate RunsUp(log: seq<LogEvent>, usages: seq<Usage>) {
    |log| == |usages| && forall i :: 0 <= i < |log| ==> CarriesOn(log[i], usages[i], TotalBefore(log, i))
  }

  /** Who was counted, and what they add up to. */
  ghost predicate Summed(m: Meter, replies: seq<Reply>) {
    m.seen == CountedKeys(replies) && m.total == SumOfFirsts(replies) && |m.log| == |m.seen|
  }

  /** What was logged of them. */
  ghost predicate Logged(m: Meter, replies: seq<Reply>) {
    RunsUp(m.log, FirstUsages(replies)) && TotalBefore(m.log, |m.log|) == m.total
  }

  ghost predicate Metered(m: Meter, replies: seq<Reply>) { Summed(m, replies) && Logged(m, replies) }

  lemma CountedStep(replies: seq<Reply>, r: Reply)
    ensures CountedKeys(replies + [r]) == CountedKeys(replies) + if HasUsage(r) then {r.key} else {}
    ensures SumOfFirsts(replies + [r])
            == if HasUsage(r) && r.key !in CountedKeys(replies) then Plus(SumOfFirsts(replies), r.usage.value)
               else SumOfFirsts(replies)
    ensures FirstUsages(replies + [r])
            == if HasUsage(r) && r.key !in CountedKeys(replies) then FirstUsages(replies) + [r.usage.value]
               else FirstUsages(replies)
  {
    assert (replies + [r])[..|replies|] == replies;
  }

  lemma RunsUpStep(log: seq<LogEvent>, usages: seq<Usage>, e: LogEvent, usage: Usage)
    requires RunsUp(log, usages) && CarriesOn(e, usage, TotalBefore(log, |log|))
    ensures RunsUp(log + [e], usages + [usage]) && TotalBefore(log + [e], |log| + 1) == e.runningTotal
  {
    forall i | 0 <= i <= |log| ensures TotalBefore(log + [e], i) == TotalBefore(log, i) {}
  }

  lemma SumsAdd(m: Meter, replies: seq<Reply>, r: Reply)
    requires Summed(m, replies) && HasUsage(r) && r.key !in m.seen
    ensures Summed(Record(m, r), replies + [r])
  {
    CountedStep(replies, r);
  }

  lemma LogsAdd(m: Meter, replies: seq<Reply>, r: Reply)
    requires Summed(m, replies) && Logged(m, replies) && HasUsage(r) && r.key !in m.seen
    ensures Logged(Record(m, r), replies + [r])
  {
    CountedStep(replies, r);
    RunsUpStep(m.log, FirstUsages(replies), TokenUsage(r.usage.value, Plus(m.total, r.usage.value)), r.usage.value);
  }

  lemma MeterStep(m: Meter, replies: seq<Reply>, r: Reply)
    requires Metered(m, replies)
    ensures Metered(Record(m, r), replies + [r])
  {
    if HasUsage(r) && r.key !in m.seen {
      SumsAdd(m, replies, r);
      LogsAdd(m, replies, r);
    } else {
      CountedStep(replies, r);
    }
  }

  /** The meter after any replies: who was counted, what they add up to, and what was logged. */
  lemma {:induction false} MeterFacts(replies: seq<Reply>)
    ensures Metered(RecordAll(replies), replies)
  {
    if replies != [] {
      var init, r := replies[..|replies| - 1], replies[|replies| - 1];
      assert replies == init + [r];
      MeterFacts(init);
      MeterStep(RecordAll(init), init, r);
    }
  }

  // ------------------------------------------------------ what a run logs

  /** The attempts that got as far as being counted. */
  function Counted(attempts: seq<Attempt>): seq<Attempt> {
    if attempts == [] then []
    else
      var init, a := attempts[..|attempts| - 1], attempts[|attempts| - 1];
      if a.blocked then Counted(init) else Counted(init) + [a]
  }

  /** What the call with this index leaves: a refusal, or its start and, unless it came back late, its end. */
  predicate Trail(limit: Option<int>, index: nat, a: Attempt, events: seq<LogEvent>) {
    if limit.Some? && index > limit.value then events == [BudgetExceeded(limit.value, index)]
    else
      && events != [] && events[0] == ModelStarted(index)
      && |events| == (if a.lateAfter && !a.handlerRaises then 1 else 2)
      && (a.handlerRaises ==> events[1] == ModelFailed(index))
      && (!a.handlerRaises && !a.lateAfter ==> events[1] == ModelCompleted(index))
  }

  function Joined(pieces: seq<seq<LogEvent>>): seq<LogEvent> {
    if pieces == [] then [] else Joined(pieces[..|pieces| - 1]) + pieces[|pieces| - 1]
  }

  /** One trail per counted attempt, in order. */
  ghost predicate Trails(limit: Option<int>, counted: seq<Attempt>, pieces: seq<seq<LogEvent>>) {
    |pieces| == |counted| && forall i :: 0 <= i < |counted| ==> Trail(limit, i + 1, counted[i], pieces[i])
  }

  lemma CallLeavesTrail(limit: Option<int>, s: Calls, a: Attempt) returns (more: seq<LogEvent>)
    requires !a.blocked
    ensures AfterCall(limit, s, a).log == s.log + more && Trail(limit, s.count + 1, a, more)
  {
    more := AfterCall(limit, s, a).log[|s.log|..];
  }

  lemma TrailsStep(limit: Option<int>, counted: seq<Attempt>, pieces: seq<seq<LogEvent>>, a: Attempt,
                   more: seq<LogEvent>)
    requires Trails(limit, counted, pieces) && Trail(limit, |counted| + 1, a, more)
    ensures Trails(limit, counted + [a], pieces + [more]) && Joined(pieces + [more]) == Joined(pieces) + more
  {
    assert (pieces + [more])[..|pieces|] == pieces;
  }

  /** Every counted attempt leaves its trail, whichever way it ends, and nothing else is logged. */
  lemma {:induction false} CallsLogged(limit: Option<int>, attempts: seq<Attempt>) returns (pieces: seq<seq<LogEvent>>)
    ensures Trails(limit, Counted(attempts), pieces) && AfterCalls(limit, attempts).log == Joined(pieces)
    ensures AfterCalls(limit, attempts).count == |Counted(attempts)|
  {
    pieces := [];
    if attempts != [] {
      var init, a := attempts[..|attempts| - 1], attempts[|attempts| - 1];
      var earlier := CallsLogged(limit, init);
      pieces := earlier;
      if !a.blocked {
        var more := CallLeavesTrail(limit, AfterCalls(limit, init), a);
        TrailsStep(limit, Counted(init), earlier, a, more);
        pieces := earlier + [more];
      }
    }
  }

  /** The timeline's count is the number of provider calls, once there was one, and otherwise of usage events. */
  lemma TimelineCount(limit: Option<int>, attempts: seq<Attempt>, log: seq<LogEvent>)
    requires Started(log) == Started(AfterCalls(limit, attempts).log)
    ensures var calls := AfterCalls(limit, attempts).handled;
            ModelCallCount(log) == if calls > 0 then calls else |UsageEvents(log)|
  {
    CallsWithinBudget(limit, attempts);
  }

  // ------------------------------------------------- one usage per message key

  /** Re-presented messages keep their usage. */
  ghost predicate Agrees(replies: seq<Reply>, usageOf: map<string, Usage>) {
    forall r :: r in replies && HasUsage(r) ==> r.key in usageOf && usageOf[r.key] == r.usage.value
  }

  /** The sum of a whole number per key, in whatever order. */
  ghost function Sum(keys: set<string>, number: string -> int): int
    decreases keys
  {
    if keys == {} then 0
    else
      var k :| k in keys;
      number(k) + Sum(keys - {k}, number)
  }

  lemma {:induction false} SumRemove(keys: set<string>, number: string -> int, x: string)
    requires x in keys
    ensures Sum(keys, number) == number(x) + Sum(keys - {x}, number)
    decreases keys
  {
    var k :| k in keys && Sum(keys, number) == number(k) + Sum(keys - {k}, number);
    if k != x {
      SumRemove(keys - {k}, number, x);
      SumRemove(keys - {x}, number, k);
      assert keys - {x} - {k} == keys - {k} - {x};
    }
  }

  function UsageFor(usageOf: map<string, Usage>, key: string): Usage {
    if key in usageOf then usageOf[key] else Zero
  }

  /** `total` holds the three sums over `keys`, of input, output and total tokens. */
  ghost predicate AddsUp(total: Usage, keys: set<string>, usageOf: map<string, Usage>) {
    && total.input == Sum(keys, key => UsageFor(usageOf, key).input)
    && total.output == Sum(keys, key => UsageFor(usageOf, key).output)
    && total.total == Sum(keys, key => UsageFor(usageOf, key).total)
  }

  lemma AddsUpStep(total: Usage, keys: set<string>, usageOf: map<string, Usage>, x: string)
    requires AddsUp(total, keys, usageOf) && x !in keys && x in usageOf
    ensures AddsUp(Plus(total, usageOf[x]), keys + {x}, usageOf)
  {
    assert keys + {x} - {x} == keys;
    SumRemove(keys + {x}, key => UsageFor(usageOf, key).input, x);
    SumRemove(keys + {x}, key => UsageFor(usageOf, key).output, x);
    SumRemove(keys + {x}, key => UsageFor(usageOf, key).total, x);
  }

  lemma {:induction false} FirstsAddUp(replies: seq<Reply>, usageOf: map<string, Usage>)
    requires Agrees(replies, usageOf)
    ensures AddsUp(SumOfFirsts(replies), CountedKeys(replies), usageOf)
  {
    if replies != [] {
      var init, r := replies[..|replies| - 1], replies[|replies| - 1];
      assert replies == init + [r];
      FirstsAddUp(init, usageOf);
      CountedStep(init, r);
      var keys := CountedKeys(init);
      if HasUsage(r) && r.key !in keys {
        AddsUpStep(SumOfFirsts(init), keys, usageOf, r.key);
      } else {
        assert CountedKeys(replies) == keys;
      }
    }
  }

  /**
   The totals read back from the log are the sum over the distinct messages with a
   non-zero usage, and their number, however often and in whatever order the
   messages were presented, and whatever else was logged in between.
   */
  lemma TotalsReadBack(replies: seq<Reply>, usageOf: map<string, Usage>, log: seq<LogEvent>)
    requires Agrees(replies, usageOf) && UsageEvents(log) == UsageEvents(RecordAll(replies).log)
    ensures ReadTotals(log).None? <==> CountedKeys(replies) == {}
    ensures ReadTotals(log).Some? ==>
              var totals := ReadTotals(log).value;
              AddsUp(totals.usage, CountedKeys(replies), usageOf) && totals.llmCalls == |CountedKeys(replies)|
  {
    MeterFacts(replies);
    FirstsAddUp(replies, usageOf);
    AllUsage(RecordAll(replies).log);
  }

  lemma {:induction false} AllUsage(log: seq<LogEvent>)
    requires forall i :: 0 <= i < |log| ==> log[i].TokenUsage?
    ensures UsageEvents(log) == log
  {
    if log != [] {
      AllUsage(log[..|log| - 1]);
      assert log == log[..|log| - 1] + [log[|log| - 1]];
    }
  }
}
