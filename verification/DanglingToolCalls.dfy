/**
 Repair of a message history before it goes to the model: every identified tool
 call must be answered (backend/app/agent_harness/middlewares/dangling_tool_call.py).
 */
module DanglingToolCalls {
  import opened Options

  /** The id of a call: None and "" both count as missing. */
  datatype Id = Missing | Id(text: string)

  /** What an answer is named after; a call without a name goes by "unknown". */
  datatype Name = Unknown | Named(name: string)

  datatype Call = Call(id: Id, name: Name)

  /** Either what a tool said, or the fixed notice that it was interrupted. */
  datatype Content = Said(text: string) | InterruptedNotice

  datatype Status = Success | Error

  datatype Message =
    | AI(calls: seq<Call>, content: string)
    | Tool(callId: Id, result: Content, name: Name, status: Status)
    | Other(kind: string, content: string)

  function Interrupted(call: Call): Message {
    Tool(call.id, InterruptedNotice, call.name, Error)
  }

  // ---------------------------------------------------------- specification

  predicate IsAnswer(m: Message, id: Id) { m.Tool? && m.callId == id }

  /** The tool messages for an id, in order. */
  function Answers(ms: seq<Message>, id: Id): seq<Message> {
    if ms == [] then []
    else
      var init, m := ms[..|ms| - 1], ms[|ms| - 1];
      if IsAnswer(m, id) then Answers(init, id) + [m] else Answers(init, id)
  }

  function CountIn(calls: seq<Call>, id: Id): nat {
    if calls == [] then 0
    else CountIn(calls[..|calls| - 1], id) + if calls[|calls| - 1].id == id then 1 else 0
  }

  function CallsOf(m: Message): seq<Call> { if m.AI? then m.calls else [] }

  /** How many calls carry an id. */
  function CountCalls(ms: seq<Message>, id: Id): nat {
    if ms == [] then 0
    else CountCalls(ms[..|ms| - 1], id) + CountIn(CallsOf(ms[|ms| - 1]), id)
  }

  predicate Called(ms: seq<Message>, id: Id) { id != Missing && CountCalls(ms, id) > 0 }

  /** The answer to the k-th call of an id: the k-th original, or a stand-in. */
  function Reply(all: seq<Message>, call: Call, k: nat): Message {
    if k < |Answers(all, call.id)| then Answers(all, call.id)[k] else Interrupted(call)
  }

  /** One answer per identified call of a message that `before` precedes. */
  function Replies(all: seq<Message>, before: seq<Message>, calls: seq<Call>): seq<Message> {
    if calls == [] then []
    else
      var init, call := calls[..|calls| - 1], calls[|calls| - 1];
      if call.id == Missing then Replies(all, before, init)
      else Replies(all, before, init) + [Reply(all, call, CountCalls(before, call.id) + CountIn(init, call.id))]
  }

  /** What message `m`, preceded by `before`, turns into. */
  function Block(all: seq<Message>, before: seq<Message>, m: Message): seq<Message> {
    if m.Tool? && Called(all, m.callId) then [] else [m] + Replies(all, before, CallsOf(m))
  }

  function RepairPrefix(all: seq<Message>, ms: seq<Message>): seq<Message> {
    if ms == [] then []
    else
      var init := ms[..|ms| - 1];
      RepairPrefix(all, init) + Block(all, init, ms[|ms| - 1])
  }

  /** The rebuilt list, whether or not the repair hands it on. */
  function Rebuilt(ms: seq<Message>): seq<Message> { RepairPrefix(ms, ms) }

  /** Some call of the message found no original answer left. */
  predicate StandsIn(all: seq<Message>, before: seq<Message>, calls: seq<Call>) {
    if calls == [] then false
    else
      var init, call := calls[..|calls| - 1], calls[|calls| - 1];
      StandsIn(all, before, init)
      || (call.id != Missing && CountCalls(before, call.id) + CountIn(init, call.id) >= |Answers(all, call.id)|)
  }

  predicate StandsInPrefix(all: seq<Message>, ms: seq<Message>) {
    if ms == [] then false
    else StandsInPrefix(all, ms[..|ms| - 1]) || StandsIn(all, ms[..|ms| - 1], CallsOf(ms[|ms| - 1]))
  }

  ghost predicate Short(ms: seq<Message>, id: Id) { id != Missing && CountCalls(ms, id) > |Answers(ms, id)| }

  ghost predicate Dangling(ms: seq<Message>) { exists id :: Short(ms, id) }

  // -------------------------------------------------------------- algorithm

  type Queues = map<Id, seq<Message>>

  function Queue(queues: Queues, id: Id): seq<Message> { if id in queues then queues[id] else [] }

  method CollectAnswers(ms: seq<Message>) returns (queues: Queues)
    ensures forall id :: id != Missing ==> Queue(queues, id) == Answers(ms, id)
  {
    queues := map[];
    for i := 0 to |ms|
      invariant forall id :: id != Missing ==> Queue(queues, id) == Answers(ms[..i], id)
    {
      assert ms[..i + 1][..i] == ms[..i];
      if ms[i].Tool? && ms[i].callId != Missing {
        queues := queues[ms[i].callId := Queue(queues, ms[i].callId) + [ms[i]]];
      }
    }
    assert ms[..|ms|] == ms;
  }

  lemma CountInPositive(calls: seq<Call>, id: Id)
    ensures CountIn(calls, id) > 0 <==> exists j :: 0 <= j < |calls| && calls[j].id == id
  {
    if calls != [] {
      var init := calls[..|calls| - 1];
      CountInPositive(init, id);
      if CountIn(init, id) > 0 {
        var j :| 0 <= j < |init| && init[j].id == id;
        assert calls[j].id == id;
      }
    }
  }

  /** The j-th call of the i-th message carries the id. */
  ghost predicate CallAt(ms: seq<Message>, i: nat, j: nat, id: Id) {
    i < |ms| && ms[i].AI? && j < |ms[i].calls| && ms[i].calls[j].id == id
  }

  /** To be called is to be carried by some call. */
  lemma {:induction false} CalledIff(ms: seq<Message>, id: Id)
    ensures Called(ms, id) <==> id != Missing && exists i: nat, j: nat :: CallAt(ms, i, j, id)
  {
    if ms != [] {
      var init, m := ms[..|ms| - 1], ms[|ms| - 1];
      CalledIff(init, id);
      CountInPositive(CallsOf(m), id);
      if i: nat, j: nat :| CallAt(init, i, j, id) { assert CallAt(ms, i, j, id); }
      if i: nat, j: nat :| CallAt(ms, i, j, id) && !CallAt(init, i, j, id) { assert CallsOf(m)[j].id == id; }
      if j: nat :| j < |CallsOf(m)| && CallsOf(m)[j].id == id { assert CallAt(ms, |ms| - 1, j, id); }
    }
  }

  method CollectCallIds(ms: seq<Message>) returns (ids: set<Id>)
    ensures forall id :: id in ids <==> Called(ms, id)
    ensures forall id :: id in ids <==> id != Missing && exists i: nat, j: nat :: CallAt(ms, i, j, id)
  {
    ids := {};
    for i := 0 to |ms|
      invariant forall id :: id in ids <==> Called(ms[..i], id)
    {
      assert ms[..i + 1][..i] == ms[..i];
      var calls := CallsOf(ms[i]);
      var found := set j | 0 <= j < |calls| && calls[j].id != Missing :: calls[j].id;
      forall id ensures id in found <==> id != Missing && CountIn(calls, id) > 0 {
        CountInPositive(calls, id);
      }
      ids := ids + found;
    }
    assert ms[..|ms|] == ms;
    forall id ensures Called(ms, id) <==> id != Missing && exists i: nat, j: nat :: CallAt(ms, i, j, id) {
      CalledIff(ms, id);
    }
  }

  /** What is left of a queue after `used` calls. */
  function Left(answers: seq<Message>, used: nat): seq<Message> {
    if used <= |answers| then answers[used..] else []
  }

  /** How often an id was called in `ms` and then `calls`. */
  function Used(ms: seq<Message>, calls: seq<Call>, id: Id): nat { CountCalls(ms, id) + CountIn(calls, id) }

  /** The queues after `ms` and then `calls` have been answered. */
  ghost predicate QueuesAt(queues: Queues, all: seq<Message>, ms: seq<Message>, calls: seq<Call>) {
    forall id :: id != Missing ==> Queue(queues, id) == Left(Answers(all, id), Used(ms, calls, id))
  }

  lemma QueueHead(answers: seq<Message>, used: nat)
    ensures Left(answers, used) == [] <==> used >= |answers|
    ensures used < |answers| ==>
              Left(answers, used)[0] == answers[used] && Left(answers, used)[1..] == Left(answers, used + 1)
    ensures used >= |answers| ==> Left(answers, used + 1) == []
  {
  }

  lemma CountStep(calls: seq<Call>, call: Call, id: Id)
    ensures CountIn(calls + [call], id) == CountIn(calls, id) + if call.id == id then 1 else 0
  {
    assert (calls + [call])[..|calls|] == calls;
  }

  lemma CountMessage(ms: seq<Message>, m: Message, id: Id)
    ensures CountCalls(ms + [m], id) == CountCalls(ms, id) + CountIn(CallsOf(m), id)
  {
    assert (ms + [m])[..|ms|] == ms;
  }

  lemma QueuesSkip(queues: Queues, all: seq<Message>, ms: seq<Message>, calls: seq<Call>, call: Call)
    requires QueuesAt(queues, all, ms, calls) && call.id == Missing
    ensures QueuesAt(queues, all, ms, calls + [call])
  {
    forall id | id != Missing ensures Used(ms, calls + [call], id) == Used(ms, calls, id) {
      CountStep(calls, call, id);
    }
  }

  lemma QueuesStep(queues: Queues, next: Queues, all: seq<Message>, ms: seq<Message>, calls: seq<Call>, call: Call)
    requires QueuesAt(queues, all, ms, calls) && call.id != Missing
    requires var queue := Queue(queues, call.id);
             next == if queue == [] then queues else queues[call.id := queue[1..]]
    ensures QueuesAt(next, all, ms, calls + [call])
  {
    forall id | id != Missing ensures Queue(next, id) == Left(Answers(all, id), Used(ms, calls + [call], id)) {
      CountStep(calls, call, id);
      QueueHead(Answers(all, id), Used(ms, calls, id));
    }
  }

  lemma QueuesMessage(queues: Queues, all: seq<Message>, ms: seq<Message>, m: Message)
    requires QueuesAt(queues, all, ms, CallsOf(m))
    ensures QueuesAt(queues, all, ms + [m], [])
  {
    forall id | id != Missing ensures Used(ms + [m], [], id) == Used(ms, CallsOf(m), id) { CountMessage(ms, m, id); }
  }

  lemma RepliesStep(all: seq<Message>, ms: seq<Message>, calls: seq<Call>, call: Call)
    ensures call.id == Missing ==> Replies(all, ms, calls + [call]) == Replies(all, ms, calls)
    ensures call.id != Missing ==>
              Replies(all, ms, calls + [call])
              == Replies(all, ms, calls) + [Reply(all, call, CountCalls(ms, call.id) + CountIn(calls, call.id))]
  {
    assert (calls + [call])[..|calls|] == calls;
  }

  lemma StandsInStep(all: seq<Message>, ms: seq<Message>, calls: seq<Call>, call: Call)
    ensures StandsIn(all, ms, calls + [call]) == (StandsIn(all, ms, calls)
      || (call.id != Missing && CountCalls(ms, call.id) + CountIn(calls, call.id) >= |Answers(all, call.id)|))
  {
    assert (calls + [call])[..|calls|] == calls;
  }

  lemma RepairStep(all: seq<Message>, ms: seq<Message>, m: Message)
    ensures RepairPrefix(all, ms + [m]) == RepairPrefix(all, ms) + Block(all, ms, m)
    ensures StandsInPrefix(all, ms + [m]) == (StandsInPrefix(all, ms) || StandsIn(all, ms, CallsOf(m)))
  {
    assert (ms + [m])[..|ms|] == ms;
  }

  method AnswerCall(all: seq<Message>, ghost ms: seq<Message>, ghost calls: seq<Call>, call: Call, queues: Queues)
    returns (reply: Message, next: Queues, interrupted: bool)
    requires call.id != Missing && QueuesAt(queues, all, ms, calls)
    ensures next == if Queue(queues, call.id) == [] then queues else queues[call.id := Queue(queues, call.id)[1..]]
    ensures reply == Reply(all, call, CountCalls(ms, call.id) + CountIn(calls, call.id))
    ensures interrupted <==> CountCalls(ms, call.id) + CountIn(calls, call.id) >= |Answers(all, call.id)|
    ensures QueuesAt(next, all, ms, calls + [call])
  {
    var queue := Queue(queues, call.id);
    QueueHead(Answers(all, call.id), Used(ms, calls, call.id));
    if queue != [] {
      reply, next, interrupted := queue[0], queues[call.id := queue[1..]], false;
    } else {
      reply, next, interrupted := Interrupted(call), queues, true;
    }
    QueuesStep(queues, next, all, ms, calls, call);
  }

  lemma SkipCall(all: seq<Message>, ms: seq<Message>, calls: seq<Call>, call: Call, queues: Queues)
    requires call.id == Missing && QueuesAt(queues, all, ms, calls)
    ensures Replies(all, ms, calls + [call]) == Replies(all, ms, calls)
    ensures StandsIn(all, ms, calls + [call]) == StandsIn(all, ms, calls)
    ensures QueuesAt(queues, all, ms, calls + [call])
  {
    RepliesStep(all, ms, calls, call);
    StandsInStep(all, ms, calls, call);
    QueuesSkip(queues, all, ms, calls, call);
  }

  method AnswerCalls(all: seq<Message>, ghost ms: seq<Message>, calls: seq<Call>, queues0: Queues)
    returns (replies: seq<Message>, queues: Queues, changed: bool)
    requires QueuesAt(queues0, all, ms, [])
    ensures replies == Replies(all, ms, calls)
    ensures changed <==> StandsIn(all, ms, calls)
    ensures QueuesAt(queues, all, ms, calls)
  {
    replies, queues, changed := [], queues0, false;
    for j := 0 to |calls|
      invariant replies == Replies(all, ms, calls[..j])
      invariant changed <==> StandsIn(all, ms, calls[..j])
      invariant QueuesAt(queues, all, ms, calls[..j])
    {
      assert calls[..j + 1] == calls[..j] + [calls[j]];
      if calls[j].id == Missing {
        SkipCall(all, ms, calls[..j], calls[j], queues);
      } else {
        var reply, next, interrupted := AnswerCall(all, ms, calls[..j], calls[j], queues);
        RepliesStep(all, ms, calls[..j], calls[j]);
        StandsInStep(all, ms, calls[..j], calls[j]);
        replies, queues, changed := replies + [reply], next, changed || interrupted;
      }
    }
    assert calls[..|calls|] == calls;
  }

  lemma SkipMessage(all: seq<Message>, ms: seq<Message>, m: Message, queues: Queues)
    requires m.Tool? && Called(all, m.callId) && QueuesAt(queues, all, ms, [])
    ensures RepairPrefix(all, ms + [m]) == RepairPrefix(all, ms)
    ensures StandsInPrefix(all, ms + [m]) == StandsInPrefix(all, ms)
    ensures QueuesAt(queues, all, ms + [m], [])
  {
    RepairStep(all, ms, m);
    QueuesMessage(queues, all, ms, m);
  }

  method BuildPatchedMessages(ms: seq<Message>) returns (result: Option<seq<Message>>)
    ensures result.None? <==> !Dangling(ms)
    ensures result.Some? ==> result.value == Rebuilt(ms)
  {
    var queues := CollectAnswers(ms);
    var ids := CollectCallIds(ms);
    var patched: seq<Message> := [];
    var changed := false;
    for i := 0 to |ms|
      invariant patched == RepairPrefix(ms, ms[..i])
      invariant changed <==> StandsInPrefix(ms, ms[..i])
      invariant QueuesAt(queues, ms, ms[..i], [])
    {
      assert ms[..i + 1] == ms[..i] + [ms[i]];
      if ms[i].Tool? && ms[i].callId in ids {
        SkipMessage(ms, ms[..i], ms[i], queues);
      } else {
        var replies, next, interrupted := AnswerCalls(ms, ms[..i], CallsOf(ms[i]), queues);
        RepairStep(ms, ms[..i], ms[i]);
        QueuesMessage(next, ms, ms[..i], ms[i]);
        patched, queues, changed := patched + ([ms[i]] + replies), next, changed || interrupted;
      }
    }
    assert ms[..|ms|] == ms;
    PatchesIffDangling(ms);
    result := if changed then Some(patched) else None;
  }

  // ------------------------------------------------- when it hands on a list

  ghost predicate Over(all: seq<Message>, ms: seq<Message>, calls: seq<Call>) {
    exists id :: OverAt(all, ms, calls, id)
  }

  ghost predicate OverAt(all: seq<Message>, ms: seq<Message>, calls: seq<Call>, id: Id) {
    id != Missing && Used(ms, calls, id) > |Answers(all, id)|
  }

  lemma {:induction false} StandsInIff(all: seq<Message>, ms: seq<Message>, calls: seq<Call>)
    ensures Over(all, ms, calls) <==> Over(all, ms, []) || StandsIn(all, ms, calls)
  {
    if calls != [] {
      var init, call := calls[..|calls| - 1], calls[|calls| - 1];
      assert calls == init + [call];
      StandsInIff(all, ms, init);
      StandsInStep(all, ms, init, call);
      CountStep(init, call, call.id);
      if id :| OverAt(all, ms, calls, id) && !OverAt(all, ms, init, id) { CountStep(init, call, id); }
      if id :| OverAt(all, ms, init, id) {
        CountStep(init, call, id);
        assert OverAt(all, ms, calls, id);
      }
      if call.id != Missing && Used(ms, init, call.id) >= |Answers(all, call.id)| {
        assert OverAt(all, ms, calls, call.id);
      }
    }
  }

  lemma {:induction false} StandsInPrefixIff(all: seq<Message>, ms: seq<Message>)
    ensures Over(all, ms, []) <==> StandsInPrefix(all, ms)
  {
    if ms == [] {
      forall id | OverAt(all, ms, [], id) ensures false {}
    } else {
      var init, m := ms[..|ms| - 1], ms[|ms| - 1];
      assert ms == init + [m];
      StandsInPrefixIff(all, init);
      StandsInIff(all, init, CallsOf(m));
      forall id ensures OverAt(all, ms, [], id) <==> OverAt(all, init, CallsOf(m), id) { CountMessage(init, m, id); }
    }
  }

  /** The repair hands on a new list exactly when some id has more calls than answers. */
  lemma PatchesIffDangling(ms: seq<Message>)
    ensures StandsInPrefix(ms, ms) <==> Dangling(ms)
  {
    StandsInPrefixIff(ms, ms);
    forall id ensures Short(ms, id) <==> OverAt(ms, ms, [], id) {}
  }

  // ------------------------------------------------------ counting and order

  lemma {:induction false} AnswersConcat(a: seq<Message>, b: seq<Message>, id: Id)
    ensures Answers(a + b, id) == Answers(a, id) + Answers(b, id)
    ensures CountCalls(a + b, id) == CountCalls(a, id) + CountCalls(b, id)
  {
    if b == [] {
      assert a + b == a;
    } else {
      var n := |b| - 1;
      assert (a + b)[..|a| + n] == a + b[..n];
      AnswersConcat(a, b[..n], id);
    }
  }

  predicate AllAnswers(all: seq<Message>, ms: seq<Message>) {
    forall m :: m in ms ==> m.Tool? && Called(all, m.callId)
  }

  ghost predicate CallsKnown(all: seq<Message>, calls: seq<Call>) {
    forall id :: id != Missing && CountIn(calls, id) > 0 ==> Called(all, id)
  }

  ghost predicate MessagesKnown(all: seq<Message>, ms: seq<Message>) {
    forall id :: Called(ms, id) ==> Called(all, id)
  }

  lemma {:induction false} AnswersAreAnswers(ms: seq<Message>, id: Id)
    ensures forall k :: 0 <= k < |Answers(ms, id)| ==> IsAnswer(Answers(ms, id)[k], id)
  {
    if ms != [] { AnswersAreAnswers(ms[..|ms| - 1], id); }
  }

  lemma ReplyIsAnswer(all: seq<Message>, call: Call, k: nat)
    ensures IsAnswer(Reply(all, call, k), call.id)
  {
    AnswersAreAnswers(all, call.id);
  }

  lemma AnswersStep(ms: seq<Message>, m: Message, id: Id)
    ensures Answers(ms + [m], id) == if IsAnswer(m, id) then Answers(ms, id) + [m] else Answers(ms, id)
  {
    assert (ms + [m])[..|ms|] == ms;
  }

  lemma CallsKnownStep(all: seq<Message>, calls: seq<Call>, call: Call)
    requires CallsKnown(all, calls + [call])
    ensures CallsKnown(all, calls)
    ensures call.id != Missing ==> Called(all, call.id)
  {
    CountStep(calls, call, call.id);
    forall id | id != Missing && CountIn(calls, id) > 0 ensures Called(all, id) { CountStep(calls, call, id); }
  }

  lemma AnswersAppend(all: seq<Message>, replies: seq<Message>, call: Call, k: nat)
    requires AllAnswers(all, replies) && Called(all, call.id)
    ensures AllAnswers(all, replies + [Reply(all, call, k)])
  {
    ReplyIsAnswer(all, call, k);
  }

  lemma {:induction false} RepliesAreAnswers(all: seq<Message>, ms: seq<Message>, calls: seq<Call>)
    requires CallsKnown(all, calls)
    ensures AllAnswers(all, Replies(all, ms, calls))
  {
    if calls != [] {
      var init, call := calls[..|calls| - 1], calls[|calls| - 1];
      assert calls == init + [call];
      CallsKnownStep(all, init, call);
      RepliesAreAnswers(all, ms, init);
      RepliesStep(all, ms, init, call);
      if call.id != Missing {
        AnswersAppend(all, Replies(all, ms, init), call, Used(ms, init, call.id));
      } else {
        assert Replies(all, ms, calls) == Replies(all, ms, init);
      }
    }
  }

  /** One message is given one answer per identified call. */
  lemma {:induction false} RepliesCount(all: seq<Message>, ms: seq<Message>, calls: seq<Call>, id: Id)
    requires id != Missing
    ensures |Answers(Replies(all, ms, calls), id)| == CountIn(calls, id)
    ensures CountCalls(Replies(all, ms, calls), id) == 0
  {
    if calls != [] {
      var init, call := calls[..|calls| - 1], calls[|calls| - 1];
      assert calls == init + [call];
      RepliesStep(all, ms, init, call);
      RepliesCount(all, ms, init, id);
      CountStep(init, call, id);
      if call.id == Missing {
        assert Replies(all, ms, calls) == Replies(all, ms, init);
      } else {
        var reply := Reply(all, call, Used(ms, init, call.id));
        ReplyIsAnswer(all, call, Used(ms, init, call.id));
        AnswersStep(Replies(all, ms, init), reply, id);
        CountMessage(Replies(all, ms, init), reply, id);
      }
    }
  }

  lemma SingleAnswer(m: Message, id: Id)
    ensures Answers([m], id) == if IsAnswer(m, id) then [m] else []
    ensures CountCalls([m], id) == CountIn(CallsOf(m), id)
  {
    assert [m][..0] == [];
  }

  lemma PrefixKnown(all: seq<Message>, ms: seq<Message>, m: Message)
    requires MessagesKnown(all, ms + [m])
    ensures MessagesKnown(all, ms) && CallsKnown(all, CallsOf(m))
  {
    forall id ensures CountCalls(ms + [m], id) == CountCalls(ms, id) + CountIn(CallsOf(m), id) {
      CountMessage(ms, m, id);
    }
    forall id | Called(ms, id) ensures Called(all, id) { assert Called(ms + [m], id); }
    forall id | id != Missing && CountIn(CallsOf(m), id) > 0 ensures Called(all, id) { assert Called(ms + [m], id); }
  }

  /** In the rebuilt list each called id has one answer per call, and no call is added or lost. */
  lemma {:induction false} RebuiltCounts(all: seq<Message>, ms: seq<Message>, id: Id)
    requires MessagesKnown(all, ms) && id != Missing
    ensures CountCalls(RepairPrefix(all, ms), id) == CountCalls(ms, id)
    ensures Called(all, id) ==> |Answers(RepairPrefix(all, ms), id)| == CountCalls(ms, id)
    ensures !Called(all, id) ==> Answers(RepairPrefix(all, ms), id) == Answers(ms, id)
  {
    if ms != [] {
      var init, m := ms[..|ms| - 1], ms[|ms| - 1];
      assert ms == init + [m];
      PrefixKnown(all, init, m);
      RebuiltCounts(all, init, id);
      RepairStep(all, init, m);
      BlockCounts(all, init, m, id);
      AnswersConcat(RepairPrefix(all, init), Block(all, init, m), id);
      CountMessage(init, m, id);
    }
  }

  lemma BlockCounts(all: seq<Message>, ms: seq<Message>, m: Message, id: Id)
    requires CallsKnown(all, CallsOf(m)) && id != Missing
    ensures CountCalls(Block(all, ms, m), id) == CountIn(CallsOf(m), id)
    ensures Called(all, id) ==> |Answers(Block(all, ms, m), id)| == CountIn(CallsOf(m), id)
    ensures !Called(all, id) ==> Answers(Block(all, ms, m), id) == if IsAnswer(m, id) then [m] else []
  {
    var replies := Replies(all, ms, CallsOf(m));
    RepliesCount(all, ms, CallsOf(m), id);
    AnswersConcat([m], replies, id);
    SingleAnswer(m, id);
    if !Called(all, id) { assert CountIn(CallsOf(m), id) == 0; }
  }

  // ----------------------------------------------------- which answer, where

  /** `m` is what the k-th call of an id must get. */
  predicate GivenAt(all: seq<Message>, id: Id, k: nat, m: Message) {
    if k < |Answers(all, id)| then m == Answers(all, id)[k]
    else m.Tool? && m.callId == id && m.result == InterruptedNotice && m.status == Error
  }

  /** Every answer in `given` is the one its position, counted from `k0`, calls for. */
  predicate AllGiven(all: seq<Message>, id: Id, k0: nat, given: seq<Message>) {
    forall j :: 0 <= j < |given| ==> GivenAt(all, id, k0 + j, given[j])
  }

  lemma GivenStep(all: seq<Message>, id: Id, k0: nat, given: seq<Message>, call: Call)
    requires AllGiven(all, id, k0, given) && call.id == id
    ensures AllGiven(all, id, k0, given + [Reply(all, call, k0 + |given|)])
  {
    ReplyIsAnswer(all, call, k0 + |given|);
  }

  lemma GivenReply(all: seq<Message>, id: Id, k0: nat, replies: seq<Message>, call: Call, k: nat)
    requires AllGiven(all, id, k0, Answers(replies, id))
    requires call.id == id ==> k == k0 + |Answers(replies, id)|
    ensures AllGiven(all, id, k0, Answers(replies + [Reply(all, call, k)], id))
  {
    ReplyIsAnswer(all, call, k);
    AnswersStep(replies, Reply(all, call, k), id);
    if call.id == id { GivenStep(all, id, k0, Answers(replies, id), call); }
  }

  lemma {:induction false} RepliesGiven(all: seq<Message>, ms: seq<Message>, calls: seq<Call>, id: Id)
    requires id != Missing
    ensures AllGiven(all, id, CountCalls(ms, id), Answers(Replies(all, ms, calls), id))
  {
    if calls != [] {
      var init, call := calls[..|calls| - 1], calls[|calls| - 1];
      assert calls == init + [call];
      RepliesStep(all, ms, init, call);
      RepliesGiven(all, ms, init, id);
      if call.id == Missing {
        assert Replies(all, ms, calls) == Replies(all, ms, init);
      } else {
        RepliesCount(all, ms, init, id);
        GivenReply(all, id, CountCalls(ms, id), Replies(all, ms, init), call, Used(ms, init, call.id));
      }
    }
  }

  lemma GivenConcat(all: seq<Message>, id: Id, k0: nat, a: seq<Message>, b: seq<Message>)
    requires AllGiven(all, id, k0, a) && AllGiven(all, id, k0 + |a|, b)
    ensures AllGiven(all, id, k0, a + b)
  {
    forall j | 0 <= j < |a + b| ensures GivenAt(all, id, k0 + j, (a + b)[j]) {
      if j >= |a| { assert GivenAt(all, id, k0 + |a| + (j - |a|), b[j - |a|]); }
    }
  }

  /** The k-th call of an id gets its k-th original answer, and a stand-in only past the last. */
  lemma {:induction false} RebuiltGives(all: seq<Message>, ms: seq<Message>, id: Id)
    requires MessagesKnown(all, ms) && Called(all, id)
    ensures AllGiven(all, id, 0, Answers(RepairPrefix(all, ms), id))
  {
    if ms != [] {
      var init, m := ms[..|ms| - 1], ms[|ms| - 1];
      assert ms == init + [m];
      PrefixKnown(all, init, m);
      RebuiltGives(all, init, id);
      RebuiltCounts(all, init, id);
      RepairStep(all, init, m);
      BlockGives(all, init, m, id, RepairPrefix(all, init));
    }
  }

  lemma BlockGives(all: seq<Message>, ms: seq<Message>, m: Message, id: Id, before: seq<Message>)
    requires Called(all, id) && |Answers(before, id)| == CountCalls(ms, id)
    requires AllGiven(all, id, 0, Answers(before, id))
    ensures AllGiven(all, id, 0, Answers(before + Block(all, ms, m), id))
  {
    RepliesGiven(all, ms, CallsOf(m), id);
    BlockAnswers(all, ms, m, id);
    GivenJoin(all, id, before, Block(all, ms, m));
  }

  lemma GivenJoin(all: seq<Message>, id: Id, a: seq<Message>, b: seq<Message>)
    requires AllGiven(all, id, 0, Answers(a, id))
    requires AllGiven(all, id, |Answers(a, id)|, Answers(b, id))
    ensures AllGiven(all, id, 0, Answers(a + b, id))
  {
    AnswersConcat(a, b, id);
    GivenConcat(all, id, 0, Answers(a, id), Answers(b, id));
  }

  lemma BlockAnswers(all: seq<Message>, ms: seq<Message>, m: Message, id: Id)
    requires Called(all, id)
    ensures Answers(Block(all, ms, m), id) == Answers(Replies(all, ms, CallsOf(m)), id)
  {
    AnswersConcat([m], Replies(all, ms, CallsOf(m)), id);
    SingleAnswer(m, id);
  }

  /** Everything that is not an answer to some call. */
  function Spine(all: seq<Message>, ms: seq<Message>): seq<Message> {
    if ms == [] then []
    else
      var m := ms[|ms| - 1];
      if m.Tool? && Called(all, m.callId) then Spine(all, ms[..|ms| - 1]) else Spine(all, ms[..|ms| - 1]) + [m]
  }

  lemma {:induction false} SpineOfAnswers(all: seq<Message>, a: seq<Message>, b: seq<Message>)
    requires AllAnswers(all, b)
    ensures Spine(all, a + b) == Spine(all, a)
  {
    if b == [] {
      assert a + b == a;
    } else {
      var n := |b| - 1;
      assert (a + b)[..|a| + n] == a + b[..n];
      SpineOfAnswers(all, a, b[..n]);
      assert b[n] in b;
    }
  }

  /** All other messages are kept, in order. */
  lemma {:induction false} RebuiltSpine(all: seq<Message>, ms: seq<Message>)
    requires MessagesKnown(all, ms)
    ensures Spine(all, RepairPrefix(all, ms)) == Spine(all, ms)
  {
    if ms != [] {
      var init, m := ms[..|ms| - 1], ms[|ms| - 1];
      assert ms == init + [m];
      PrefixKnown(all, init, m);
      RebuiltSpine(all, init);
      RepairStep(all, init, m);
      SpineOfBlock(all, init, m, RepairPrefix(all, init));
    }
  }

  lemma SpineOfBlock(all: seq<Message>, init: seq<Message>, m: Message, before: seq<Message>)
    requires CallsKnown(all, CallsOf(m))
    ensures Spine(all, before + Block(all, init, m))
            == if m.Tool? && Called(all, m.callId) then Spine(all, before) else Spine(all, before) + [m]
  {
    var replies := Replies(all, init, CallsOf(m));
    if m.Tool? && Called(all, m.callId) {
      assert before + Block(all, init, m) == before;
    } else {
      RepliesAreAnswers(all, init, CallsOf(m));
      assert before + Block(all, init, m) == (before + [m]) + replies;
      SpineOfAnswers(all, before + [m], replies);
      SpineStep(all, before, m);
    }
  }

  lemma SpineStep(all: seq<Message>, ms: seq<Message>, m: Message)
    ensures Spine(all, ms + [m]) == if m.Tool? && Called(all, m.callId) then Spine(all, ms) else Spine(all, ms) + [m]
  {
    assert (ms + [m])[..|ms|] == ms;
  }

  /** The identified calls, in order. */
  function Identified(calls: seq<Call>): seq<Call> {
    if calls == [] then []
    else
      var init, call := calls[..|calls| - 1], calls[|calls| - 1];
      if call.id == Missing then Identified(init) else Identified(init) + [call]
  }

  /** `m` is the k-th original answer to the call's id, or past the last a notice under the call's own id and name. */
  predicate Fits(all: seq<Message>, m: Message, call: Call, k: nat) {
    if k < |Answers(all, call.id)| then m == Answers(all, call.id)[k]
    else m == Tool(call.id, InterruptedNotice, call.name, Error)
  }

  /** The answers given to `calls` fit, one each and in order, when `ms` came before. */
  ghost predicate AllFit(all: seq<Message>, ms: seq<Message>, calls: seq<Call>, replies: seq<Message>) {
    && |replies| == |calls|
    && forall j :: 0 <= j < |calls| ==> Fits(all, replies[j], calls[j], Used(ms, calls[..j], calls[j].id))
  }

  /** The message at `i` is followed at once by one fitting answer per identified call, in call order. */
  ghost predicate AnsweredAt(all: seq<Message>, ms: seq<Message>, i: nat)
    requires i < |ms|
  {
    var calls := Identified(CallsOf(ms[i]));
    i + |calls| < |ms| && AllFit(all, ms[..i], calls, ms[i + 1..i + 1 + |calls|])
  }

  ghost predicate WellAnswered(all: seq<Message>, ms: seq<Message>) {
    forall i :: 0 <= i < |ms| ==> AnsweredAt(all, ms, i)
  }

  lemma {:induction false} IdentifiedCount(calls: seq<Call>, id: Id)
    requires id != Missing
    ensures CountIn(Identified(calls), id) == CountIn(calls, id)
  {
    if calls != [] {
      var init, call := calls[..|calls| - 1], calls[|calls| - 1];
      IdentifiedCount(init, id);
      CountStep(Identified(init), call, id);
    }
  }

  lemma FitStep(all: seq<Message>, ms: seq<Message>, calls: seq<Call>, replies: seq<Message>, call: Call, m: Message)
    requires AllFit(all, ms, calls, replies) && Fits(all, m, call, Used(ms, calls, call.id))
    ensures AllFit(all, ms, calls + [call], replies + [m])
  {
    forall j | 0 <= j < |calls| + 1
      ensures Fits(all, (replies + [m])[j], (calls + [call])[j],
                   Used(ms, (calls + [call])[..j], (calls + [call])[j].id))
    {
      assert (calls + [call])[..j] == calls[..j];
    }
  }

  lemma {:induction false} RepliesFit(all: seq<Message>, ms: seq<Message>, calls: seq<Call>)
    ensures AllFit(all, ms, Identified(calls), Replies(all, ms, calls))
  {
    if calls != [] {
      var init, call := calls[..|calls| - 1], calls[|calls| - 1];
      RepliesFit(all, ms, init);
      if call.id != Missing {
        IdentifiedCount(init, call.id);
        FitStep(all, ms, Identified(init), Replies(all, ms, init), call, Reply(all, call, Used(ms, init, call.id)));
      }
    }
  }

  /** What fits depends on `ms` only through the number of calls in it. */
  lemma FitElsewhere(all: seq<Message>, ms: seq<Message>, before: seq<Message>, calls: seq<Call>,
                     replies: seq<Message>)
    requires AllFit(all, ms, calls, replies) && forall j :: 0 <= j < |calls| ==> calls[j].id != Missing
    requires forall id :: id != Missing ==> CountCalls(before, id) == CountCalls(ms, id)
    ensures AllFit(all, before, calls, replies)
  {
  }

  lemma {:induction false} IdentifiedHaveIds(calls: seq<Call>)
    ensures forall j :: 0 <= j < |Identified(calls)| ==> Identified(calls)[j].id != Missing
  {
    if calls != [] { IdentifiedHaveIds(calls[..|calls| - 1]); }
  }

  lemma {:induction false} RebuiltAnswered(all: seq<Message>, ms: seq<Message>)
    requires MessagesKnown(all, ms)
    ensures WellAnswered(all, RepairPrefix(all, ms))
  {
    if ms != [] {
      var init, m := ms[..|ms| - 1], ms[|ms| - 1];
      assert ms == init + [m];
      PrefixKnown(all, init, m);
      RebuiltAnswered(all, init);
      RepliesFit(all, init, CallsOf(m));
      IdentifiedHaveIds(CallsOf(m));
      forall id | id != Missing ensures CountCalls(RepairPrefix(all, init), id) == CountCalls(init, id) {
        RebuiltCounts(all, init, id);
      }
      var replies := Replies(all, init, CallsOf(m));
      FitElsewhere(all, init, RepairPrefix(all, init), Identified(CallsOf(m)), replies);
      RepliesAreAnswers(all, init, CallsOf(m));
      AppendBlock(all, RepairPrefix(all, init), Block(all, init, m), m, replies);
    }
  }

  lemma AppendBlock(all: seq<Message>, before: seq<Message>, block: seq<Message>, m: Message, replies: seq<Message>)
    requires WellAnswered(all, before) && (block == [] || block == [m] + replies)
    requires AllAnswers(all, replies) && AllFit(all, before, Identified(CallsOf(m)), replies)
    ensures WellAnswered(all, before + block)
  {
    var ms := before + block;
    forall i | 0 <= i < |ms| ensures AnsweredAt(all, ms, i) {
      var n := |Identified(CallsOf(ms[i]))|;
      if i < |before| {
        assert AnsweredAt(all, before, i);
        assert ms[..i] == before[..i] && ms[i + 1..i + 1 + n] == before[i + 1..i + 1 + n];
      } else if i == |before| {
        assert ms[..i] == before && ms[i + 1..i + 1 + n] == replies;
      } else {
        assert ms[i] == replies[i - |before| - 1] && ms[i] in replies;
      }
    }
  }

  // ------------------------------------------------------------ second repair

  lemma AnswersOfPrefix(a: seq<Message>, b: seq<Message>, id: Id)
    requires a <= b
    ensures Answers(a, id) <= Answers(b, id)
  {
    assert b == a + b[|a|..];
    AnswersConcat(a, b[|a|..], id);
  }

  lemma PrefixOfPrefix(a: seq<Message>, m: Message, b: seq<Message>)
    requires a + [m] <= b
    ensures a <= b
  {
    assert a == (a + [m])[..|a|];
  }

  /** `reached` ends just where the answers to the message after `ms` begin. */
  ghost predicate ReachedBy(all: seq<Message>, ms: seq<Message>, reached: seq<Message>) {
    forall id :: Called(all, id) ==> |Answers(reached, id)| == CountCalls(ms, id)
  }

  lemma ReplyInPlace(all: seq<Message>, ms: seq<Message>, reached: seq<Message>, init: seq<Call>, call: Call,
                     given: seq<Message>, rebuilt: seq<Message>)
    requires Called(all, call.id) && ReachedBy(all, ms, reached)
    requires given == reached + Replies(all, ms, init)
    requires given + [Reply(all, call, Used(ms, init, call.id))] <= rebuilt
    ensures Reply(rebuilt, call, Used(ms, init, call.id)) == Reply(all, call, Used(ms, init, call.id))
  {
    var k := Used(ms, init, call.id);
    var reply := Reply(all, call, k);
    AnswersConcat(reached, Replies(all, ms, init), call.id);
    RepliesCount(all, ms, init, call.id);
    assert |Answers(given, call.id)| == k;
    ReplyIsAnswer(all, call, k);
    AnswersStep(given, reply, call.id);
    AnswersOfPrefix(given + [reply], rebuilt, call.id);
    assert Answers(given + [reply], call.id)[k] == reply;
  }

  /** One more call: what its reply is, read back, and that the earlier ones still lie in front. */
  lemma AgainStep(all: seq<Message>, ms: seq<Message>, reached: seq<Message>, init: seq<Call>, call: Call,
                  rebuilt: seq<Message>)
    requires CallsKnown(all, init + [call]) && ReachedBy(all, ms, reached)
    requires reached + Replies(all, ms, init + [call]) <= rebuilt
    ensures CallsKnown(all, init) && reached + Replies(all, ms, init) <= rebuilt
    ensures call.id != Missing ==>
              Reply(rebuilt, call, Used(ms, init, call.id)) == Reply(all, call, Used(ms, init, call.id))
  {
    forall i | i != Missing && CountIn(init, i) > 0 ensures Called(all, i) { CountStep(init, call, i); }
    RepliesStep(all, ms, init, call);
    var given := reached + Replies(all, ms, init);
    if call.id == Missing {
      assert reached + Replies(all, ms, init + [call]) == given;
    } else {
      var reply := Reply(all, call, Used(ms, init, call.id));
      assert reached + Replies(all, ms, init + [call]) == given + [reply];
      PrefixOfPrefix(given, reply, rebuilt);
      CountStep(init, call, call.id);
      ReplyInPlace(all, ms, reached, init, call, given, rebuilt);
    }
  }

  /** Reading the answers back from the rebuilt list gives the same replies. */
  lemma {:induction false} RepliesAgain(all: seq<Message>, ms: seq<Message>, before: seq<Message>,
                                        reached: seq<Message>, calls: seq<Call>, rebuilt: seq<Message>)
    requires CallsKnown(all, calls) && ReachedBy(all, ms, reached)
    requires forall id :: id != Missing ==> CountCalls(before, id) == CountCalls(ms, id)
    requires reached + Replies(all, ms, calls) <= rebuilt
    ensures Replies(rebuilt, before, calls) == Replies(all, ms, calls)
  {
    if calls != [] {
      var init, call := calls[..|calls| - 1], calls[|calls| - 1];
      assert calls == init + [call];
      AgainStep(all, ms, reached, init, call, rebuilt);
      RepliesAgain(all, ms, before, reached, init, rebuilt);
      RepliesStep(all, ms, init, call);
      RepliesStep(rebuilt, before, init, call);
    }
  }

  lemma {:induction false} RepairDropsAnswers(all: seq<Message>, a: seq<Message>, b: seq<Message>)
    requires AllAnswers(all, b)
    ensures RepairPrefix(all, a + b) == RepairPrefix(all, a)
  {
    if b == [] {
      assert a + b == a;
    } else {
      var n := |b| - 1;
      assert a + b == (a + b[..n]) + [b[n]] && b[n] in b;
      RepairDropsAnswers(all, a, b[..n]);
      RepairStep(all, a + b[..n], b[n]);
    }
  }

  lemma RebuiltReaches(all: seq<Message>, ms: seq<Message>, m: Message)
    requires MessagesKnown(all, ms) && !m.Tool?
    ensures ReachedBy(all, ms, RepairPrefix(all, ms) + [m])
    ensures forall id :: id != Missing ==> CountCalls(RepairPrefix(all, ms), id) == CountCalls(ms, id)
  {
    forall id | id != Missing
      ensures CountCalls(RepairPrefix(all, ms), id) == CountCalls(ms, id)
      ensures Called(all, id) ==> |Answers(RepairPrefix(all, ms) + [m], id)| == CountCalls(ms, id)
    {
      RebuiltCounts(all, ms, id);
      AnswersStep(RepairPrefix(all, ms), m, id);
    }
  }

  lemma BlockAgain(all: seq<Message>, init: seq<Message>, m: Message, rebuilt: seq<Message>)
    requires MessagesKnown(all, init) && CallsKnown(all, CallsOf(m))
    requires RepairPrefix(all, init) + Block(all, init, m) <= rebuilt
    requires forall id :: Called(rebuilt, id) <==> Called(all, id)
    ensures RepairPrefix(rebuilt, RepairPrefix(all, init) + Block(all, init, m))
            == RepairPrefix(rebuilt, RepairPrefix(all, init)) + Block(all, init, m)
  {
    var before, replies := RepairPrefix(all, init), Replies(all, init, CallsOf(m));
    if m.Tool? && Called(all, m.callId) {
      assert before + Block(all, init, m) == before;
    } else {
      assert before + Block(all, init, m) == (before + [m]) + replies;
      if !m.Tool? {
        RebuiltReaches(all, init, m);
        RepliesAgain(all, init, before, before + [m], CallsOf(m), rebuilt);
      }
      RepliesAreAnswers(all, init, CallsOf(m));
      RepairDropsAnswers(rebuilt, before + [m], replies);
      RepairStep(rebuilt, before, m);
    }
  }

  lemma {:induction false} RepairAgain(all: seq<Message>, ms: seq<Message>, rebuilt: seq<Message>)
    requires MessagesKnown(all, ms)
    requires RepairPrefix(all, ms) <= rebuilt
    requires forall id :: Called(rebuilt, id) <==> Called(all, id)
    ensures RepairPrefix(rebuilt, RepairPrefix(all, ms)) == RepairPrefix(all, ms)
  {
    if ms != [] {
      var init, m := ms[..|ms| - 1], ms[|ms| - 1];
      assert ms == init + [m];
      PrefixKnown(all, init, m);
      RepairStep(all, init, m);
      assert RepairPrefix(all, init) <= rebuilt by {
        assert RepairPrefix(all, init) == RepairPrefix(all, ms)[..|RepairPrefix(all, init)|];
      }
      RepairAgain(all, init, rebuilt);
      BlockAgain(all, init, m, rebuilt);
    }
  }

  // ------------------------------------------------------------ main results

  lemma SelfKnown(ms: seq<Message>)
    ensures MessagesKnown(ms, ms)
    ensures forall id :: Called(Rebuilt(ms), id) <==> Called(ms, id)
  {
    forall id | id != Missing ensures CountCalls(Rebuilt(ms), id) == CountCalls(ms, id) { RebuiltCounts(ms, ms, id); }
  }

  /** The rebuilt list, for every message list. */
  lemma RebuiltList(ms: seq<Message>)
    ensures WellAnswered(ms, Rebuilt(ms))
    ensures Spine(ms, Rebuilt(ms)) == Spine(ms, ms)
    ensures forall id :: Called(ms, id) ==> |Answers(Rebuilt(ms), id)| == CountCalls(ms, id)
    ensures forall id, k :: Called(ms, id) && 0 <= k < |Answers(Rebuilt(ms), id)| ==>
              GivenAt(ms, id, k, Answers(Rebuilt(ms), id)[k])
  {
    SelfKnown(ms);
    RebuiltAnswered(ms, ms);
    RebuiltSpine(ms, ms);
    forall id | Called(ms, id)
      ensures |Answers(Rebuilt(ms), id)| == CountCalls(ms, id)
      ensures forall k :: 0 <= k < |Answers(Rebuilt(ms), id)| ==> GivenAt(ms, id, k, Answers(Rebuilt(ms), id)[k])
    {
      RebuiltCounts(ms, ms, id);
      RebuiltGives(ms, ms, id);
      forall k | 0 <= k < |Answers(Rebuilt(ms), id)| ensures GivenAt(ms, id, k, Answers(Rebuilt(ms), id)[k]) {
        assert GivenAt(ms, id, 0 + k, Answers(Rebuilt(ms), id)[k]);
      }
    }
  }

  /** A repaired list needs no repair, and rebuilding it changes nothing. */
  lemma SecondRepair(ms: seq<Message>)
    ensures !Dangling(Rebuilt(ms))
    ensures Rebuilt(Rebuilt(ms)) == Rebuilt(ms)
  {
    SelfKnown(ms);
    forall id | id != Missing ensures !Short(Rebuilt(ms), id) { RebuiltCounts(ms, ms, id); }
    RepairAgain(ms, ms, Rebuilt(ms));
  }

  /** What goes to the model: the rebuilt list when some id is short, the history itself otherwise. */
  ghost function Sent(ms: seq<Message>): seq<Message> { if Dangling(ms) then Rebuilt(ms) else ms }

  /** `wrap_model_call` up to the handler. */
  method WrapModelCall(ms: seq<Message>) returns (sent: seq<Message>)
    ensures sent == Sent(ms)
  {
    var patched := BuildPatchedMessages(ms);
    sent := if patched.Some? then patched.value else ms;
  }

  /** What is sent never dangles, and sending it again changes nothing. */
  lemma SentIsSettled(ms: seq<Message>)
    ensures !Dangling(Sent(ms)) && Sent(Sent(ms)) == Sent(ms)
  {
    SecondRepair(ms);
  }

  /**
   All original answers of a called id are sent on exactly when nothing dangles at
   all, or that id has no more answers than calls.
   */
  lemma NothingDroppedIff(ms: seq<Message>, id: Id)
    requires Called(ms, id)
    ensures Answers(ms, id) <= Answers(Sent(ms), id) <==> !Dangling(ms) || |Answers(ms, id)| <= CountCalls(ms, id)
  {
    RebuiltList(ms);
  }

  /** A history with one unanswered call loses the second answer of another call. */
  lemma SurplusAnswerLost(a: Id, b: Id)
    requires a != b && a != Missing && b != Missing
    ensures var surplus := Tool(a, Said("y"), Unknown, Success);
            var ms := [AI([Call(a, Unknown), Call(b, Unknown)], ""), Tool(a, Said("x"), Unknown, Success), surplus];
            Dangling(ms) && surplus in ms && !(Answers(ms, a) <= Answers(Sent(ms), a))
  {
    var first, surplus := Tool(a, Said("x"), Unknown, Success), Tool(a, Said("y"), Unknown, Success);
    var calls := [Call(a, Unknown), Call(b, Unknown)];
    var none: seq<Message> := [];
    var asked := [AI(calls, "")];
    CallsOfTwo(calls[0], calls[1], a);
    CallsOfTwo(calls[0], calls[1], b);
    forall id ensures CountCalls(asked, id) == CountIn(calls, id) && Answers(asked, id) == [] {
      assert none + [AI(calls, "")] == asked;
      CountMessage(none, AI(calls, ""), id);
      AnswersStep(none, AI(calls, ""), id);
    }
    var ms := (asked + [first]) + [surplus];
    forall id
      ensures CountCalls(ms, id) == CountIn(calls, id)
      ensures Answers(ms, id) == if id == a then [first, surplus] else []
    {
      CountMessage(asked, first, id);
      CountMessage(asked + [first], surplus, id);
      AnswersStep(asked, first, id);
      AnswersStep(asked + [first], surplus, id);
    }
    assert Short(ms, b);
    NothingDroppedIff(ms, a);
    assert ms == [AI(calls, ""), first, surplus];
  }

  lemma CallsOfTwo(x: Call, y: Call, id: Id)
    ensures CountIn([x, y], id) == (if x.id == id then 1 else 0) + if y.id == id then 1 else 0
  {
    var none: seq<Call> := [];
    assert none + [x] == [x] && [x] + [y] == [x, y];
    CountStep(none, x, id);
    CountStep([x], y, id);
  }
}
