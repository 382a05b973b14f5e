/**
 The governed loop around an agent
 (backend/app/agent_harness/runners/langchain_agent_executor.py): the agent is
 invoked again, with a reminder, until the contract of its kind is met or the
 continuations are used up.
 */
module Executor {
  import opened Options

  datatype Contract = Contract(
    artifactType: string,
    skills: seq<string>,
    resources: seq<(string, string)>,
    tools: seq<string>,
    maxContinuations: nat)

  /** What the agent's own doings leave in the event log. */
  datatype AgentEvent =
    | SkillLoaded(skill: string)
    | ResourceLoaded(owner: string, path: string)
    | ToolCompleted(tool: string)
    | OtherEvent(kind: string)

  datatype Missing = Missing(skills: seq<string>, resources: seq<(string, string)>, tools: seq<string>)

  datatype Entry =
    | ByAgent(event: AgentEvent)
    | ArtifactMissing(continuation: nat)
    | InteractionMissing(continuation: nat, missing: Missing)

  /** One invocation as the environment plays it: what it logs, what the sandbox then holds, whether it raises. */
  datatype Round = Round(events: seq<AgentEvent>, artifacts: seq<string>, raises: bool)

  datatype Report = Report(invoked: nat, raised: bool, log: seq<Entry>, artifacts: seq<string>)

  // ------------------------------------------------------------ the contract

  /** The log shows every required interaction. */
  ghost predicate Covers(log: seq<Entry>, c: Contract) {
    && (forall s :: s in c.skills ==> ByAgent(SkillLoaded(s)) in log)
    && (forall r :: r in c.resources ==> ByAgent(ResourceLoaded(r.0, r.1)) in log)
    && (forall t :: t in c.tools ==> ByAgent(ToolCompleted(t)) in log)
  }

  ghost predicate Met(log: seq<Entry>, artifacts: seq<string>, c: Contract) {
    c.artifactType in artifacts && Covers(log, c)
  }

  // ---------------------------------------------------- as the code finds out

  function Lacking<T(==)>(required: seq<T>, seen: set<T>): seq<T> {
    if required == [] then []
    else if required[0] in seen then Lacking(required[1..], seen)
    else [required[0]] + Lacking(required[1..], seen)
  }

  lemma {:induction false} LackingEmpty<T>(required: seq<T>, seen: set<T>)
    ensures Lacking(required, seen) == [] <==> forall x :: x in required ==> x in seen
  {
    if required != [] {
      LackingEmpty(required[1..], seen);
      assert required == [required[0]] + required[1..];
    }
  }

  function MissingInteractions(log: seq<Entry>, c: Contract): Missing {
    Missing(
      Lacking(c.skills, set e | e in log && e.ByAgent? && e.event.SkillLoaded? :: e.event.skill),
      Lacking(c.resources, set e | e in log && e.ByAgent? && e.event.ResourceLoaded? :: (e.event.owner, e.event.path)),
      Lacking(c.tools, set e | e in log && e.ByAgent? && e.event.ToolCompleted? :: e.event.tool))
  }

  predicate HasMissing(m: Missing) { m.skills != [] || m.resources != [] || m.tools != [] }

  lemma SkillsSeen(log: seq<Entry>, s: string)
    ensures s in (set e | e in log && e.ByAgent? && e.event.SkillLoaded? :: e.event.skill)
            <==> ByAgent(SkillLoaded(s)) in log
  {
  }

  lemma ResourcesSeen(log: seq<Entry>, r: (string, string))
    ensures r in (set e | e in log && e.ByAgent? && e.event.ResourceLoaded? :: (e.event.owner, e.event.path))
            <==> ByAgent(ResourceLoaded(r.0, r.1)) in log
  {
    var e := ByAgent(ResourceLoaded(r.0, r.1));
    if e in log { assert (e.event.owner, e.event.path) == r; }
  }

  lemma ToolsSeen(log: seq<Entry>, t: string)
    ensures t in (set e | e in log && e.ByAgent? && e.event.ToolCompleted? :: e.event.tool)
            <==> ByAgent(ToolCompleted(t)) in log
  {
  }

  lemma MissingIffNotCovered(log: seq<Entry>, c: Contract)
    ensures HasMissing(MissingInteractions(log, c)) <==> !Covers(log, c)
  {
    var skills := set e | e in log && e.ByAgent? && e.event.SkillLoaded? :: e.event.skill;
    var resources := set e | e in log && e.ByAgent? && e.event.ResourceLoaded? :: (e.event.owner, e.event.path);
    var tools := set e | e in log && e.ByAgent? && e.event.ToolCompleted? :: e.event.tool;
    LackingEmpty(c.skills, skills);
    LackingEmpty(c.resources, resources);
    LackingEmpty(c.tools, tools);
    forall s ensures s in skills <==> ByAgent(SkillLoaded(s)) in log { SkillsSeen(log, s); }
    forall r ensures r in resources <==> ByAgent(ResourceLoaded(r.0, r.1)) in log { ResourcesSeen(log, r); }
    forall t ensures t in tools <==> ByAgent(ToolCompleted(t)) in log { ToolsSeen(log, t); }
  }

  predicate Satisfied(log: seq<Entry>, artifacts: seq<string>, c: Contract) {
    c.artifactType in artifacts && !HasMissing(MissingInteractions(log, c))
  }

  lemma SatisfiedIsMet(log: seq<Entry>, artifacts: seq<string>, c: Contract)
    ensures Satisfied(log, artifacts, c) <==> Met(log, artifacts, c)
  {
    MissingIffNotCovered(log, c);
  }

  function Wrapped(events: seq<AgentEvent>): seq<Entry> {
    seq(|events|, i requires 0 <= i < |events| => ByAgent(events[i]))
  }

  /** The reminder logged after round `index`. */
  function Reminder(log: seq<Entry>, artifacts: seq<string>, c: Contract, index: nat): Entry {
    if c.artifactType !in artifacts then ArtifactMissing(index + 1)
    else InteractionMissing(index + 1, MissingInteractions(log, c))
  }

  // ---------------------------------------------------------------- the loop

  /** The run from round `index` on. */
  function RunFrom(c: Contract, rounds: nat -> Round, index: nat, log: seq<Entry>): Report
    requires index <= c.maxContinuations
    decreases c.maxContinuations - index
  {
    var round := rounds(index);
    var log1 := log + Wrapped(round.events);
    if round.raises then Report(index + 1, true, log1, [])
    else if Satisfied(log1, round.artifacts, c) || index == c.maxContinuations then
      Report(index + 1, false, log1, round.artifacts)
    else RunFrom(c, rounds, index + 1, log1 + [Reminder(log1, round.artifacts, c, index)])
  }

  function Execute(contract: Option<Contract>, rounds: nat -> Round, log: seq<Entry>): Report {
    match contract
    case Some(c) => RunFrom(c, rounds, 0, log)
    case None =>
      var log1 := log + Wrapped(rounds(0).events);
      Report(1, rounds(0).raises, log1, if rounds(0).raises then [] else rounds(0).artifacts)
  }

  /** The status of a run that did not raise. */
  predicate Succeeds(contract: Option<Contract>, r: Report) {
    contract.Some? ==> Satisfied(r.log, r.artifacts, contract.value)
  }

  method Invoke(contract: Option<Contract>, rounds: nat -> Round, log0: seq<Entry>)
    returns (report: Report, succeeded: bool)
    ensures report == Execute(contract, rounds, log0)
    ensures succeeded <==> !report.raised && Succeeds(contract, report)
  {
    var log, artifacts: seq<string> := log0, [];
    var most := if contract.Some? then contract.value.maxContinuations else 0;
    var index := 0;
    while true
      invariant index <= most
      invariant contract.Some? ==> RunFrom(contract.value, rounds, index, log) == Execute(contract, rounds, log0)
      invariant contract.None? ==> index == 0 && log == log0
      decreases most - index
    {
      var round := rounds(index);
      log := log + Wrapped(round.events);
      if round.raises { return Report(index + 1, true, log, []), false; }
      artifacts := round.artifacts;
      if contract.None? { break; }
      if Satisfied(log, artifacts, contract.value) { break; }
      if index >= most { break; }
      log := log + [Reminder(log, artifacts, contract.value, index)];
      index := index + 1;
    }
    report := Report(index + 1, false, log, artifacts);
    succeeded := contract.None? || Satisfied(log, artifacts, contract.value);
  }

  // ------------------------------------------------------------ main results

  /** The log just after round `k` of a run whose earlier rounds all fell short. */
  function LogAfter(c: Contract, rounds: nat -> Round, log: seq<Entry>, k: nat): seq<Entry> {
    var before := if k == 0 then log
                  else
                    var prev := LogAfter(c, rounds, log, k - 1);
                    prev + [Reminder(prev, rounds(k - 1).artifacts, c, k - 1)];
    before + Wrapped(rounds(k).events)
  }

  /** Round `k` neither raises nor meets the contract. */
  ghost predicate FallsShort(c: Contract, rounds: nat -> Round, log: seq<Entry>, k: nat) {
    !rounds(k).raises && !Met(LogAfter(c, rounds, log, k), rounds(k).artifacts, c)
  }

  /** The reminders in a log, in order. */
  function Reminders(log: seq<Entry>): seq<Entry> {
    if log == [] then []
    else Reminders(log[..|log| - 1]) + if log[|log| - 1].ByAgent? then [] else [log[|log| - 1]]
  }

  lemma {:induction false} RemindersConcat(a: seq<Entry>, b: seq<Entry>)
    ensures Reminders(a + b) == Reminders(a) + Reminders(b)
  {
    if b == [] {
      assert a + b == a;
    } else {
      var n := |b| - 1;
      assert (a + b)[..|a| + n] == a + b[..n];
      RemindersConcat(a, b[..n]);
    }
  }

  lemma {:induction false} AgentLogsNoReminder(events: seq<AgentEvent>)
    ensures Reminders(Wrapped(events)) == []
  {
    if events != [] {
      var n := |events| - 1;
      assert Wrapped(events)[..n] == Wrapped(events[..n]);
      AgentLogsNoReminder(events[..n]);
    }
  }

  /** The missing lists name what the log does not show, as often as the contract does. */
  ghost predicate Names(m: Missing, log: seq<Entry>, c: Contract) {
    && (forall s :: multiset(m.skills)[s]
                    == if ByAgent(SkillLoaded(s)) in log then 0 else multiset(c.skills)[s])
    && (forall r :: multiset(m.resources)[r]
                    == if ByAgent(ResourceLoaded(r.0, r.1)) in log then 0 else multiset(c.resources)[r])
    && (forall t :: multiset(m.tools)[t]
                    == if ByAgent(ToolCompleted(t)) in log then 0 else multiset(c.tools)[t])
  }

  lemma {:induction false} LackingCounts<T>(required: seq<T>, seen: set<T>, x: T)
    ensures multiset(Lacking(required, seen))[x] == if x in seen then 0 else multiset(required)[x]
  {
    if required != [] {
      LackingCounts(required[1..], seen, x);
      assert required == [required[0]] + required[1..];
    }
  }

  /** The lists found are those of the interactions that the log does not show. */
  lemma MissingIsNamed(log: seq<Entry>, c: Contract)
    ensures Names(MissingInteractions(log, c), log, c)
  {
    forall s
      ensures multiset(MissingInteractions(log, c).skills)[s]
              == if ByAgent(SkillLoaded(s)) in log then 0 else multiset(c.skills)[s]
    {
      SkillsSeen(log, s);
      LackingCounts(c.skills, set e | e in log && e.ByAgent? && e.event.SkillLoaded? :: e.event.skill, s);
    }
    forall r
      ensures multiset(MissingInteractions(log, c).resources)[r]
              == if ByAgent(ResourceLoaded(r.0, r.1)) in log then 0 else multiset(c.resources)[r]
    {
      ResourcesSeen(log, r);
      LackingCounts(c.resources,
                    set e | e in log && e.ByAgent? && e.event.ResourceLoaded? :: (e.event.owner, e.event.path), r);
    }
    forall t
      ensures multiset(MissingInteractions(log, c).tools)[t]
              == if ByAgent(ToolCompleted(t)) in log then 0 else multiset(c.tools)[t]
    {
      ToolsSeen(log, t);
      LackingCounts(c.tools, set e | e in log && e.ByAgent? && e.event.ToolCompleted? :: e.event.tool, t);
    }
  }

  /** After a round that left `log` and `artifacts`: a missing artifact goes first, then what is missing of the rest. */
  ghost predicate RemindsOf(e: Entry, continuation: nat, log: seq<Entry>, artifacts: seq<string>, c: Contract) {
    if c.artifactType in artifacts then
      e.InteractionMissing? && e.continuation == continuation && Names(e.missing, log, c)
    else e == ArtifactMissing(continuation)
  }

  /** One reminder for each of the first k rounds, numbered 1..k, about what that round left. */
  ghost predicate Reminded(c: Contract, rounds: nat -> Round, log: seq<Entry>, rs: seq<Entry>) {
    forall i {:trigger rs[i]} :: 0 <= i < |rs| ==>
      RemindsOf(rs[i], i + 1, LogAfter(c, rounds, log, i), rounds(i).artifacts, c)
  }

  lemma ReminderReminds(log: seq<Entry>, artifacts: seq<string>, c: Contract, index: nat)
    ensures RemindsOf(Reminder(log, artifacts, c, index), index + 1, log, artifacts, c)
  {
    MissingIsNamed(log, c);
  }

  lemma RemindersGrow(log: seq<Entry>, reminder: Entry, events: seq<AgentEvent>)
    requires !reminder.ByAgent?
    ensures Reminders(log + [reminder] + Wrapped(events)) == Reminders(log) + [reminder]
  {
    RemindersConcat(log, [reminder]);
    assert [reminder][..0] == [];
    RemindersConcat(log + [reminder], Wrapped(events));
    AgentLogsNoReminder(events);
  }

  lemma RemindedStep(c: Contract, rounds: nat -> Round, log: seq<Entry>, rs: seq<Entry>, prev: seq<Entry>)
    requires Reminded(c, rounds, log, rs) && prev == LogAfter(c, rounds, log, |rs|)
    ensures Reminded(c, rounds, log, rs + [Reminder(prev, rounds(|rs|).artifacts, c, |rs|)])
  {
    ReminderReminds(prev, rounds(|rs|).artifacts, c, |rs|);
  }

  lemma LogGrows(c: Contract, rounds: nat -> Round, log: seq<Entry>, k: nat)
    ensures var prev := LogAfter(c, rounds, log, k);
            Reminders(LogAfter(c, rounds, log, k + 1))
            == Reminders(prev) + [Reminder(prev, rounds(k).artifacts, c, k)]
  {
    var prev := LogAfter(c, rounds, log, k);
    RemindersGrow(prev, Reminder(prev, rounds(k).artifacts, c, k), rounds(k + 1).events);
  }

  /** Round k's log holds one reminder per earlier round, numbered 1..k and about what that round left missing. */
  lemma {:induction false} OneReminderPerRound(c: Contract, rounds: nat -> Round, log: seq<Entry>, k: nat)
    requires Reminders(log) == []
    ensures var rs := Reminders(LogAfter(c, rounds, log, k)); |rs| == k && Reminded(c, rounds, log, rs)
  {
    if k == 0 {
      AgentLogsNoReminder(rounds(0).events);
      RemindersConcat(log, Wrapped(rounds(0).events));
    } else {
      OneReminderPerRound(c, rounds, log, k - 1);
      var prev := LogAfter(c, rounds, log, k - 1);
      RemindedStep(c, rounds, log, Reminders(prev), prev);
      LogGrows(c, rounds, log, k - 1);
    }
  }

  /** The run that began at round `index` stopped at the first round that raised, met the contract, or was the last. */
  ghost predicate StopsRight(c: Contract, rounds: nat -> Round, log: seq<Entry>, index: nat, r: Report) {
    && index < r.invoked <= c.maxContinuations + 1
    && r.log == LogAfter(c, rounds, log, r.invoked - 1)
    && (forall k :: index <= k < r.invoked - 1 ==> FallsShort(c, rounds, log, k))
    && r.raised == rounds(r.invoked - 1).raises
    && (!r.raised ==> r.artifacts == rounds(r.invoked - 1).artifacts)
    && (!r.raised && !Met(r.log, r.artifacts, c) ==> r.invoked == c.maxContinuations + 1)
  }

  lemma {:induction false} RunFromStops(c: Contract, rounds: nat -> Round, log: seq<Entry>, index: nat,
                                        here: seq<Entry>)
    requires index <= c.maxContinuations
    requires here + Wrapped(rounds(index).events) == LogAfter(c, rounds, log, index)
    ensures StopsRight(c, rounds, log, index, RunFrom(c, rounds, index, here))
    decreases c.maxContinuations - index
  {
    var log1 := here + Wrapped(rounds(index).events);
    SatisfiedIsMet(log1, rounds(index).artifacts, c);
    if !rounds(index).raises && !Satisfied(log1, rounds(index).artifacts, c) && index < c.maxContinuations {
      assert FallsShort(c, rounds, log, index);
      RunFromStops(c, rounds, log, index + 1, log1 + [Reminder(log1, rounds(index).artifacts, c, index)]);
    }
  }

  /** One reminder for every round before the last, numbered from 1 and about what that round left missing. */
  ghost predicate RemindedInOrder(c: Contract, rounds: nat -> Round, log: seq<Entry>, r: Report) {
    |Reminders(r.log)| == r.invoked - 1 && Reminded(c, rounds, log, Reminders(r.log))
  }

  lemma StoppedReminded(c: Contract, rounds: nat -> Round, log: seq<Entry>, r: Report)
    requires Reminders(log) == [] && StopsRight(c, rounds, log, 0, r)
    ensures RemindedInOrder(c, rounds, log, r)
  {
    OneReminderPerRound(c, rounds, log, r.invoked - 1);
  }

  /**
   A contracted agent, whatever it does: it is invoked at most maxContinuations + 1
   times; the run stops at the first round that raises or meets the contract; every
   earlier round leaves exactly one reminder, in order, about what it left missing;
   and it succeeds exactly when the last round's artifacts and the whole log meet the
   contract.
   */
  lemma ContractedRun(c: Contract, rounds: nat -> Round, log: seq<Entry>)
    requires Reminders(log) == []
    ensures var r := Execute(Some(c), rounds, log);
            && StopsRight(c, rounds, log, 0, r) && RemindedInOrder(c, rounds, log, r)
            && (Succeeds(Some(c), r) <==> Met(r.log, r.artifacts, c))
  {
    var r := Execute(Some(c), rounds, log);
    RunFromStops(c, rounds, log, 0, log);
    StoppedReminded(c, rounds, log, r);
    SatisfiedIsMet(r.log, r.artifacts, c);
  }

  /** An agent without a contract has one round, and succeeds exactly when that does not raise. */
  lemma UncontractedRun(rounds: nat -> Round, log: seq<Entry>)
    ensures var r := Execute(None, rounds, log);
            && r.invoked == 1 && (r.raised <==> rounds(0).raises) && Succeeds(None, r)
            && |r.log| == |log| + |rounds(0).events| && log <= r.log
            && (forall i :: 0 <= i < |rounds(0).events| ==> r.log[|log| + i] == ByAgent(rounds(0).events[i]))
            && r.artifacts == if rounds(0).raises then [] else rounds(0).artifacts
  {
    assert Wrapped(rounds(0).events) == Execute(None, rounds, log).log[|log|..];
  }
}
