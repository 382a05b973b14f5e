/**
 One agent run and what the database holds of it afterwards
 (backend/app/agent_harness/service.py, events.py and persistence/).

 The events of a run reach the table in one of two ways: each event as it is
 recorded (live), or all at the end (batch).  Every database write can fail; a
 failed live insert raises out of `record`, after the event has entered the
 in-memory log, and may or may not be swallowed by the code that recorded it.
 */
module RunPersistence {
  import opened Options

  type RunId = string

  datatype Kind = RunStarted | RunCompleted | RunFailed | OtherKind(name: string)

  datatype Event = Event(seqNo: nat, kind: Kind, payload: string)

  datatype Artifact = Artifact(kind: string, path: string, contentHash: string)

  /** `info` stands for the fields copied from the invocation's context. */
  datatype Run = Run(agentKey: string, info: string, status: string, error: string)

  /** The three tables; the event table is keyed by its unique index. */
  datatype Db = Db(
    runs: map<RunId, Run>,
    events: map<(RunId, nat), Event>,
    artifacts: map<RunId, seq<Artifact>>)

  datatype Result = Result(status: string, error: string, artifacts: seq<Artifact>)

  /** The foreign keys: rows belong to a known run. */
  ghost predicate ForeignKeys(db: Db) {
    (forall k :: k in db.events ==> k.0 in db.runs) && (forall r :: r in db.artifacts ==> r in db.runs)
  }

  // ------------------------------------------------------------- environment

  /** What a live insert of the event would do; without a live sink it is not tried. */
  datatype Insert = Works | Breaks(error: string)

  /** One call of `record`. */
  datatype Recording = Recording(kind: Kind, payload: string, insert: Insert)

  datatype Ending = Returns(result: Result) | Raises(error: string)

  /** What the agent does: it records events, can react to a `record` that raises, and comes to an end. */
  datatype Course =
    | Ends(ending: Ending)
    | Records(what: Recording, ifFine: Course, ifRaised: Course)

  /** Everything outside the service's control. */
  datatype Script = Script(
    startWorks: bool,
    startInfo: string,
    startInsert: Insert,
    course: Course,
    completedInsert: Insert,
    save: Insert,             // writing the output and persisting the result
    failedInsert: Insert,
    failureSave: Insert)

  // ---------------------------------------------------------- specification

  /** Which of the run's events are in the table. */
  ghost predicate Rows(events: map<(RunId, nat), Event>, run: RunId, log: seq<Event>, present: seq<bool>)
    requires |present| == |log|
  {
    forall k: nat ::
      ((run, k) in events <==> 1 <= k <= |log| && present[k - 1])
      && ((run, k) in events ==> events[(run, k)] == log[k - 1])
  }

  ghost predicate OthersKept(before: Db, after: Db, run: RunId) {
    && (forall r, k :: r != run ==> SameAt(before.events, after.events, (r, k)))
    && (forall r :: r != run ==> SameAt(before.artifacts, after.artifacts, r))
    && (forall r :: r != run ==> SameAt(before.runs, after.runs, r))
  }

  /** Only event rows of the run differ. */
  ghost predicate OnlyEvents(before: Db, after: Db, run: RunId) {
    after == before.(events := after.events) && OthersKept(before, after, run)
  }

  ghost predicate SameAt<K, V>(a: map<K, V>, b: map<K, V>, k: K) {
    (k in a <==> k in b) && (k in a ==> a[k] == b[k])
  }

  ghost predicate Numbered(log: seq<Event>) { forall i :: 0 <= i < |log| ==> log[i].seqNo == i + 1 }

  /** Where the run's rows end up. */
  datatype Rest = Rest(record: Run, log: seq<Event>, present: seq<bool>, artifacts: Option<seq<Artifact>>)

  ghost predicate Holds(before: Db, after: Db, run: RunId, rest: Rest) {
    && |rest.present| == |rest.log|
    && Rows(after.events, run, rest.log, rest.present)
    && (if run in after.artifacts then rest.artifacts == Some(after.artifacts[run]) else rest.artifacts.None?)
    && run in after.runs && after.runs[run] == rest.record
    && OthersKept(before, after, run)
  }

  function AllTrue(n: nat): seq<bool> { seq(n, _ => true) }

  function NoneTrue(n: nat): seq<bool> { seq(n, _ => false) }

  /** The log of the recordings made. */
  function Log(made: seq<Recording>): seq<Event> {
    seq(|made|, i requires 0 <= i < |made| => Event(i + 1, made[i].kind, made[i].payload))
  }

  function Worked(made: seq<Recording>): seq<bool> {
    seq(|made|, i requires 0 <= i < |made| => made[i].insert.Works?)
  }

  predicate Breaking(live: bool, insert: Insert) { live && insert.Breaks? }

  /** The recordings of a course, and how it ends. */
  function Play(course: Course, live: bool): (seq<Recording>, Ending) {
    match course
    case Ends(ending) => ([], ending)
    case Records(what, ifFine, ifRaised) =>
      var (made, ending) := Play(if Breaking(live, what.insert) then ifRaised else ifFine, live);
      ([what] + made, ending)
  }

  /** The recordings of a run, and its result; `None` is an exception that reaches the caller. */
  datatype Outcome = Outcome(made: seq<Recording>, result: Option<Result>)

  function Start(script: Script): Recording { Recording(RunStarted, script.startInfo, script.startInsert) }

  /** The failure path, taken with an error after `made`. */
  function Failing(script: Script, live: bool, made: seq<Recording>, error: string): Outcome {
    var all := made + [Recording(RunFailed, error, script.failedInsert)];
    Outcome(all, if Breaking(live, script.failedInsert) || script.failureSave.Breaks? then None
                 else Some(Result("failed", error, [])))
  }

  /** The part of `invoke` from the `try` on. */
  function Proceed(script: Script, live: bool, made: seq<Recording>, ending: Ending): Outcome {
    match ending
    case Raises(error) => Failing(script, live, made, error)
    case Returns(result) =>
      var all := made + [Recording(RunCompleted, result.status, script.completedInsert)];
      if Breaking(live, script.completedInsert) then Failing(script, live, all, script.completedInsert.error)
      else if script.save.Breaks? then Failing(script, live, all, script.save.error)
      else Outcome(all, Some(result))
  }

  function Continued(script: Script, live: bool, made: seq<Recording>): Outcome {
    var (played, ending) := Play(script.course, live);
    Proceed(script, live, made + played, ending)
  }

  function Started(script: Script, live: bool): Outcome {
    if Breaking(live, script.startInsert) then Outcome([Start(script)], None)
    else Continued(script, live, [Start(script)])
  }

  /** All of `invoke`, in the given mode. */
  function Foretold(script: Script, live: bool): Outcome {
    if !script.startWorks then Outcome([], None)
    else Started(script, live)
  }

  /** What a started run with that outcome leaves behind. */
  function RestOf(outcome: Outcome, live: bool, agentKey: string, info: string): Rest {
    var made, n := outcome.made, |outcome.made|;
    match outcome.result
    case Some(r) =>
      Rest(Run(agentKey, info, r.status, r.error), Log(made), if live then Worked(made) else AllTrue(n),
           Some(r.artifacts))
    case None =>
      Rest(Run(agentKey, info, "running", ""), Log(made), if live then Worked(made) else NoneTrue(n), None)
  }

  /** All that `invoke` does to the database. */
  ghost predicate RanOn(before: Db, after: Db, run: RunId, agentKey: string, info: string, live: bool, script: Script) {
    if script.startWorks then Holds(before, after, run, RestOf(Foretold(script, live), live, agentKey, info))
    else after == before
  }

  // ------------------------------------------------------------------ tables

  class Database {
    var db: Db

    constructor (db: Db)
      ensures this.db == db
    {
      this.db := db;
    }

    method DeleteEvents(run: RunId)
      modifies this
      ensures db == old(db).(events := db.events)
      ensures Rows(db.events, run, [], [])
      ensures OthersKept(old(db), db, run)
    {
      db := db.(events := map k | k in db.events && k.0 != run :: db.events[k]);
    }

    method DeleteArtifacts(run: RunId)
      modifies this
      ensures db == old(db).(artifacts := old(db).artifacts - {run})
    {
      db := db.(artifacts := db.artifacts - {run});
    }

    /** A row whose (run, seq) is taken would break the unique index; the precondition rules that out. */
    method InsertEvent(run: RunId, e: Event)
      requires (run, e.seqNo) !in db.events && run in db.runs
      modifies this
      ensures db == old(db).(events := old(db).events[(run, e.seqNo) := e])
    {
      db := db.(events := db.events[(run, e.seqNo) := e]);
    }

    method AddEvents(run: RunId, log: seq<Event>)
      requires run in db.runs && Numbered(log) && Rows(db.events, run, [], [])
      modifies this
      ensures db == old(db).(events := db.events)
      ensures Rows(db.events, run, log, AllTrue(|log|)) && OthersKept(old(db), db, run)
    {
      for i := 0 to |log|
        invariant db == old(db).(events := db.events)
        invariant Rows(db.events, run, log[..i], AllTrue(i)) && OthersKept(old(db), db, run)
      {
        InsertEvent(run, log[i]);
      }
      assert log[..|log|] == log;
    }

    method AddArtifacts(run: RunId, artifacts: seq<Artifact>)
      requires run !in db.artifacts
      modifies this
      ensures db == old(db).(artifacts := old(db).artifacts[run := artifacts])
    {
      var rows: seq<Artifact> := [];
      for i := 0 to |artifacts|
        invariant rows == artifacts[..i]
      {
        rows := rows + [artifacts[i]];
      }
      assert rows == artifacts;
      db := db.(artifacts := db.artifacts[run := rows]);
    }

    method StartRun(run: RunId, agentKey: string, info: string)
      requires ForeignKeys(db)
      modifies this
      ensures ForeignKeys(db)
      ensures run in db.runs && db.runs[run] == Run(agentKey, info, "running", "")
      ensures Rows(db.events, run, [], []) && run !in db.artifacts
      ensures OthersKept(old(db), db, run)
    {
      if run in db.runs {
        DeleteEvents(run);
        DeleteArtifacts(run);
      }
      db := db.(runs := db.runs[run := Run(agentKey, info, "running", "")]);
    }

    method PersistResult(run: RunId, agentKey: string, info: string, result: Result, log: seq<Event>,
                         replaceEvents: bool)
      requires ForeignKeys(db) && Numbered(log) && run in db.runs && db.runs[run].agentKey == agentKey
      modifies this
      ensures ForeignKeys(db)
      ensures run in db.runs && db.runs[run] == Run(agentKey, info, result.status, result.error)
      ensures run in db.artifacts && db.artifacts[run] == result.artifacts
      ensures replaceEvents ==> Rows(db.events, run, log, AllTrue(|log|))
      ensures !replaceEvents ==> db.events == old(db).events
      ensures OthersKept(old(db), db, run)
    {
      db := db.(runs := db.runs[run := db.runs[run].(info := info, status := result.status, error := result.error)]);
      if replaceEvents { DeleteEvents(run); }
      DeleteArtifacts(run);
      if replaceEvents { AddEvents(run, log); }
      AddArtifacts(run, result.artifacts);
    }
  }

  // ------------------------------------------------------------------ writer

  class EventWriter {
    const database: Database
    const run: RunId
    const live: bool
    var events: seq<Event>
    var seqNo: nat
    ghost var made: seq<Recording>

    constructor (database: Database, run: RunId, live: bool)
      ensures this.database == database && this.run == run && this.live == live
      ensures events == [] && seqNo == 0 && made == []
    {
      this.database, this.run, this.live := database, run, live;
      events, seqNo, made := [], 0, [];
    }

    ghost predicate Valid()
      reads this, database
    {
      && events == Log(made) && seqNo == |made|
      && run in database.db.runs
      && Rows(database.db.events, run, Log(made), if live then Worked(made) else NoneTrue(|made|))
    }

    /** `record`: the event enters the log first; a failing live insert then raises. */
    method Record(what: Recording) returns (raised: bool)
      requires Valid()
      modifies this, database
      ensures Valid()
      ensures made == old(made) + [what]
      ensures raised <==> Breaking(live, what.insert)
      ensures OnlyEvents(old(database.db), database.db, run)
    {
      seqNo := seqNo + 1;
      var event := Event(seqNo, what.kind, what.payload);
      events := events + [event];
      made := made + [what];
      raised := live && what.insert.Breaks?;
      if live && !raised { database.InsertEvent(run, event); }
    }
  }

  // ----------------------------------------------------------------- service

  class Service {
    const database: Database

    constructor (database: Database)
      ensures this.database == database
    {
      this.database := database;
    }

    /** The save attempt of one result: all or nothing. */
    method Save(writer: EventWriter, agentKey: string, info: string, result: Result, attempt: Insert)
      returns (saved: bool)
      requires writer.database == database && writer.Valid() && ForeignKeys(database.db)
      requires database.db.runs[writer.run].agentKey == agentKey
      modifies database
      ensures saved == attempt.Works? && ForeignKeys(database.db)
      ensures !saved ==> database.db == old(database.db)
      ensures saved ==> Holds(old(database.db), database.db, writer.run,
                              Rest(Run(agentKey, info, result.status, result.error), writer.events,
                                   if writer.live then Worked(writer.made) else AllTrue(|writer.events|),
                                   Some(result.artifacts)))
    {
      saved := attempt.Works?;
      if saved { database.PersistResult(writer.run, agentKey, info, result, writer.events, !writer.live); }
    }

    /** The agent's part of the run. */
    method PlayCourse(writer: EventWriter, course: Course) returns (ending: Ending)
      requires writer.database == database && writer.Valid() && ForeignKeys(database.db)
      modifies writer, database
      ensures writer.Valid() && ForeignKeys(database.db)
      ensures OnlyEvents(old(database.db), database.db, writer.run)
      ensures writer.made == old(writer.made) + Play(course, writer.live).0
      ensures ending == Play(course, writer.live).1
    {
      var left := course;
      while left.Records?
        invariant writer.Valid() && ForeignKeys(database.db)
        invariant OnlyEvents(old(database.db), database.db, writer.run)
        invariant writer.made + Play(left, writer.live).0 == old(writer.made) + Play(course, writer.live).0
        invariant Play(left, writer.live).1 == Play(course, writer.live).1
        decreases left
      {
        ghost var made := writer.made;
        var raised := writer.Record(left.what);
        var next := if raised then left.ifRaised else left.ifFine;
        PlayOn(made, left, writer.live, writer.made, next);
        left := next;
      }
      assert writer.made + Play(left, writer.live).0 == writer.made;
      ending := left.ending;
    }

    lemma PlayOn(made: seq<Recording>, left: Course, live: bool, made': seq<Recording>, next: Course)
      requires left.Records? && made' == made + [left.what]
      requires next == if Breaking(live, left.what.insert) then left.ifRaised else left.ifFine
      ensures made + Play(left, live).0 == made' + Play(next, live).0 && Play(left, live).1 == Play(next, live).1
    {
    }

    /** Everything after the first event. */
    method RunBody(writer: EventWriter, agentKey: string, info: string, script: Script) returns (result: Option<Result>)
      requires writer.database == database && writer.Valid() && ForeignKeys(database.db)
      requires database.db.runs[writer.run] == Run(agentKey, info, "running", "")
      requires writer.run !in database.db.artifacts
      modifies writer, database
      ensures writer.events == Log(writer.made) && ForeignKeys(database.db)
      ensures Outcome(writer.made, result) == Continued(script, writer.live, old(writer.made))
      ensures Holds(old(database.db), database.db, writer.run,
                    RestOf(Outcome(writer.made, result), writer.live, agentKey, info))
    {
      var ending := PlayCourse(writer, script.course);
      var error: string;
      if ending.Raises? {
        error := ending.error;
      } else {
        var raised := writer.Record(Recording(RunCompleted, ending.result.status, script.completedInsert));
        if raised {
          error := script.completedInsert.error;
        } else {
          ghost var before := database.db;
          var saved := Save(writer, agentKey, info, ending.result, script.save);
          if saved {
            HoldsSince(old(database.db), before, database.db, writer.run,
                       RestOf(Outcome(writer.made, Some(ending.result)), writer.live, agentKey, info));
            return Some(ending.result);
          }
          error := script.save.error;
        }
      }
      result := Fail(writer, agentKey, info, script, error);
    }

    /** The `except` branch. */
    method Fail(writer: EventWriter, agentKey: string, info: string, script: Script, error: string)
      returns (result: Option<Result>)
      requires writer.database == database && writer.Valid() && ForeignKeys(database.db)
      requires database.db.runs[writer.run] == Run(agentKey, info, "running", "")
      requires writer.run !in database.db.artifacts
      modifies writer, database
      ensures writer.events == Log(writer.made) && ForeignKeys(database.db)
      ensures Outcome(writer.made, result) == Failing(script, writer.live, old(writer.made), error)
      ensures Holds(old(database.db), database.db, writer.run,
                    RestOf(Outcome(writer.made, result), writer.live, agentKey, info))
    {
      var raised := writer.Record(Recording(RunFailed, error, script.failedInsert));
      if raised { return None; }
      ghost var before := database.db;
      var saved := Save(writer, agentKey, info, Result("failed", error, []), script.failureSave);
      if saved {
        HoldsSince(old(database.db), before, database.db, writer.run,
                   RestOf(Outcome(writer.made, Some(Result("failed", error, []))), writer.live, agentKey, info));
        result := Some(Result("failed", error, []));
      } else {
        result := None;
      }
    }

    /** The run once its record is there. */
    method RunStarted(writer: EventWriter, agentKey: string, info: string, script: Script)
      returns (result: Option<Result>)
      requires writer.database == database && writer.Valid() && writer.made == [] && ForeignKeys(database.db)
      requires database.db.runs[writer.run] == Run(agentKey, info, "running", "")
      requires writer.run !in database.db.artifacts
      modifies writer, database
      ensures writer.events == Log(writer.made) && ForeignKeys(database.db)
      ensures Outcome(writer.made, result) == Started(script, writer.live)
      ensures Holds(old(database.db), database.db, writer.run,
                    RestOf(Outcome(writer.made, result), writer.live, agentKey, info))
    {
      var raised := writer.Record(Start(script));
      assert writer.made == [Start(script)];
      if raised { return None; }
      ghost var before := database.db;
      result := RunBody(writer, agentKey, info, script);
      HoldsSince(old(database.db), before, database.db, writer.run,
                 RestOf(Outcome(writer.made, result), writer.live, agentKey, info));
    }

    /** `invoke` with a database.  `None` is an exception that reaches the caller. */
    method Invoke(run: RunId, agentKey: string, info: string, live: bool, script: Script)
      returns (result: Option<Result>, writer: EventWriter)
      requires ForeignKeys(database.db)
      modifies database
      ensures fresh(writer) && ForeignKeys(database.db)
      ensures Outcome(writer.made, result) == Foretold(script, live)
      ensures writer.events == Log(writer.made)
      ensures RanOn(old(database.db), database.db, run, agentKey, info, live, script)
    {
      writer := new EventWriter(database, run, live);
      result := None;
      if !script.startWorks { return; }
      database.StartRun(run, agentKey, info);
      ghost var before := database.db;
      result := RunStarted(writer, agentKey, info, script);
      HoldsSince(old(database.db), before, database.db, run,
                 RestOf(Outcome(writer.made, result), live, agentKey, info));
    }
  }

  lemma OthersKeptTwice(a: Db, b: Db, c: Db, run: RunId)
    requires OthersKept(a, b, run) && OthersKept(b, c, run)
    ensures OthersKept(a, c, run)
  {
    forall r, k | r != run ensures SameAt(a.events, c.events, (r, k)) {
      assert SameAt(a.events, b.events, (r, k)) && SameAt(b.events, c.events, (r, k));
    }
    forall r | r != run ensures SameAt(a.artifacts, c.artifacts, r) && SameAt(a.runs, c.runs, r) {
      assert SameAt(a.artifacts, b.artifacts, r) && SameAt(b.artifacts, c.artifacts, r);
      assert SameAt(a.runs, b.runs, r) && SameAt(b.runs, c.runs, r);
    }
  }

  lemma HoldsSince(a: Db, b: Db, c: Db, run: RunId, rest: Rest)
    requires OthersKept(a, b, run) && Holds(b, c, run, rest)
    ensures Holds(a, c, run, rest)
  {
    OthersKeptTwice(a, b, c, run);
  }

  // ------------------------------------------------------------ main results

  /** The table holds exactly the in-memory log, numbered 1..n. */
  ghost predicate StoredExactly(db: Db, run: RunId, log: seq<Event>) {
    Rows(db.events, run, log, AllTrue(|log|))
  }

  /** Every live insert the run came to has worked. */
  ghost predicate AllInserted(made: seq<Recording>) {
    forall i :: 0 <= i < |made| ==> made[i].insert.Works?
  }

  /** After a completed run the table is the log exactly when the mode is batch or no live insert failed. */
  lemma StoredExactlyIff(before: Db, after: Db, run: RunId, agentKey: string, info: string, live: bool, script: Script)
    requires RanOn(before, after, run, agentKey, info, live, script) && Foretold(script, live).result.Some?
    ensures StoredExactly(after, run, Log(Foretold(script, live).made))
            <==> !live || AllInserted(Foretold(script, live).made)
  {
    var made := Foretold(script, live).made;
    if live && StoredExactly(after, run, Log(made)) {
      forall i | 0 <= i < |made| ensures made[i].insert.Works? {
        assert (run, i + 1) in after.events;
        assert Worked(made)[i];
      }
    }
    if AllInserted(made) { assert Worked(made) == AllTrue(|made|); }
  }

  /**
   When a run completes: it started, its first event got in, and it either came to a
   stored end or its failure could be recorded and stored.
   */
  lemma CompletesIff(script: Script, live: bool)
    ensures Foretold(script, live).result.Some?
            <==> script.startWorks && !Breaking(live, script.startInsert)
                 && ((Play(script.course, live).1.Returns? && !Breaking(live, script.completedInsert)
                      && script.save.Works?)
                     || (!Breaking(live, script.failedInsert) && script.failureSave.Works?))
  {
  }

  /** A run that completes without coming to a stored end is stored as failed, without artifacts. */
  lemma ResultIs(script: Script, live: bool)
    requires Foretold(script, live).result.Some?
    ensures var stored := Play(script.course, live).1.Returns? && !Breaking(live, script.completedInsert)
                          && script.save.Works?;
            var result := Foretold(script, live).result.value;
            if stored then result == Play(script.course, live).1.result
            else result.status == "failed" && result.artifacts == []
  {
  }

  // ----------------------------------------------------------- what is logged

  /** `nodes` leads through the course: on where a record went through, aside where it raised, to an end. */
  ghost predicate IsPath(nodes: seq<Course>, course: Course, live: bool) {
    && nodes != [] && nodes[0] == course && nodes[|nodes| - 1].Ends?
    && forall i :: 0 <= i < |nodes| - 1 ==>
         nodes[i].Records?
         && nodes[i + 1] == (if live && nodes[i].what.insert.Breaks? then nodes[i].ifRaised else nodes[i].ifFine)
  }

  /** The agent's recordings are those of the nodes on its path, and its ending is the one the path comes to. */
  lemma {:induction false} PlayIsPath(course: Course, live: bool) returns (nodes: seq<Course>)
    ensures IsPath(nodes, course, live)
    ensures var (made, ending) := Play(course, live);
            && |made| == |nodes| - 1 && ending == nodes[|nodes| - 1].ending
            && forall i :: 0 <= i < |made| ==> made[i] == nodes[i].what
  {
    match course {
      case Ends(_) => nodes := [course];
      case Records(what, ifFine, ifRaised) =>
        var next := if live && what.insert.Breaks? then ifRaised else ifFine;
        var rest := PlayIsPath(next, live);
        nodes := [course] + rest;
    }
  }

  /** A run that came to a stored end. */
  predicate Stored(script: Script, live: bool, ending: Ending) {
    ending.Returns? && !(live && script.completedInsert.Breaks?) && script.save.Works?
  }

  /** What went wrong with a run that did not: the agent raised, or the event or the result could not be stored. */
  function Fault(script: Script, live: bool, ending: Ending): string {
    match ending
    case Raises(error) => error
    case Returns(_) =>
      if live && script.completedInsert.Breaks? then script.completedInsert.error
      else if script.save.Breaks? then script.save.error
      else ""
  }

  /**
   The log of a started run: its first event, then exactly what the agent recorded,
   then the service's closing events.  A stored end is logged as completed, with its
   status; any other run that got past its first event ends in a failure that carries
   the error of the result.
   */
  lemma LogShape(script: Script, live: bool)
    requires script.startWorks
    ensures var Outcome(made, result) := Foretold(script, live);
            var (played, ending) := Play(script.course, live);
            var n := |played| + 1;
            && made != [] && made[0] == Recording(RunStarted, script.startInfo, script.startInsert)
            && (live && script.startInsert.Breaks? ==> |made| == 1 && result.None?)
            && (!(live && script.startInsert.Breaks?) ==>
                  && |made| > n && made[1..n] == played
                  && (ending.Returns? ==>
                        made[n] == Recording(RunCompleted, ending.result.status, script.completedInsert))
                  && (Stored(script, live, ending) ==> |made| == n + 1 && result == Some(ending.result))
                  && (!Stored(script, live, ending) ==>
                        && |made| == n + (if ending.Returns? then 2 else 1)
                        && made[|made| - 1]
                           == Recording(RunFailed, Fault(script, live, ending), script.failedInsert)
                        && (result.Some? ==> result.value == Result("failed", Fault(script, live, ending), []))))
  {
  }

  /** One event per recording, numbered from 1, with its kind and payload. */
  lemma EventPerRecording(made: seq<Recording>)
    ensures |Log(made)| == |made| && Numbered(Log(made))
    ensures forall i :: 0 <= i < |made| ==> Log(made)[i].kind == made[i].kind && Log(made)[i].payload == made[i].payload
  {
  }

  lemma {:induction false} PlaysAlike(course: Course)
    requires AllInserted(Play(course, true).0)
    ensures Play(course, true) == Play(course, false)
  {
    if course.Records? {
      var made := Play(course, true).0;
      assert made[0] == course.what;
      forall i | 0 <= i < |made| - 1 ensures Play(course.ifFine, true).0[i].insert.Works? {
        assert made[i + 1].insert.Works?;
      }
      PlaysAlike(course.ifFine);
    }
  }

  /** Up to its first failing insert a course goes the same way in both modes. */
  lemma {:induction false} PlayBreak(course: Course) returns (i: nat)
    requires !AllInserted(Play(course, true).0)
    ensures i < |Play(course, true).0| && i < |Play(course, false).0| && Play(course, true).0[i].insert.Breaks?
  {
    if course.what.insert.Breaks? {
      i := 0;
    } else {
      var made := Play(course, true).0;
      assert made == [course.what] + Play(course.ifFine, true).0;
      i := PlayBreak(course.ifFine);
      i := i + 1;
    }
  }

  lemma ProceedStarts(script: Script, live: bool, made: seq<Recording>, ending: Ending)
    ensures made <= Proceed(script, live, made, ending).made
  {
  }

  lemma ProceedAlike(script: Script, made: seq<Recording>, ending: Ending)
    requires AllInserted(Proceed(script, true, made, ending).made)
    ensures Proceed(script, true, made, ending) == Proceed(script, false, made, ending)
  {
    var all := Proceed(script, true, made, ending).made;
    assert all[|made|].insert.Works?;
    if |all| > |made| + 1 { assert all[|made| + 1].insert.Works?; }
  }

  /** After the course, the first insert that fails is of an event that batch mode records too. */
  lemma ProceedBreak(script: Script, made: seq<Recording>, ending: Ending) returns (i: nat)
    requires AllInserted(made) && !AllInserted(Proceed(script, true, made, ending).made)
    ensures var liveMade := Proceed(script, true, made, ending).made;
            i < |liveMade| && i < |Proceed(script, false, made, ending).made| && liveMade[i].insert.Breaks?
  {
    var all := Proceed(script, true, made, ending).made;
    i := if ending.Returns? && script.completedInsert.Works? then |made| + 1 else |made|;
    assert forall k :: 0 <= k < |made| ==> all[k] == made[k];
  }

  lemma ModesPlayAlike(script: Script)
    requires AllInserted(Foretold(script, true).made)
    ensures Foretold(script, true) == Foretold(script, false)
  {
    var made := Foretold(script, true).made;
    if script.startWorks {
      assert made[0].insert == script.startInsert by { StartsWith(script, true); }
      var (played, ending) := Play(script.course, true);
      ProceedStarts(script, true, [Start(script)] + played, ending);
      forall i | 0 <= i < |played| ensures played[i].insert.Works? { assert made[i + 1] == played[i]; }
      PlaysAlike(script.course);
      ProceedAlike(script, [Start(script)] + played, ending);
    }
  }

  lemma StartsWith(script: Script, live: bool)
    requires script.startWorks
    ensures [Start(script)] <= Foretold(script, live).made
  {
    var (played, ending) := Play(script.course, live);
    ProceedStarts(script, live, [Start(script)] + played, ending);
  }

  /** The first insert that fails is of an event that batch mode records too. */
  lemma FirstBreak(script: Script) returns (i: nat)
    requires script.startWorks && !AllInserted(Foretold(script, true).made)
    ensures i < |Foretold(script, true).made| && i < |Foretold(script, false).made|
    ensures Foretold(script, true).made[i].insert.Breaks?
  {
    StartsWith(script, true);
    StartsWith(script, false);
    if script.startInsert.Breaks? {
      i := 0;
    } else {
      var start := [Start(script)];
      var (played, ending) := Play(script.course, true);
      if AllInserted(played) {
        PlaysAlike(script.course);
        i := ProceedBreak(script, start + played, ending);
      } else {
        i := PlayBreak(script.course);
        ProceedStarts(script, true, start + played, ending);
        ProceedStarts(script, false, start + Play(script.course, false).0, Play(script.course, false).1);
        assert Foretold(script, true).made[i + 1] == played[i];
        i := i + 1;
      }
    }
  }

  lemma MapsEqual<K(!new), V>(a: map<K, V>, b: map<K, V>)
    requires forall k :: SameAt(a, b, k)
    ensures a == b
  {
    assert forall k :: k in a.Keys ==> SameAt(a, b, k);
    assert forall k :: k in b.Keys ==> SameAt(a, b, k);
  }

  /** `Holds` says all there is to say about the database afterwards. */
  lemma HoldsDetermines(before: Db, before': Db, a: Db, b: Db, run: RunId, rest: Rest)
    requires OthersKept(before, before', run) && Holds(before, a, run, rest) && Holds(before', b, run, rest)
    ensures a == b
  {
    HoldsSince(before, before', b, run, rest);
    forall k: (RunId, nat) ensures SameAt(a.events, b.events, k) {
      var (r, n) := k;
      if r != run { assert SameAt(before.events, a.events, (r, n)) && SameAt(before.events, b.events, (r, n)); }
    }
    forall r: RunId ensures SameAt(a.artifacts, b.artifacts, r) && SameAt(a.runs, b.runs, r) {
      if r != run {
        assert SameAt(before.artifacts, a.artifacts, r) && SameAt(before.artifacts, b.artifacts, r);
        assert SameAt(before.runs, a.runs, r) && SameAt(before.runs, b.runs, r);
      }
    }
    MapsEqual(a.events, b.events);
    MapsEqual(a.artifacts, b.artifacts);
    MapsEqual(a.runs, b.runs);
  }

  /**
   Two runs that complete, one in each mode and on the same database, leave the same
   database exactly when every insert the live one came to has worked.
   */
  lemma ModesAgreeIff(before: Db, liveAfter: Db, batchAfter: Db, run: RunId, agentKey: string, info: string,
                      script: Script)
    requires RanOn(before, liveAfter, run, agentKey, info, true, script) && Foretold(script, true).result.Some?
    requires RanOn(before, batchAfter, run, agentKey, info, false, script) && Foretold(script, false).result.Some?
    ensures liveAfter == batchAfter <==> AllInserted(Foretold(script, true).made)
  {
    var outcome := Foretold(script, true);
    if AllInserted(outcome.made) {
      ModesPlayAlike(script);
      assert Worked(outcome.made) == AllTrue(|outcome.made|);
      HoldsDetermines(before, before, liveAfter, batchAfter, run, RestOf(outcome, true, agentKey, info));
    } else {
      var i := FirstBreak(script);
      assert (run, i + 1) in batchAfter.events && (run, i + 1) !in liveAfter.events;
    }
  }

  /** If every insert a live run came to has worked, batch mode goes the same way to the same database. */
  lemma ModesAgree(before: Db, liveAfter: Db, batchAfter: Db, run: RunId, agentKey: string, info: string,
                   script: Script)
    requires AllInserted(Foretold(script, true).made)
    requires RanOn(before, liveAfter, run, agentKey, info, true, script)
    requires RanOn(before, batchAfter, run, agentKey, info, false, script)
    ensures Foretold(script, true) == Foretold(script, false)
    ensures Foretold(script, true).result.Some? ==> liveAfter == batchAfter
  {
    ModesPlayAlike(script);
    if Foretold(script, true).result.Some? {
      ModesAgreeIff(before, liveAfter, batchAfter, run, agentKey, info, script);
    }
  }

  /**
   Whatever an earlier run did, completed or not: a later run that starts under the
   same id leaves what it would have left without the earlier one.
   */
  lemma RerunReplaces(before: Db, first: Db, second: Db, alone: Db, run: RunId,
                      agentKey: string, info: string, live: bool, script: Script,
                      agentKey': string, info': string, live': bool, script': Script)
    requires RanOn(before, first, run, agentKey, info, live, script) && script'.startWorks
    requires RanOn(first, second, run, agentKey', info', live', script')
    requires RanOn(before, alone, run, agentKey', info', live', script')
    ensures second == alone
  {
    HoldsDetermines(before, first, alone, second, run, RestOf(Foretold(script', live'), live', agentKey', info'));
  }

  /** A run whose one failed insert leaves a completed run with a row missing. */
  lemma LiveRowCanBeMissing(before: Db, after: Db, run: RunId, agentKey: string, info: string, result: Result)
    returns (script: Script)
    ensures Foretold(script, true).result.Some?
    ensures Foretold(script, false).result == Some(result)
    ensures RanOn(before, after, run, agentKey, info, true, script) ==>
              !StoredExactly(after, run, Log(Foretold(script, true).made))
  {
    script := Script(true, "", Works, Ends(Returns(result)), Breaks("lost"), Works, Works, Works);
    var made := Foretold(script, true).made;
    assert made[1].insert.Breaks?;
    if RanOn(before, after, run, agentKey, info, true, script) {
      StoredExactlyIff(before, after, run, agentKey, info, true, script);
    }
  }
}
