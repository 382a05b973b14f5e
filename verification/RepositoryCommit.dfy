/**
 Committing several files at once over an unreliable network
 (`commit_repository_files` in backend/app/gateway/gitlab.py).

 The remote repository has no other writer.  A read that answers tells the truth
 about the present content, by a hash, by decodable content, or by both.  A commit
 request takes effect whole or not at all, before its reply or its error comes
 back; any reply can be lost.
 */
module RepositoryCommit {
  import opened Options

  type Path = string
  type Bytes = seq<bv8>

  datatype Repo = Repo(files: map<Path, Bytes>, commits: nat)

  datatype Entry = Entry(path: Path, bytes: Bytes)

  datatype Action = Create(path: Path, bytes: Bytes) | Update(path: Path, bytes: Bytes)

  /** A file as the API shows it: perhaps a hash, perhaps decodable content. */
  datatype Payload = Payload(sha: Option<string>, content: Option<Bytes>)

  /** `SkillsGatewayError` with the status it carries, or any other exception. */
  datatype Failure = GatewayError(status: Option<int>) | OtherError

  datatype Result<T> = Ok(value: T) | Fail(failure: Failure)

  /** What comes back of one exchange; `Misshapen` is JSON of the wrong form, noticed in `_request` or later. */
  datatype Raw<T> = Lost | Status(code: int) | Body(payload: T) | Garbled | Misshapen(inRequest: bool)

  type ErrorCode = code: int | code >= 400 && code != 404 witness 500

  /** What the network and the server make of one exchange; `reached` says whether the request took effect. */
  datatype Wire =
    | Fine(showHash: bool, showContent: bool)
    | Drop(reached: bool)
    | Refuse(code: ErrorCode, reached: bool)
    | NoJson
    | OtherJson(inRequest: bool)

  const READ_MAX_ATTEMPTS := 3

  predicate Retryable(code: int) { code == 429 || code >= 500 }

  // ---------------------------------------------------------- specification

  predicate Holds(files: map<Path, Bytes>, e: Entry) { e.path in files && files[e.path] == e.bytes }

  /** What brings one file to its wanted content. */
  function Needed(files: map<Path, Bytes>, e: Entry): Action {
    if e.path in files then Update(e.path, e.bytes) else Create(e.path, e.bytes)
  }

  /** The actions a call plans against the present content. */
  function Plan(files: map<Path, Bytes>, entries: seq<Entry>): seq<Action> {
    if entries == [] then []
    else
      var init, e := entries[..|entries| - 1], entries[|entries| - 1];
      if Holds(files, e) then Plan(files, init) else Plan(files, init) + [Needed(files, e)]
  }

  /** The server runs the actions in order; creating a present path or updating an absent one spoils the commit. */
  predicate Applicable(files: map<Path, Bytes>, actions: seq<Action>) {
    if actions == [] then true
    else
      var a := actions[|actions| - 1];
      Applicable(files, actions[..|actions| - 1])
      && (a.Create? <==> a.path !in After(files, actions[..|actions| - 1]))
  }

  function After(files: map<Path, Bytes>, actions: seq<Action>): map<Path, Bytes> {
    if actions == [] then files
    else
      var a := actions[|actions| - 1];
      After(files, actions[..|actions| - 1])[a.path := a.bytes]
  }

  /** How a call ended: whether it returned normally, and whether no exchange of it went wrong. */
  datatype Ended = Ended(returned: bool, calm: bool)

  /**
   One call does nothing or exactly its planned commit; a normal return means it had
   nothing to do or did it.  A calm call returns exactly when the server takes its
   plan, and so leaves no choice of what it does.
   */
  predicate CallEffect(before: Repo, after: Repo, entries: seq<Entry>, ended: Ended) {
    var plan := Plan(before.files, entries);
    && (|| (after == before && (ended.returned ==> plan == []))
        || (plan != [] && Applicable(before.files, plan)
            && after == Repo(After(before.files, plan), before.commits + 1)))
    && (ended.calm ==> (ended.returned <==> Applicable(before.files, plan)))
  }

  predicate Reaches(w: Wire) { (w.Drop? || w.Refuse?) ==> w.reached }

  /** The outcome of any exchange to which the server's answer would be `body`. */
  function Answered<T>(body: Raw<T>, w: Wire): Raw<T> {
    match w
    case Fine(_, _) => body
    case Drop(_) => Lost
    case Refuse(code, _) => Status(code)
    case NoJson => if body.Body? then Garbled else body
    case OtherJson(inRequest) => if body.Body? then Misshapen(inRequest) else body
  }

  /** `_request` gives up on it or, for a read, tries again. */
  predicate Again<T>(raw: Raw<T>) { raw.Lost? || (raw.Status? && Retryable(raw.code)) }

  /** An exchange that a read repeats: it is lost, or answered with 429 or a server error. */
  predicate Transient(w: Wire) { w.Drop? || (w.Refuse? && (w.code == 429 || w.code >= 500)) }

  function Verdict<T>(raw: Raw<T>): Result<T> {
    match raw
    case Lost => Fail(GatewayError(None))
    case Status(code) => Fail(GatewayError(Some(code)))
    case Garbled => Fail(OtherError)
    case Misshapen(_) => Fail(GatewayError(None))
    case Body(payload) => Ok(payload)
  }

  /** The repository after a commit request. */
  function Committed(repo: Repo, actions: seq<Action>, w: Wire): Repo {
    if Reaches(w) && Applicable(repo.files, actions) then Repo(After(repo.files, actions), repo.commits + 1) else repo
  }

  /** The answer to a commit request that takes effect is the id of the new commit. */
  function CommitRaw(repo: Repo, actions: seq<Action>, idOf: nat -> string, w: Wire): Raw<string> {
    Answered(if Applicable(repo.files, actions) then Body(idOf(repo.commits + 1)) else Status(400), w)
  }

  /** The request took effect, and its failure is one that makes the call look again. */
  predicate Mended(w: Wire) { Reaches(w) && !w.NoJson? && w != OtherJson(false) }

  ghost predicate Injective(hash: Bytes -> string) { forall x, y :: hash(x) == hash(y) ==> x == y }

  // ---------------------------------------------------------------- gateway

  class Gateway {
    var repo: Repo
    var clock: nat            // exchanges so far
    const wire: nat -> Wire   // what becomes of each
    const hash: Bytes -> string
    const idOf: nat -> string // the id the server gives the branch's n-th commit; never empty

    constructor (repo: Repo, wire: nat -> Wire, hash: Bytes -> string, idOf: nat -> string)
      ensures this.repo == repo && this.clock == 0 && this.wire == wire && this.hash == hash && this.idOf == idOf
    {
      this.repo, this.clock := repo, 0;
      this.wire, this.hash, this.idOf := wire, hash, idOf;
    }

    ghost predicate Calm(from: nat, to: nat) {
      forall i :: from <= i < to ==> wire(i).Fine?
    }

    predicate Truthful(payload: Payload, bytes: Bytes)
    {
      && (payload.sha.Some? && payload.sha.value != "" ==> payload.sha.value == hash(bytes))
      && (payload.content.Some? ==> payload.content.value == bytes)
      && (payload.content.Some? || (payload.sha.Some? && payload.sha.value != ""))
    }

    function Shown(bytes: Bytes, w: Wire): (payload: Payload)
      ensures Truthful(payload, bytes)
    {
      var showHash := w.Fine? && w.showHash;
      Payload(if showHash then Some(hash(bytes)) else None,
              if (w.Fine? && w.showContent) || !showHash || hash(bytes) == "" then Some(bytes) else None)
    }

    function ReadRaw(files: map<Path, Bytes>, path: Path, w: Wire): (raw: Raw<Payload>)
      ensures raw.Body? ==> path in files && Truthful(raw.payload, files[path])
      ensures raw == Status(404) ==> path !in files
      ensures w.Fine? ==> if path in files then raw.Body? else raw == Status(404)
    {
      Answered(if path in files then Body(Shown(files[path], w)) else Status(404), w)
    }

    lemma RepeatsIff(files: map<Path, Bytes>, path: Path, w: Wire)
      ensures Again(ReadRaw(files, path, w)) <==> Transient(w)
    {
    }

    /** `_request("GET", ...)` with its retry loop. */
    method Get<T>(ask: Wire -> Raw<T>) returns (raw: Raw<T>)
      modifies this`clock
      ensures old(clock) < clock <= old(clock) + READ_MAX_ATTEMPTS
      ensures raw == ask(wire(clock - 1))
      ensures forall i :: old(clock) <= i < clock - 1 ==> Again(ask(wire(i)))
      ensures clock < old(clock) + READ_MAX_ATTEMPTS ==> !Again(raw)
    {
      raw := ask(wire(clock));
      clock := clock + 1;
      var attempt := 1;
      while attempt < READ_MAX_ATTEMPTS && Again(raw)
        invariant 1 <= attempt <= READ_MAX_ATTEMPTS && clock == old(clock) + attempt
        invariant raw == ask(wire(clock - 1))
        invariant forall i :: old(clock) <= i < clock - 1 ==> Again(ask(wire(i)))
      {
        raw := ask(wire(clock));
        clock := clock + 1;
        attempt := attempt + 1;
      }
    }

    /** One commit request; it is never retried. */
    method Post(actions: seq<Action>) returns (raw: Raw<string>)
      modifies this`repo, this`clock
      ensures clock == old(clock) + 1
      ensures repo == Committed(old(repo), actions, wire(old(clock)))
      ensures raw == CommitRaw(old(repo), actions, idOf, wire(old(clock)))
    {
      raw := CommitRaw(repo, actions, idOf, wire(clock));
      repo := Committed(repo, actions, wire(clock));
      clock := clock + 1;
    }

    /** Up to three reads; one answer is enough, and its word is the truth. */
    method RequestFile(path: Path) returns (r: Result<Payload>)
      modifies this`clock
      ensures old(clock) < clock <= old(clock) + 3
      ensures forall i :: old(clock) <= i < clock - 1 ==> Transient(wire(i))
      ensures Transient(wire(clock - 1)) ==> clock == old(clock) + 3
      ensures r.Ok? ==> path in repo.files && Truthful(r.value, repo.files[path])
      ensures r == Fail(GatewayError(Some(404))) ==> path !in repo.files
      ensures wire(clock - 1).Fine? ==> if path in repo.files then r.Ok? else r == Fail(GatewayError(Some(404)))
    {
      var files := repo.files;
      forall w ensures Again(ReadRaw(files, path, w)) <==> Transient(w) { RepeatsIff(files, path, w); }
      var raw := Get(w => ReadRaw(files, path, w));
      r := Verdict(raw);
    }

    predicate MatchesBytes(payload: Payload, bytes: Bytes)
    {
      if payload.sha.Some? && payload.sha.value != "" then payload.sha.value == hash(bytes)
      else payload.content == Some(bytes)
    }

    lemma MatchMeansEqual(payload: Payload, stored: Bytes, bytes: Bytes)
      requires Injective(hash) && Truthful(payload, stored)
      ensures MatchesBytes(payload, bytes) <==> stored == bytes
    {
      if hash(stored) == hash(bytes) { assert stored == bytes; }
    }

    /** The action one file needs, if any. */
    method PlanFile(e: Entry) returns (r: Result<Option<Action>>)
      requires Injective(hash)
      modifies this`clock
      ensures old(clock) < clock
      ensures r.Ok? ==> r.value == if Holds(repo.files, e) then None else Some(Needed(repo.files, e))
      ensures wire(clock - 1).Fine? ==> r.Ok?
    {
      var got := RequestFile(e.path);
      match got {
        case Ok(payload) =>
          MatchMeansEqual(payload, repo.files[e.path], e.bytes);
          r := Ok(if MatchesBytes(payload, e.bytes) then None else Some(Update(e.path, e.bytes)));
        case Fail(failure) =>
          r := if failure == GatewayError(Some(404)) then Ok(Some(Create(e.path, e.bytes))) else Fail(failure);
      }
    }

    /** The diff loop over one file map. */
    method PlanFiles(entries: seq<Entry>) returns (r: Result<seq<Action>>)
      requires Injective(hash)
      modifies this`clock
      ensures old(clock) <= clock
      ensures r.Ok? ==> r.value == Plan(repo.files, entries)
      ensures Calm(old(clock), clock) ==> r.Ok?
    {
      var actions: seq<Action> := [];
      for i := 0 to |entries|
        invariant old(clock) <= clock
        invariant actions == Plan(repo.files, entries[..i])
      {
        var planned := PlanFile(entries[i]);
        if planned.Fail? { return Fail(planned.failure); }
        PlanStep(repo.files, entries[..i], entries[i]);
        assert entries[..i + 1] == entries[..i] + [entries[i]];
        if planned.value.Some? { actions := actions + [planned.value.value]; }
      }
      assert entries[..|entries|] == entries;
      r := Ok(actions);
    }

    /** `_repository_files_match`: a gateway error counts as a mismatch, any other is passed on. */
    method FilesMatch(expected: map<Path, Bytes>) returns (matched: Result<bool>)
      requires Injective(hash)
      modifies this`clock
      ensures old(clock) <= clock
      ensures matched == Ok(true) ==> AllThere(repo.files, expected)
      ensures Calm(old(clock), clock) ==> matched == Ok(AllThere(repo.files, expected))
    {
      var rest := expected.Keys;
      while rest != {}
        invariant old(clock) <= clock
        invariant rest <= expected.Keys
        invariant forall p :: p in expected && p !in rest ==> Holds(repo.files, Entry(p, expected[p]))
        decreases rest
      {
        var p :| p in rest;
        var got := RequestFile(p);
        if got.Fail? { return if got.failure.GatewayError? then Ok(false) else Fail(got.failure); }
        MatchMeansEqual(got.value, repo.files[p], expected[p]);
        if !MatchesBytes(got.value, expected[p]) { return Ok(false); }
        rest := rest - {p};
      }
      matched := Ok(true);
    }

    /** `get_branch_head`: a normal return is the id of the last commit. */
    method BranchHead() returns (r: Result<string>)
      modifies this`clock
      ensures old(clock) < clock
      ensures r.Ok? ==> r.value == idOf(repo.commits)
      ensures wire(clock - 1).Fine? ==> r.Ok?
    {
      var head := idOf(repo.commits);
      var raw := Get((w: Wire) => Answered(Body(head), w));
      r := Verdict(raw);
    }

    /** The diff over both file maps. */
    method PlanAll(texts: seq<Entry>, binaries: seq<Entry>) returns (r: Result<seq<Action>>)
      requires Injective(hash)
      modifies this`clock
      ensures old(clock) <= clock
      ensures r.Ok? ==> r.value == Plan(repo.files, texts + binaries)
      ensures Calm(old(clock), clock) ==> r.Ok?
    {
      PlanConcat(repo.files, texts, binaries);
      r := PlanFiles(texts);
      if r.Ok? {
        var more := PlanFiles(binaries);
        r := if more.Ok? then Ok(r.value + more.value) else more;
      }
    }

    /** After a failed commit request: the call still succeeds when all planned bytes are there. */
    method Confirm(expected: map<Path, Bytes>, failure: Failure) returns (r: Result<string>)
      requires Injective(hash)
      modifies this`clock
      ensures old(clock) <= clock
      ensures r.Ok? ==> AllThere(repo.files, expected) && r.value == idOf(repo.commits)
      ensures Calm(old(clock), clock) && AllThere(repo.files, expected) ==> r.Ok?
    {
      var matched := FilesMatch(expected);
      if matched == Ok(true) {
        r := BranchHead();
      } else {
        r := Fail(if matched.Fail? then matched.failure else failure);
      }
    }

    /**
     `commit_repository_files`; `posted` is the exchange of the commit request, if
     one was made.  A call that meets no fault returns normally exactly when the server
     takes its plan; one that meets none but the loss of the reply to its commit
     returns normally too.  What it returns is always the id of the branch's last
     commit: the one it made, or the one it found.
     */
    method CommitRepositoryFiles(texts: seq<Entry>, binaries: seq<Entry>)
      returns (r: Result<string>, ghost posted: Option<nat>)
      requires Injective(hash)
      modifies this`repo, this`clock
      ensures old(clock) <= clock
      ensures CallEffect(old(repo), repo, texts + binaries, Ended(r.Ok?, Calm(old(clock), clock)))
      ensures r.Ok? ==> r.value == idOf(repo.commits)
      ensures posted.Some? ==> old(clock) <= posted.value < clock
      ensures posted.Some? && wire(posted.value).Fine? ==>
                (r.Ok? <==> Applicable(old(repo).files, Plan(old(repo).files, texts + binaries)))
      ensures Applicable(old(repo).files, Plan(old(repo).files, texts + binaries))
              && (forall i :: old(clock) <= i < clock && posted != Some(i) ==> wire(i).Fine?)
              && (posted.Some? ==> Mended(wire(posted.value)))
              ==> r.Ok?
    {
      posted := None;
      var planned := PlanAll(texts, binaries);
      if planned.Fail? { return Fail(planned.failure), None; }
      if planned.value == [] {
        r := BranchHead();
        return;
      }
      posted := Some(clock);
      var raw := Post(planned.value);
      if raw.Body? {
        r := Ok(raw.payload);
      } else if raw.Garbled? || raw == Misshapen(false) {
        r := Fail(Verdict(raw).failure);
      } else {
        ExpectedThere(old(repo).files, planned.value);
        r := Confirm(Expected(planned.value), Verdict(raw).failure);
        if r.Ok? { MatchMeansCommitted(old(repo).files, repo.files, texts + binaries); }
      }
    }
  }

  // ------------------------------------------------------------------ lemmas

  /** `expected_contents`: the bytes each planned action writes. */
  function Expected(actions: seq<Action>): map<Path, Bytes> {
    After(map[], actions)
  }

  lemma {:induction false} PlanConcat(files: map<Path, Bytes>, a: seq<Entry>, b: seq<Entry>)
    ensures Plan(files, a + b) == Plan(files, a) + Plan(files, b)
  {
    if b == [] {
      assert a + b == a;
    } else {
      var n := |b| - 1;
      assert (a + b)[..|a| + n] == a + b[..n];
      PlanConcat(files, a, b[..n]);
    }
  }

  /** Each expected content was missing when the plan was made. */
  lemma {:induction false} ExpectedMissing(files: map<Path, Bytes>, entries: seq<Entry>)
    ensures var expected := Expected(Plan(files, entries));
            forall p :: p in expected ==> !Holds(files, Entry(p, expected[p]))
    ensures Plan(files, entries) != [] ==> Expected(Plan(files, entries)) != map[]
  {
    if entries != [] {
      var init, e := entries[..|entries| - 1], entries[|entries| - 1];
      ExpectedMissing(files, init);
      if !Holds(files, e) {
        var plan := Plan(files, entries);
        assert plan[..|plan| - 1] == Plan(files, init);
        assert Expected(plan) == Expected(Plan(files, init))[e.path := e.bytes];
        assert e.path in Expected(plan);
      }
    }
  }

  /** All expected bytes are in place. */
  ghost predicate AllThere(files: map<Path, Bytes>, expected: map<Path, Bytes>) {
    forall p :: p in expected ==> Holds(files, Entry(p, expected[p]))
  }

  lemma {:induction false} ExpectedThere(files: map<Path, Bytes>, actions: seq<Action>)
    ensures AllThere(After(files, actions), Expected(actions))
  {
    if actions != [] { ExpectedThere(files, actions[..|actions| - 1]); }
  }

  lemma MatchMeansCommitted(files: map<Path, Bytes>, files': map<Path, Bytes>, entries: seq<Entry>)
    requires Plan(files, entries) != []
    requires AllThere(files', Expected(Plan(files, entries)))
    ensures files' != files
  {
    ExpectedMissing(files, entries);
    var expected := Expected(Plan(files, entries));
    var p :| p in expected;
    assert Holds(files', Entry(p, expected[p])) && !Holds(files, Entry(p, expected[p]));
  }

  /** No path is asked to hold two different contents; disjoint file maps always meet this. */
  ghost predicate Consistent(entries: seq<Entry>) {
    forall x, y :: x in entries && y in entries && x.path == y.path ==> x == y
  }

  ghost predicate DistinctPaths(entries: seq<Entry>) {
    forall i, j :: 0 <= i < j < |entries| ==> entries[i].path != entries[j].path
  }

  ghost predicate AllHold(files: map<Path, Bytes>, entries: seq<Entry>) {
    forall e :: e in entries ==> Holds(files, e)
  }

  function PathsOf(entries: seq<Entry>): set<Path> { set e | e in entries :: e.path }

  /** Paths outside `entries` are just as they were. */
  ghost predicate OthersKept(files: map<Path, Bytes>, files': map<Path, Bytes>, entries: seq<Entry>) {
    forall p :: p !in PathsOf(entries) ==> (p in files <==> p in files') && (p in files ==> files'[p] == files[p])
  }

  lemma PlanStep(files: map<Path, Bytes>, init: seq<Entry>, e: Entry)
    ensures Plan(files, init + [e])
            == if Holds(files, e) then Plan(files, init) else Plan(files, init) + [Needed(files, e)]
  {
    assert (init + [e])[..|init|] == init;
  }

  lemma AfterStep(files: map<Path, Bytes>, actions: seq<Action>, a: Action)
    ensures After(files, actions + [a]) == After(files, actions)[a.path := a.bytes]
    ensures Applicable(files, actions + [a])
            == (Applicable(files, actions) && (a.Create? <==> a.path !in After(files, actions)))
  {
    assert (actions + [a])[..|actions|] == actions;
  }

  lemma {:induction false} PlanEmptyIff(files: map<Path, Bytes>, entries: seq<Entry>)
    ensures Plan(files, entries) == [] <==> AllHold(files, entries)
  {
    if entries != [] {
      var init, e := entries[..|entries| - 1], entries[|entries| - 1];
      assert entries == init + [e];
      PlanEmptyIff(files, init);
      assert e in entries;
    }
  }

  /** A planned commit writes just what was asked. */
  lemma {:induction false} PlanWrites(files: map<Path, Bytes>, entries: seq<Entry>)
    requires Consistent(entries)
    ensures AllHold(After(files, Plan(files, entries)), entries)
    ensures OthersKept(files, After(files, Plan(files, entries)), entries)
  {
    if entries != [] {
      var init, e := entries[..|entries| - 1], entries[|entries| - 1];
      assert entries == init + [e];
      PlanWrites(files, init);
      PlanStep(files, init, e);
      var plan := Plan(files, init);
      var mid := After(files, plan);
      if Holds(files, e) {
        KeptHolds(files, mid, init, e);
      } else {
        AfterStep(files, plan, Needed(files, e));
      }
      WriteLast(files, mid, init, e);
    }
  }

  lemma KeptHolds(files: map<Path, Bytes>, mid: map<Path, Bytes>, init: seq<Entry>, e: Entry)
    requires AllHold(mid, init) && OthersKept(files, mid, init) && Consistent(init + [e]) && Holds(files, e)
    ensures mid[e.path := e.bytes] == mid
  {
    if e.path in PathsOf(init) {
      var x :| x in init && x.path == e.path;
      assert x in init + [e] && e in init + [e];
    }
  }

  lemma WriteLast(files: map<Path, Bytes>, mid: map<Path, Bytes>, init: seq<Entry>, e: Entry)
    requires AllHold(mid, init) && OthersKept(files, mid, init) && Consistent(init + [e])
    ensures AllHold(mid[e.path := e.bytes], init + [e])
    ensures OthersKept(files, mid[e.path := e.bytes], init + [e])
  {
    assert forall x :: x in init + [e] <==> x in init || x == e;
    assert PathsOf(init + [e]) == PathsOf(init) + {e.path};
  }

  /** Over distinct paths the server accepts the plan. */
  lemma {:induction false} PlanAccepted(files: map<Path, Bytes>, entries: seq<Entry>)
    requires DistinctPaths(entries)
    ensures Applicable(files, Plan(files, entries))
  {
    if entries != [] {
      var n := |entries| - 1;
      var init, e := entries[..n], entries[n];
      assert entries == init + [e];
      PlanAccepted(files, init);
      DistinctConsistent(init);
      PlanWrites(files, init);
      assert e.path !in PathsOf(init);
      StepAccepted(files, init, e);
    }
  }

  lemma StepAccepted(files: map<Path, Bytes>, init: seq<Entry>, e: Entry)
    requires Applicable(files, Plan(files, init))
    requires e.path in files <==> e.path in After(files, Plan(files, init))
    ensures Applicable(files, Plan(files, init + [e]))
    ensures After(files, Plan(files, init + [e]))
            == if Holds(files, e) then After(files, Plan(files, init))
               else After(files, Plan(files, init))[e.path := e.bytes]
  {
    PlanStep(files, init, e);
    AfterStep(files, Plan(files, init), Needed(files, e));
  }

  lemma DistinctConsistent(entries: seq<Entry>)
    requires DistinctPaths(entries)
    ensures Consistent(entries)
  {
  }

  /** One call. */
  lemma OneCall(before: Repo, after: Repo, entries: seq<Entry>, ended: Ended)
    requires Consistent(entries) && CallEffect(before, after, entries, ended)
    ensures ended.returned ==> AllHold(after.files, entries)
    ensures after != before ==> AllHold(after.files, entries) && after.commits == before.commits + 1
    ensures OthersKept(before.files, after.files, entries)
    ensures AllHold(before.files, entries) ==> after == before
  {
    PlanWrites(before.files, entries);
    PlanEmptyIff(before.files, entries);
  }

  /** A history of calls with the same files: `repos[i + 1]` is what call `i` leaves behind. */
  ghost predicate Calls(repos: seq<Repo>, calls: seq<Ended>, entries: seq<Entry>) {
    |repos| == |calls| + 1
    && forall i :: 0 <= i < |calls| ==> CallEffect(repos[i], repos[i + 1], entries, calls[i])
  }

  /** How far repeated calls can have moved the repository. */
  ghost predicate Moved(first: Repo, now: Repo, entries: seq<Entry>) {
    && first.commits <= now.commits <= first.commits + 1
    && OthersKept(first.files, now.files, entries)
    && (now.commits > first.commits ==> AllHold(now.files, entries))
  }

  lemma {:induction false} AfterCalls(repos: seq<Repo>, calls: seq<Ended>, entries: seq<Entry>, k: nat)
    requires Consistent(entries) && Calls(repos, calls, entries) && k < |repos|
    ensures Moved(repos[0], repos[k], entries)
    ensures forall i :: 0 <= i < k && calls[i].returned ==> AllHold(repos[k].files, entries)
  {
    if k > 0 {
      AfterCalls(repos, calls, entries, k - 1);
      OneCall(repos[k - 1], repos[k], entries, calls[k - 1]);
    }
  }

  /**
   However often the call is repeated and whatever the network does: at most one
   commit takes effect, other paths never change, and once a call has returned
   normally every path holds its bytes from then on.
   */
  lemma RepeatedCalls(repos: seq<Repo>, calls: seq<Ended>, entries: seq<Entry>)
    requires Consistent(entries) && Calls(repos, calls, entries)
    ensures forall i :: 0 <= i < |repos| ==> repos[0].commits <= repos[i].commits <= repos[0].commits + 1
    ensures forall i :: 0 <= i < |repos| ==> OthersKept(repos[0].files, repos[i].files, entries)
    ensures forall i, j :: 0 <= i < j < |repos| && calls[i].returned ==> AllHold(repos[j].files, entries)
  {
    forall k | 0 <= k < |repos|
      ensures Moved(repos[0], repos[k], entries)
      ensures forall i :: 0 <= i < k && calls[i].returned ==> AllHold(repos[k].files, entries)
    {
      AfterCalls(repos, calls, entries, k);
    }
  }

  ghost predicate AllPresent(files: map<Path, Bytes>, entries: seq<Entry>) {
    forall e :: e in entries ==> e.path in files
  }

  lemma {:induction false} PresentPlan(files: map<Path, Bytes>, entries: seq<Entry>)
    requires AllPresent(files, entries)
    ensures Applicable(files, Plan(files, entries)) && After(files, Plan(files, entries)).Keys == files.Keys
  {
    if entries != [] {
      var init, e := entries[..|entries| - 1], entries[|entries| - 1];
      assert entries == init + [e] && e in entries;
      PresentPlan(files, init);
      StepAccepted(files, init, e);
    }
  }

  /** Asked for two contents of one path, a call over present paths always commits, whatever it finds. */
  lemma ContestedPlan(files: map<Path, Bytes>, entries: seq<Entry>)
    requires !Consistent(entries) && AllPresent(files, entries)
    ensures var plan := Plan(files, entries);
            plan != [] && Applicable(files, plan) && After(files, plan).Keys == files.Keys
  {
    PlanEmptyIff(files, entries);
    PresentPlan(files, entries);
  }

  ghost predicate AtMostOnce(entries: seq<Entry>) {
    forall repos: seq<Repo>, calls: seq<Ended> :: Calls(repos, calls, entries) ==>
      repos[|calls|].commits <= repos[0].commits + 1
  }

  /** A calm call for two contents of one present path commits, and leaves all paths present. */
  lemma ContestedCall(before: Repo, after: Repo, entries: seq<Entry>, ended: Ended)
    requires !Consistent(entries) && AllPresent(before.files, entries)
    requires CallEffect(before, after, entries, ended) && ended.calm
    ensures ended.returned && after.commits == before.commits + 1 && AllPresent(after.files, entries)
  {
    ContestedPlan(before.files, entries);
  }

  /** However often it is repeated: each calm call for two contents of one present path commits once more. */
  lemma {:induction false} ContestedCalls(repos: seq<Repo>, calls: seq<Ended>, entries: seq<Entry>, k: nat)
    requires !Consistent(entries) && Calls(repos, calls, entries) && AllPresent(repos[0].files, entries)
    requires k < |repos| && forall i :: 0 <= i < k ==> calls[i].calm
    ensures repos[k].commits == repos[0].commits + k && AllPresent(repos[k].files, entries)
    ensures forall i :: 0 <= i < k ==> calls[i].returned
  {
    if k > 0 {
      ContestedCalls(repos, calls, entries, k - 1);
      ContestedCall(repos[k - 1], repos[k], entries, calls[k - 1]);
    }
  }

  lemma AllContested(repos: seq<Repo>, calls: seq<Ended>, entries: seq<Entry>)
    requires !Consistent(entries) && Calls(repos, calls, entries) && AllPresent(repos[0].files, entries)
    requires AllCalm(calls)
    ensures forall k :: 0 <= k < |repos| ==> repos[k].commits == repos[0].commits + k
    ensures forall i :: 0 <= i < |calls| ==> calls[i].returned
  {
    forall k | 0 <= k < |repos| ensures repos[k].commits == repos[0].commits + k {
      ContestedCalls(repos, calls, entries, k);
    }
    ContestedCalls(repos, calls, entries, |calls|);
  }

  /** Two calm calls, both returning normally, both committing. */
  lemma CommitsTwice(entries: seq<Entry>) returns (repos: seq<Repo>)
    requires !Consistent(entries)
    ensures Calls(repos, [Ended(true, true), Ended(true, true)], entries)
    ensures repos[2].commits == repos[0].commits + 2
  {
    var files: map<Path, Bytes> := map p | p in PathsOf(entries) :: [];
    ContestedPlan(files, entries);
    var files' := After(files, Plan(files, entries));
    ContestedPlan(files', entries);
    repos := [Repo(files, 0), Repo(files', 1), Repo(After(files', Plan(files', entries)), 2)];
  }

  /** Repetition is harmless exactly when no path is asked to hold two different contents. */
  lemma AtMostOnceIff(entries: seq<Entry>)
    ensures AtMostOnce(entries) <==> Consistent(entries)
  {
    if Consistent(entries) {
      forall repos: seq<Repo>, calls: seq<Ended> | Calls(repos, calls, entries)
        ensures repos[|calls|].commits <= repos[0].commits + 1
      {
        RepeatedCalls(repos, calls, entries);
      }
    } else {
      var repos := CommitsTwice(entries);
    }
  }

  /**
   The call itself, made `times` times on one gateway: at most one commit when no
   path is contested, whatever goes wrong; one commit per call when one is, all paths
   are present and nothing goes wrong.
   */
  method CommitRepeatedly(gateway: Gateway, texts: seq<Entry>, binaries: seq<Entry>, times: nat)
    returns (results: seq<Result<string>>)
    requires Injective(gateway.hash)
    modifies gateway`repo, gateway`clock
    ensures |results| == times && old(gateway.clock) <= gateway.clock
    ensures times > 0 && results[times - 1].Ok? ==> results[times - 1].value == gateway.idOf(gateway.repo.commits)
    ensures Consistent(texts + binaries) ==> Moved(old(gateway.repo), gateway.repo, texts + binaries)
    ensures !Consistent(texts + binaries) && AllPresent(old(gateway.repo).files, texts + binaries)
            && gateway.Calm(old(gateway.clock), gateway.clock) ==>
              EachCommits(results, old(gateway.repo).commits, gateway.repo.commits, gateway.idOf)
  {
    results := [];
    ghost var entries, first := texts + binaries, gateway.clock;
    ghost var repos, calls: seq<Ended> := [gateway.repo], [];
    for n := 0 to times
      invariant |results| == n && first <= gateway.clock
      invariant Recorded(repos, calls, results, entries, gateway.idOf)
      invariant repos[0] == old(gateway.repo) && repos[n] == gateway.repo
      invariant gateway.Calm(first, gateway.clock) ==> AllCalm(calls)
    {
      ghost var before := gateway.clock;
      var r, _ := gateway.CommitRepositoryFiles(texts, binaries);
      ghost var ended := Ended(r.Ok?, gateway.Calm(before, gateway.clock));
      RecordedSnoc(repos, calls, results, entries, gateway.idOf, gateway.repo, ended, r);
      results, repos, calls := results + [r], repos + [gateway.repo], calls + [ended];
    }
    RecordedOutcome(repos, calls, results, entries, gateway.idOf);
  }

  lemma RecordedOutcome(repos: seq<Repo>, calls: seq<Ended>, results: seq<Result<string>>, entries: seq<Entry>,
                        idOf: nat -> string)
    requires Recorded(repos, calls, results, entries, idOf)
    ensures Consistent(entries) ==> Moved(repos[0], repos[|calls|], entries)
    ensures !Consistent(entries) && AllPresent(repos[0].files, entries) && AllCalm(calls) ==>
              EachCommits(results, repos[0].commits, repos[|calls|].commits, idOf)
  {
    if Consistent(entries) {
      AfterCalls(repos, calls, entries, |calls|);
    } else if AllPresent(repos[0].files, entries) && AllCalm(calls) {
      AllContested(repos, calls, entries);
    }
  }

  /** Every call has made one more commit and returned its id. */
  predicate EachCommits(results: seq<Result<string>>, first: nat, last: nat, idOf: nat -> string) {
    last == first + |results| && forall i :: 0 <= i < |results| ==> results[i] == Ok(idOf(first + i + 1))
  }

  ghost predicate AllCalm(calls: seq<Ended>) { forall i :: 0 <= i < |calls| ==> calls[i].calm }

  /** A history with its results: each normal one is the id of the last commit of its time. */
  ghost predicate Recorded(
    repos: seq<Repo>, calls: seq<Ended>, results: seq<Result<string>>, entries: seq<Entry>, idOf: nat -> string)
  {
    && |results| == |calls| && Calls(repos, calls, entries)
    && forall i :: 0 <= i < |results| ==>
         calls[i].returned == results[i].Ok? && (results[i].Ok? ==> results[i].value == idOf(repos[i + 1].commits))
  }

  lemma RecordedSnoc(repos: seq<Repo>, calls: seq<Ended>, results: seq<Result<string>>, entries: seq<Entry>,
                     idOf: nat -> string, after: Repo, ended: Ended, r: Result<string>)
    requires Recorded(repos, calls, results, entries, idOf) && CallEffect(repos[|repos| - 1], after, entries, ended)
    requires ended.returned == r.Ok? && (r.Ok? ==> r.value == idOf(after.commits))
    ensures Recorded(repos + [after], calls + [ended], results + [r], entries, idOf)
  {
    CallsSnoc(repos, calls, entries, after, ended);
  }

  lemma CallsSnoc(repos: seq<Repo>, calls: seq<Ended>, entries: seq<Entry>, after: Repo, ended: Ended)
    requires Calls(repos, calls, entries) && CallEffect(repos[|repos| - 1], after, entries, ended)
    ensures Calls(repos + [after], calls + [ended], entries)
  {
    var repos', calls' := repos + [after], calls + [ended];
    forall i | 0 <= i < |calls'| ensures CallEffect(repos'[i], repos'[i + 1], entries, calls'[i]) {
      if i < |calls| { assert CallEffect(repos[i], repos[i + 1], entries, calls[i]); }
    }
  }
}
