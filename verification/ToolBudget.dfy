/**
 When repeated tool failures end a run (`_check_error_budget` and
 `_check_repeated_builder_validation` in
 backend/app/agent_harness/middlewares/tool_calls.py).
 */
module ToolBudget {
  import opened Options

  /** The builder's submit tool, and the configured limits; a missing or zero limit limits nothing. */
  datatype Config = Config(builder: string, limits: map<string, int>)

  /** A tool result; `diagnostics` is empty unless the result carries a non-empty list of them. */
  datatype ToolResult = ToolResult(tool: string, isError: bool, diagnostics: seq<string>)

  /** The last builder diagnostics and how often they came in a row. */
  datatype Signature = Signature(diagnostics: seq<string>, count: nat)

  datatype State = State(errors: map<string, int>, signature: Option<Signature>)

  const Fresh := State(map[], None)

  predicate Limited(cfg: Config, tool: string) { tool in cfg.limits && cfg.limits[tool] != 0 }

  function Count(st: State, tool: string): int { if tool in st.errors then st.errors[tool] else 0 }

  predicate Diagnosed(cfg: Config, r: ToolResult) { r.tool == cfg.builder && r.isError && r.diagnostics != [] }

  function NextSignature(cfg: Config, st: State, r: ToolResult): Option<Signature> {
    if !Diagnosed(cfg, r) then st.signature
    else if st.signature.Some? && st.signature.value.diagnostics == r.diagnostics then
      Some(Signature(r.diagnostics, st.signature.value.count + 1))
    else Some(Signature(r.diagnostics, 1))
  }

  /** The builder check fires on the second equal diagnostics in a row. */
  predicate Repeats(cfg: Config, st: State, r: ToolResult) {
    Diagnosed(cfg, r) && NextSignature(cfg, st, r).value.count >= 2
  }

  function NextErrors(cfg: Config, st: State, r: ToolResult): map<string, int> {
    if Limited(cfg, r.tool) && r.isError then st.errors[r.tool := Count(st, r.tool) + 1]
    else if r.tool != "" then st.errors[r.tool := 0]
    else st.errors
  }

  predicate Exhausts(cfg: Config, st: State, r: ToolResult) {
    Limited(cfg, r.tool) && r.isError && Count(st, r.tool) + 1 >= cfg.limits[r.tool]
  }

  class ToolCallBudget {
    const cfg: Config
    var errors: map<string, int>
    var signature: Option<Signature>

    constructor (cfg: Config)
      ensures this.cfg == cfg && Value() == Fresh
    {
      this.cfg := cfg;
      errors, signature := map[], None;
    }

    ghost function Value(): State
      reads this
    {
      State(errors, signature)
    }

    method CheckRepeatedValidation(r: ToolResult) returns (raised: bool)
      modifies this`signature
      ensures signature == NextSignature(cfg, old(Value()), r)
      ensures raised <==> Repeats(cfg, old(Value()), r)
    {
      if r.tool != cfg.builder || !r.isError { return false; }
      if r.diagnostics == [] { return false; }
      var count :=
        if signature.Some? && signature.value.diagnostics == r.diagnostics then signature.value.count + 1 else 1;
      signature := Some(Signature(r.diagnostics, count));
      raised := count >= 2;
    }

    method CheckErrorBudget(r: ToolResult) returns (raised: bool)
      modifies this
      ensures raised <==> Repeats(cfg, old(Value()), r) || Exhausts(cfg, old(Value()), r)
      ensures signature == NextSignature(cfg, old(Value()), r)
      ensures errors == if Repeats(cfg, old(Value()), r) then old(errors) else NextErrors(cfg, old(Value()), r)
    {
      raised := CheckRepeatedValidation(r);
      if raised { return; }
      if !Limited(cfg, r.tool) || !r.isError {
        if r.tool != "" { errors := errors[r.tool := 0]; }
        return false;
      }
      var current := (if r.tool in errors then errors[r.tool] else 0) + 1;
      errors := errors[r.tool := current];
      raised := current >= cfg.limits[r.tool];
    }
  }

  /** The state after a run of results, or `None` once one of them has raised. */
  function RunOf(cfg: Config, results: seq<ToolResult>): Option<State> {
    if results == [] then Some(Fresh)
    else
      var before := RunOf(cfg, results[..|results| - 1]);
      var r := results[|results| - 1];
      if before.None? || Repeats(cfg, before.value, r) || Exhausts(cfg, before.value, r) then None
      else Some(State(NextErrors(cfg, before.value, r), NextSignature(cfg, before.value, r)))
  }

  // ------------------------------------------------------------ specification

  /** How many of the tool's own results, from its last one back, are errors. */
  function Trailing(results: seq<ToolResult>, tool: string): nat {
    if results == [] then 0
    else
      var r := results[|results| - 1];
      if r.tool != tool then Trailing(results[..|results| - 1], tool)
      else if r.isError then Trailing(results[..|results| - 1], tool) + 1
      else 0
  }

  /** The diagnostics of the builder's diagnosed failures, in order. */
  function DiagnosticsOf(cfg: Config, results: seq<ToolResult>): seq<seq<string>> {
    if results == [] then []
    else
      var r := results[|results| - 1];
      var init := DiagnosticsOf(cfg, results[..|results| - 1]);
      if r.tool == cfg.builder && r.isError && r.diagnostics != [] then init + [r.diagnostics] else init
  }

  ghost predicate NoRepeat(ds: seq<seq<string>>) {
    forall i :: 0 <= i < |ds| - 1 ==> ds[i] != ds[i + 1]
  }

  ghost predicate EndsWithin(cfg: Config, results: seq<ToolResult>) {
    forall tool :: tool in cfg.limits && cfg.limits[tool] != 0 && Trailing(results, tool) > 0 ==>
      Trailing(results, tool) < cfg.limits[tool]
  }

  /** At no point had a limited tool as many consecutive errors as its limit. */
  ghost predicate WithinLimits(cfg: Config, results: seq<ToolResult>) {
    forall k :: 0 <= k <= |results| ==> EndsWithin(cfg, results[..k])
  }

  ghost predicate Tracks(cfg: Config, results: seq<ToolResult>, st: State) {
    && (forall tool :: tool != "" && tool in cfg.limits && cfg.limits[tool] != 0 ==>
          Count(st, tool) == Trailing(results, tool))
    && (var ds := DiagnosticsOf(cfg, results);
        if ds == [] then st.signature.None?
        else st.signature.Some? && st.signature.value.diagnostics == ds[|ds| - 1] && st.signature.value.count == 1)
  }

  /** In an unraised run each limited tool's counter is its trailing run of errors, whatever other tools do. */
  lemma {:induction false} CounterIsTrailingRun(cfg: Config, results: seq<ToolResult>)
    requires RunOf(cfg, results).Some?
    ensures Tracks(cfg, results, RunOf(cfg, results).value)
  {
    if results != [] { CounterIsTrailingRun(cfg, results[..|results| - 1]); }
  }

  lemma NoRepeatStep(ds: seq<seq<string>>, d: seq<string>)
    ensures NoRepeat(ds + [d]) <==> NoRepeat(ds) && (ds == [] || ds[|ds| - 1] != d)
  {
    var all := ds + [d];
    forall i | 0 <= i < |ds| ensures all[i] == ds[i] {}
    if ds != [] {
      var n := |ds| - 1;
      assert all[n] == ds[n] && all[n + 1] == d;
      if NoRepeat(all) {
        assert all[n] != all[n + 1];
        forall i | 0 <= i < |ds| - 1 ensures ds[i] != ds[i + 1] { assert all[i] != all[i + 1]; }
      }
    }
  }

  lemma WithinLimitsStep(cfg: Config, results: seq<ToolResult>)
    requires results != []
    ensures var n := |results| - 1;
            WithinLimits(cfg, results) <==> WithinLimits(cfg, results[..n]) && EndsWithin(cfg, results)
  {
    var n := |results| - 1;
    assert results[..|results|] == results;
    forall k | 0 <= k <= n ensures results[..n][..k] == results[..k] {}
  }

  /**
   As long as no limit is set for the empty tool name, a run of results goes through
   unraised exactly when no limited tool ever reaches its limit of consecutive errors
   and no two diagnosed builder failures in a row (among those) carry the same
   diagnostics.
   */
  lemma {:induction false} UnraisedIff(cfg: Config, results: seq<ToolResult>)
    requires "" in cfg.limits ==> cfg.limits[""] == 0
    ensures RunOf(cfg, results).Some? <==> WithinLimits(cfg, results) && NoRepeat(DiagnosticsOf(cfg, results))
  {
    if results == [] {
      assert results[..0] == results;
    } else {
      var n := |results| - 1;
      var init, r := results[..n], results[n];
      UnraisedIff(cfg, init);
      WithinLimitsStep(cfg, results);
      if Diagnosed(cfg, r) { NoRepeatStep(DiagnosticsOf(cfg, init), r.diagnostics); }
      if RunOf(cfg, init).Some? {
        CounterIsTrailingRun(cfg, init);
        OtherToolsWithin(cfg, init, r);
      }
    }
  }

  /** Only the tool that answered can newly reach its limit. */
  lemma OtherToolsWithin(cfg: Config, init: seq<ToolResult>, r: ToolResult)
    requires WithinLimits(cfg, init)
    ensures EndsWithin(cfg, init + [r])
            <==> (Limited(cfg, r.tool) && r.isError ==> Trailing(init, r.tool) + 1 < cfg.limits[r.tool])
  {
    var all := init + [r];
    assert all[..|init|] == init;
    assert EndsWithin(cfg, init) by { assert init[..|init|] == init; }
    forall tool | tool != r.tool ensures Trailing(all, tool) == Trailing(init, tool) {}
  }
}
