/**
 * The execution loops of mod.ts as methods: `_runAll`, `_runTest`, `_runTests`
 * and `_run`.  Each is proved to compute the function of the same step in
 * module Semantics; an exception is an outcome whose `threw` is set, and the
 * try/catch of `_run` turns every such outcome into a normal return.
 */
module Engine {
  import opened Tree
  import opened Semantics

  /** Once a prefix of the hooks has thrown, the hooks after it do not matter. */
  lemma {:induction false} AllOutcomeStops(hooks: seq<HookId>, m: nat, fails: set<Event>)
    requires m <= |hooks| && AllOutcome(hooks[..m], fails).threw
    ensures AllOutcome(hooks, fails) == AllOutcome(hooks[..m], fails)
    decreases |hooks| - m
  {
    if m < |hooks| {
      var n := |hooks|;
      assert hooks[..n - 1][..m] == hooks[..m];
      AllOutcomeStops(hooks[..n - 1], m, fails);
    } else {
      assert hooks[..m] == hooks;
    }
  }

  /** Once a prefix of the children has thrown, the children after it do not run. */
  lemma {:induction false} TestsOutcomeStops(tests: seq<Node>, m: nat, names: seq<string>, fails: set<Event>)
    requires m <= |tests| && TestsOutcome(tests[..m], names, fails).threw
    ensures TestsOutcome(tests, names, fails) == TestsOutcome(tests[..m], names, fails)
    decreases |tests| - m
  {
    if m < |tests| {
      var n := |tests|;
      assert tests[..n - 1][..m] == tests[..m];
      TestsOutcomeStops(tests[..n - 1], m, names, fails);
    } else {
      assert tests[..m] == tests;
    }
  }

  /** `_runAll`: await each hook in turn. */
  method RunAll(hooks: seq<HookId>, fails: set<Event>) returns (o: Outcome)
    ensures o == AllOutcome(hooks, fails)
  {
    var trace: seq<Event> := [];
    var i := 0;
    while i < |hooks|
      invariant 0 <= i <= |hooks|
      invariant AllOutcome(hooks[..i], fails) == Outcome(trace, false)
    {
      var e := HookRun(hooks[i]);
      trace := trace + [e];
      assert hooks[..i + 1][..i] == hooks[..i];
      if e in fails {
        AllOutcomeStops(hooks, i + 1, fails);
        return Outcome(trace, true);
      }
      i := i + 1;
    }
    assert hooks[..i] == hooks;
    o := Outcome(trace, false);
  }

  /**
   * `_runTest`: hand the test to the host framework once, under the names of its
   * enclosing groups followed by its own, separated by `" > "`; the dispatch throws
   * exactly when the oracle says so.
   */
  method RunTest(test: Node, names: seq<string>, fails: set<Event>) returns (o: Outcome)
    requires test.Case?
    ensures |o.trace| == 1 && o.trace[0].Dispatch? && o.trace[0].body == test.body
    ensures o.trace[0].name == if names == [] then test.name else JoinNames(names) + Separator + test.name
    ensures o.threw <==> o.trace[0] in fails
  {
    var e := Dispatch(JoinNames(names + [test.name]), test.body);
    NestedName(names, test.name);
    o := Outcome([e], e in fails);
  }

  /** `_runTests`: a nested group is run with its name added; a test is dispatched. */
  method RunTests(tests: seq<Node>, names: seq<string>, fails: set<Event>) returns (o: Outcome)
    ensures o == TestsOutcome(tests, names, fails)
    decreases tests
  {
    var trace: seq<Event> := [];
    var i := 0;
    while i < |tests|
      invariant 0 <= i <= |tests|
      invariant TestsOutcome(tests[..i], names, fails) == Outcome(trace, false)
    {
      var test := tests[i];
      var step: Outcome;
      if test.Group? {
        var t := RunSpec(test, names + [test.name], fails);
        step := Outcome(t, false);
      } else {
        step := RunTest(test, names, fails);
        NestedName(names, test.name);
        assert step == TestOutcome(test, names, fails);
      }
      trace := trace + step.trace;
      assert tests[..i + 1][..i] == tests[..i];
      if step.threw {
        TestsOutcomeStops(tests, i + 1, names, fails);
        return Outcome(trace, true);
      }
      i := i + 1;
    }
    assert tests[..i] == tests;
    o := Outcome(trace, false);
  }

  /** `_run`: hooks and children under one try; a failure ends the group and is swallowed. */
  method RunSpec(spec: Node, names: seq<string>, fails: set<Event>) returns (trace: seq<Event>)
    requires spec.Group?
    ensures trace == SpecTrace(spec, names, fails)
    decreases spec
  {
    var b := RunAll(spec.before, fails);
    trace := b.trace;
    if b.threw {
      return;
    }
    var t := RunTests(spec.children, names, fails);
    trace := trace + t.trace;
    if t.threw {
      return;
    }
    var a := RunAll(spec.after, fails);
    trace := trace + a.trace;
  }
}
