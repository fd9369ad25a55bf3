/**
 * What a run of the suite does, as functions producing a trace of events.
 *
 * `AllOutcome`, `TestOutcome`, `TestsOutcome` and `SpecTrace` follow `_runAll`,
 * `_runTest`, `_runTests` and `_run` of mod.ts.  The outside world enters through
 * an oracle `fails`: a hook run or a dispatch throws exactly when its event is in
 * `fails`.  An event that throws was still started, so it is recorded.
 *
 * The second half restates a group's run as one flat list of steps (its
 * before-hooks, its children, its after-hooks) run in order until the first one
 * that throws, and proves the ordering and failure-containment facts from it.
 */
module Semantics {
  import opened Tree

  /** The separator that `_runTest` joins name paths with. */
  const Separator: string := " > "

  /** `parts.join(" > ")`. */
  function JoinNames(parts: seq<string>): string
  {
    if |parts| == 0 then ""
    else if |parts| == 1 then parts[0]
    else parts[0] + Separator + JoinNames(parts[1..])
  }

  /** Joining two non-empty name lists puts exactly one separator between them. */
  lemma {:induction false} JoinNamesAppend(a: seq<string>, b: seq<string>)
    requires |a| > 0 && |b| > 0
    ensures JoinNames(a + b) == JoinNames(a) + Separator + JoinNames(b)
    decreases |a|
  {
    assert (a + b)[0] == a[0];
    if |a| == 1 {
      assert (a + b)[1..] == b;
    } else {
      assert (a + b)[1..] == a[1..] + b;
      JoinNamesAppend(a[1..], b);
    }
  }

  /** Entering a nested group adds its name as one more segment. */
  lemma NestedName(names: seq<string>, name: string)
    ensures names == [] ==> JoinNames(names + [name]) == name
    ensures names != [] ==> JoinNames(names + [name]) == JoinNames(names) + Separator + name
  {
    if names == [] {
      assert names + [name] == [name];
    } else {
      JoinNamesAppend(names, [name]);
    }
  }

  datatype Event =
    | HookRun(hook: HookId)                  // a before- or after-hook was invoked
    | Dispatch(name: string, body: BodyId)   // a test was handed to the host framework

  /** What a piece of the run emitted, and whether it ended by throwing. */
  datatype Outcome = Outcome(trace: seq<Event>, threw: bool)

  /** The events of running every hook of `hooks`, in order. */
  function HookEvents(hooks: seq<HookId>): seq<Event>
  {
    seq(|hooks|, i requires 0 <= i < |hooks| => HookRun(hooks[i]))
  }

  /** `_runAll`: run the hooks in order; the first one that throws ends the loop. */
  function AllOutcome(hooks: seq<HookId>, fails: set<Event>): (o: Outcome)
    ensures o.trace <= HookEvents(hooks)
    ensures o.threw <==> exists j :: 0 <= j < |hooks| && HookRun(hooks[j]) in fails
    ensures !o.threw ==> o.trace == HookEvents(hooks)
    ensures o.threw ==> |o.trace| > 0 && o.trace[|o.trace| - 1] in fails
    decreases |hooks|
  {
    if hooks == [] then Outcome([], false)
    else
      var n := |hooks|;
      var prior := AllOutcome(hooks[..n - 1], fails);
      assert HookEvents(hooks[..n - 1]) == HookEvents(hooks)[..n - 1];
      assert forall j :: 0 <= j < n - 1 ==> hooks[..n - 1][j] == hooks[j];
      if prior.threw then prior
      else
        var e := HookRun(hooks[n - 1]);
        assert HookEvents(hooks) == HookEvents(hooks[..n - 1]) + [e];
        Outcome(prior.trace + [e], e in fails)
  }

  /** `_runTest`: hand the test to the host under its full name. */
  function TestOutcome(test: Node, names: seq<string>, fails: set<Event>): Outcome
    requires test.Case?
  {
    var e := Dispatch(JoinNames(names + [test.name]), test.body);
    Outcome([e], e in fails)
  }

  /** One iteration of `_runTests`: a nested group never throws, a test may. */
  function ChildOutcome(child: Node, names: seq<string>, fails: set<Event>): Outcome
    decreases child, 1
  {
    if child.Group? then Outcome(SpecTrace(child, names + [child.name], fails), false)
    else TestOutcome(child, names, fails)
  }

  /** `_runTests`: visit the children in order until one throws. */
  function TestsOutcome(tests: seq<Node>, names: seq<string>, fails: set<Event>): Outcome
    decreases tests
  {
    if tests == [] then Outcome([], false)
    else
      var prior := TestsOutcome(tests[..|tests| - 1], names, fails);
      if prior.threw then prior
      else
        var o := ChildOutcome(tests[|tests| - 1], names, fails);
        Outcome(prior.trace + o.trace, o.threw)
  }

  /**
   * `_run`: before-hooks, children, after-hooks inside one try; whatever throws
   * ends the group and is swallowed here, so a group never throws.
   */
  function SpecTrace(spec: Node, names: seq<string>, fails: set<Event>): seq<Event>
    requires spec.Group?
    decreases spec, 0
  {
    var b := AllOutcome(spec.before, fails);
    if b.threw then b.trace
    else
      var t := TestsOutcome(spec.children, names, fails);
      if t.threw then b.trace + t.trace
      else b.trace + t.trace + AllOutcome(spec.after, fails).trace
  }

  /** `run` on a suite with nothing registered. */
  lemma EmptySuiteRunsNothing(fails: set<Event>)
    ensures SpecTrace(EmptyGroup("suite"), [], fails) == []
  {
  }

  /** A hook failure anywhere in the before-hooks ends the group before any child. */
  lemma FailingBeforeHookSkipsGroup(g: Node, names: seq<string>, fails: set<Event>, i: nat)
    requires g.Group? && i < |g.before| && HookRun(g.before[i]) in fails
    ensures var t := SpecTrace(g, names, fails);
      && t <= HookEvents(g.before)
      && forall k :: 0 <= k < |t| ==> !t[k].Dispatch?
  {
    var t := SpecTrace(g, names, fails);
    forall k | 0 <= k < |t| ensures !t[k].Dispatch? {
      assert t[k] == HookEvents(g.before)[k];
    }
  }

  // ---------------------------------------------------------------------------
  // A group's run as one flat list of steps

  datatype Step = HookStep(hook: HookId) | ChildStep(child: Node)

  function HookSteps(hooks: seq<HookId>): seq<Step>
  {
    seq(|hooks|, i requires 0 <= i < |hooks| => HookStep(hooks[i]))
  }

  function ChildSteps(children: seq<Node>): seq<Step>
  {
    seq(|children|, i requires 0 <= i < |children| => ChildStep(children[i]))
  }

  /** The steps of one group: its before-hooks, then its children, then its after-hooks. */
  function Steps(g: Node): seq<Step>
    requires g.Group?
  {
    HookSteps(g.before) + ChildSteps(g.children) + HookSteps(g.after)
  }

  function StepOutcome(s: Step, names: seq<string>, fails: set<Event>): Outcome
  {
    match s
    case HookStep(h) => Outcome([HookRun(h)], HookRun(h) in fails)
    case ChildStep(c) => ChildOutcome(c, names, fails)
  }

  /** Run the steps in order; the first step that throws ends the run. */
  function RunSteps(steps: seq<Step>, names: seq<string>, fails: set<Event>): Outcome
  {
    if steps == [] then Outcome([], false)
    else
      var o := StepOutcome(steps[0], names, fails);
      if o.threw then o
      else
        var rest := RunSteps(steps[1..], names, fails);
        Outcome(o.trace + rest.trace, rest.threw)
  }

  /** Sequential composition of two outcomes: the second runs only if the first did not throw. */
  function Then(o1: Outcome, o2: Outcome): Outcome
  {
    if o1.threw then o1 else Outcome(o1.trace + o2.trace, o2.threw)
  }

  /** The index of the first step that throws, or the number of steps when none does. */
  function FirstThrow(steps: seq<Step>, names: seq<string>, fails: set<Event>): (k: nat)
    ensures k <= |steps|
    ensures forall j :: 0 <= j < k ==> !StepOutcome(steps[j], names, fails).threw
    ensures k < |steps| ==> StepOutcome(steps[k], names, fails).threw
  {
    if steps == [] then 0
    else if StepOutcome(steps[0], names, fails).threw then 0
    else 1 + FirstThrow(steps[1..], names, fails)
  }

  /** How many steps start: up to and including the first that throws. */
  function Started(steps: seq<Step>, names: seq<string>, fails: set<Event>): nat
  {
    var k := FirstThrow(steps, names, fails);
    if k < |steps| then k + 1 else |steps|
  }

  /** The events of all `steps` when each is run regardless of the others. */
  function StepsTrace(steps: seq<Step>, names: seq<string>, fails: set<Event>): seq<Event>
  {
    if steps == [] then [] else StepOutcome(steps[0], names, fails).trace + StepsTrace(steps[1..], names, fails)
  }

  lemma {:induction false} StepsTraceAppend(a: seq<Step>, b: seq<Step>, names: seq<string>, fails: set<Event>)
    ensures StepsTrace(a + b, names, fails) == StepsTrace(a, names, fails) + StepsTrace(b, names, fails)
    decreases |a|
  {
    if a == [] {
      assert a + b == b;
    } else {
      assert (a + b)[0] == a[0] && (a + b)[1..] == a[1..] + b;
      StepsTraceAppend(a[1..], b, names, fails);
    }
  }

  lemma {:induction false} HookStepsTrace(hooks: seq<HookId>, names: seq<string>, fails: set<Event>)
    ensures StepsTrace(HookSteps(hooks), names, fails) == HookEvents(hooks)
    decreases |hooks|
  {
    if hooks != [] {
      assert HookSteps(hooks)[1..] == HookSteps(hooks[1..]);
      assert HookEvents(hooks) == [HookRun(hooks[0])] + HookEvents(hooks[1..]);
      HookStepsTrace(hooks[1..], names, fails);
    }
  }

  /** The flat run stops right after the first step that throws, and throws exactly then. */
  lemma {:induction false} RunStepsStopsAtFirstThrow(steps: seq<Step>, names: seq<string>, fails: set<Event>)
    ensures RunSteps(steps, names, fails)
         == Outcome(StepsTrace(steps[..Started(steps, names, fails)], names, fails),
                    FirstThrow(steps, names, fails) < |steps|)
    decreases |steps|
  {
    if steps != [] {
      var o := StepOutcome(steps[0], names, fails);
      if o.threw {
        assert steps[..1] == [steps[0]];
        assert StepsTrace(steps[..1][1..], names, fails) == [];
      } else {
        RunStepsStopsAtFirstThrow(steps[1..], names, fails);
        var m := Started(steps[1..], names, fails);
        assert Started(steps, names, fails) == m + 1;
        assert steps[..m + 1][0] == steps[0] && steps[..m + 1][1..] == steps[1..][..m];
      }
    }
  }

  lemma {:induction false} RunStepsAppend(a: seq<Step>, b: seq<Step>, names: seq<string>, fails: set<Event>)
    ensures RunSteps(a + b, names, fails) == Then(RunSteps(a, names, fails), RunSteps(b, names, fails))
    decreases |a|
  {
    if a == [] {
      assert a + b == b;
    } else {
      assert (a + b)[0] == a[0] && (a + b)[1..] == a[1..] + b;
      RunStepsAppend(a[1..], b, names, fails);
    }
  }

  lemma {:induction false} AllOutcomeIsRunSteps(hooks: seq<HookId>, names: seq<string>, fails: set<Event>)
    ensures AllOutcome(hooks, fails) == RunSteps(HookSteps(hooks), names, fails)
    decreases |hooks|
  {
    if hooks != [] {
      var n := |hooks|;
      AllOutcomeIsRunSteps(hooks[..n - 1], names, fails);
      assert HookSteps(hooks) == HookSteps(hooks[..n - 1]) + [HookStep(hooks[n - 1])];
      RunStepsAppend(HookSteps(hooks[..n - 1]), [HookStep(hooks[n - 1])], names, fails);
    }
  }

  lemma {:induction false} TestsOutcomeIsRunSteps(tests: seq<Node>, names: seq<string>, fails: set<Event>)
    ensures TestsOutcome(tests, names, fails) == RunSteps(ChildSteps(tests), names, fails)
    decreases |tests|
  {
    if tests != [] {
      var n := |tests|;
      TestsOutcomeIsRunSteps(tests[..n - 1], names, fails);
      assert ChildSteps(tests) == ChildSteps(tests[..n - 1]) + [ChildStep(tests[n - 1])];
      RunStepsAppend(ChildSteps(tests[..n - 1]), [ChildStep(tests[n - 1])], names, fails);
    }
  }

  /**
   * One try/catch per group: a group's run is its flat step list run in order,
   * ending after the first step that throws.
   */
  lemma OneRegionPerGroup(g: Node, names: seq<string>, fails: set<Event>)
    requires g.Group?
    ensures SpecTrace(g, names, fails) == RunSteps(Steps(g), names, fails).trace
    ensures SpecTrace(g, names, fails) == StepsTrace(Steps(g)[..Started(Steps(g), names, fails)], names, fails)
  {
    var before, children, after := HookSteps(g.before), ChildSteps(g.children), HookSteps(g.after);
    AllOutcomeIsRunSteps(g.before, names, fails);
    AllOutcomeIsRunSteps(g.after, names, fails);
    TestsOutcomeIsRunSteps(g.children, names, fails);
    RunStepsAppend(before + children, after, names, fails);
    RunStepsAppend(before, children, names, fails);
    RunStepsStopsAtFirstThrow(Steps(g), names, fails);
  }

  /**
   * Failure containment: when none of the group's own steps throws (its hooks and
   * the dispatches of its own tests), every before-hook, every child and every
   * after-hook runs, whatever failed inside nested groups.
   */
  lemma NestedFailuresAreContained(g: Node, names: seq<string>, fails: set<Event>)
    requires g.Group?
    requires forall h :: h in g.before || h in g.after ==> HookRun(h) !in fails
    requires forall c :: c in g.children && c.Case? ==> Dispatch(JoinNames(names + [c.name]), c.body) !in fails
    ensures SpecTrace(g, names, fails)
         == HookEvents(g.before) + StepsTrace(ChildSteps(g.children), names, fails) + HookEvents(g.after)
  {
    var steps := Steps(g);
    OneRegionPerGroup(g, names, fails);
    forall j | 0 <= j < |steps| ensures !StepOutcome(steps[j], names, fails).threw {
      if j < |g.before| {
        assert steps[j] == HookStep(g.before[j]);
      } else if j < |g.before| + |g.children| {
        assert steps[j] == ChildStep(g.children[j - |g.before|]);
      } else {
        assert steps[j] == HookStep(g.after[j - |g.before| - |g.children|]);
      }
    }
    assert Started(steps, names, fails) == |steps|;
    assert steps[..|steps|] == steps;
    StepsTraceAppend(HookSteps(g.before) + ChildSteps(g.children), HookSteps(g.after), names, fails);
    StepsTraceAppend(HookSteps(g.before), ChildSteps(g.children), names, fails);
    HookStepsTrace(g.before, names, fails);
    HookStepsTrace(g.after, names, fails);
  }

  /**
   * A test whose dispatch throws ends its group there: the later children and all
   * of the group's after-hooks are skipped.
   */
  lemma FailingDispatchSkipsRest(g: Node, names: seq<string>, fails: set<Event>, k: nat)
    requires g.Group? && k < |g.children| && g.children[k].Case?
    requires Dispatch(JoinNames(names + [g.children[k].name]), g.children[k].body) in fails
    requires forall h :: h in g.before ==> HookRun(h) !in fails
    requires forall c :: c in g.children[..k] && c.Case? ==> Dispatch(JoinNames(names + [c.name]), c.body) !in fails
    ensures SpecTrace(g, names, fails)
         == HookEvents(g.before) + StepsTrace(ChildSteps(g.children[..k + 1]), names, fails)
  {
    var steps := Steps(g);
    var nb := |g.before|;
    OneRegionPerGroup(g, names, fails);
    forall j | 0 <= j < nb + k ensures !StepOutcome(steps[j], names, fails).threw {
      if j < nb {
        assert steps[j] == HookStep(g.before[j]);
      } else {
        assert steps[j] == ChildStep(g.children[j - nb]);
        assert g.children[j - nb] in g.children[..k];
      }
    }
    assert steps[nb + k] == ChildStep(g.children[k]);
    assert FirstThrow(steps, names, fails) == nb + k;
    assert steps[..nb + k + 1] == HookSteps(g.before) + ChildSteps(g.children[..k + 1]);
    StepsTraceAppend(HookSteps(g.before), ChildSteps(g.children[..k + 1]), names, fails);
    HookStepsTrace(g.before, names, fails);
  }
}
