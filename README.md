# testrunner (mod.ts) in Dafny

`mod.ts` is a small test-tree runner for Deno. Test files call `describe`, `before`,
`test`/`it` and `after` to register a tree of groups ("specs") and tests. `run` then
walks the tree depth first. For each group it runs the before-hooks, then the
children, then the after-hooks. Each test is handed to `Deno.test` under its full
name: the names of its enclosing groups and its own name, joined by `" > "`. Every
group's run sits inside its own try/catch. A failure ends the rest of that group, is
logged, and goes no further up.

The model has five modules:

- `Tree` (tree.dfy): the `Spec`/`Test` records as one datatype `Node` (`Group` /
  `Case`). A group inside the tree is addressed by a path of child indices. `At` and
  `Replace` read and rewrite the group at a path. `Grows` is the append-only
  relation between an old tree and a new one.
- `Registration` (registration.dfy): the global `suite` and the cursor `currentSpec`
  are the fields of class `Registry`. The cursor is a path, so the group `describe`
  attaches is really in the tree while its builder runs. Its methods `Describe`,
  `Before`, `Test` and `After` update the tree in place. A builder callback is the
  list of registration calls it makes (`Stmt`). `Throw` marks the point where the
  callback throws. The functions `StmtEffect` / `ExecEffect` state what the calls
  do, and every method is proved equal to them. `Build` / `Apply` build the same
  tree without a cursor.
- `Semantics` (semantics.dfy): a run as a trace of events. `HookRun(h)` is a hook
  invoked. `Dispatch(name, body)` is a test handed to `Deno.test`. The set `fails`
  says which events throw, and an event that throws is still recorded.
  `AllOutcome`, `TestOutcome`, `TestsOutcome` and `SpecTrace` follow `_runAll`,
  `_runTest`, `_runTests` and `_run`. A group's run is also restated as one flat
  list of steps that stops at the first step that throws.
- `Traversal` (traversal.dfy): the reference depth-first walk `Traverse` and the
  pre-order list `CasePaths` of test positions. These tie the run to the expected
  dispatch order.
- `Engine` (engine.dfy): `_runAll`, `_runTest`, `_runTests` and `_run` as methods
  with loops. Each is proved to compute the `Semantics` function of the same step.

In mod.ts:73-79 the after-hooks sit in the same `try` as the children. So a throw
from a child's dispatch also skips the group's after-hooks
(`Semantics.FailingDispatchSkipsRest`).

## Model

| member | source | states |
|---|---|---|
| Registration.Registry.constructor | mod.ts:15-21 | the root is an empty group named "suite" and the cursor points at it |
| Registration.Registry.Describe | mod.ts:22-36 | the in-place `describe` leaves exactly the tree, cursor and throw flag that `StmtEffect` gives for a `Describe` call, and keeps the cursor a valid group path |
| Registration.Registry.Invoke | mod.ts:34 | running a builder in place gives the `ExecEffect` state: its calls in order, stopping at the first that throws |
| Registration.Registry.Before | mod.ts:38-40 | the in-place `before` matches `StmtEffect` for a `Before` call |
| Registration.Registry.Test | mod.ts:42-44 | the in-place `test` (and `it`) matches `StmtEffect` for a `Test` call |
| Registration.Registry.After | mod.ts:46-48 | the in-place `after` matches `StmtEffect` for an `After` call |
| Registration.Registry.Run | mod.ts:82-84 | `run` gives the trace `SpecTrace` of the root with an empty name path. It has no `modifies`, so it leaves the tree unchanged and a second run with the same failures gives the same trace |
| Registration.StmtEffect | mod.ts:22-48 | a registration call only appends (`Grows`), leaves the cursor a group path at or below where it was, and puts it back unless the call threw |
| Registration.ExecEffect | mod.ts:34 | the same three facts for a whole builder |
| Registration.ExecStops | mod.ts:34 | once a builder has thrown, its later calls are not made |
| Registration.StmtConfined | mod.ts:32-47 | a registration call changes only the group under the cursor |
| Registration.RegistrationFrame | mod.ts:38-48 | after any builder, a group outside the cursor's group is unchanged, and a group above the cursor keeps its name, hooks and number of children |
| Registration.Attached | mod.ts:23-33 | before the builder runs, the new group is attached as an empty group at the next child index of the cursor's group |
| Registration.DescribeAppendsOneGroup | mod.ts:22-36 | `describe` appends exactly one group with the given name as the last child of the current group and changes nothing else. The cursor is restored when the builder returns. When the builder throws, the cursor is left inside the new group |
| Registration.AppendsOneElement | mod.ts:38-48 | `before`, `after` and `test` each append exactly one element to the before-hooks, after-hooks or children of the current group. They keep its name and other lists, never throw and leave the cursor where it was |
| Registration.RegistrationBuildsTree | mod.ts:22-48 | with no throw, registering through the cursor builds the same tree as applying the calls directly (`Build`), and the cursor ends where it started |
| Registration.ScenarioRegistration | mod.ts:15-48 | a concrete builder (group A with a before-hook, test t1, nested group B with test t2, an after-hook) registers the expected tree |
| Registration.ScenarioRun | mod.ts:72-84 | that tree runs as hook 1, "A > t1", "A > B > t2", hook 2. If the dispatch of "A > t1" throws, it runs only hook 1 and "A > t1", with no after-hook |
| Semantics.JoinNamesAppend | mod.ts:59 | joining two non-empty name lists puts exactly one `" > "` between their joins |
| Semantics.NestedName | mod.ts:58-65 | a name added to the path becomes one more `" > "`-separated segment, or the whole name at the root |
| Semantics.AllOutcome | mod.ts:52-56 | the hooks run in order. The run throws exactly when some hook fails, and then the last recorded event is the failing one. Otherwise every hook runs |
| Semantics.EmptySuiteRunsNothing | mod.ts:82-84 | running an empty suite emits no event |
| Semantics.FailingBeforeHookSkipsGroup | mod.ts:73-75 | if a before-hook of a group fails, the group's trace is a prefix of its before-hooks and dispatches nothing |
| Semantics.OneRegionPerGroup | mod.ts:72-79 | a group's run is its before-hooks, children and after-hooks as one step list, run in order up to and including the first step that throws |
| Semantics.NestedFailuresAreContained | mod.ts:62-79 | if none of a group's own hooks or own test dispatches fail, it runs all before-hooks, then every child, then all after-hooks, whatever fails inside nested groups |
| Semantics.FailingDispatchSkipsRest | mod.ts:72-79 | a failing test dispatch ends its group: the trace is the before-hooks and the children up to that test, and the after-hooks are skipped |
| Semantics.RunStepsStopsAtFirstThrow | mod.ts:73-79 | running a step list emits the events of the steps up to the first one that throws, and throws exactly when such a step exists |
| Traversal.RunWithoutFailures | mod.ts:62-76 | when no event of the walk fails, the run equals the depth-first walk: before-hooks, children in order, after-hooks |
| Traversal.CasePathsExact | mod.ts:62-69 | the pre-order list of test positions contains exactly the positions of tests in the tree |
| Traversal.CasePathsAscending | mod.ts:62-69 | that list is strictly increasing in lexicographic order, so it is pre-order and no test appears twice |
| Traversal.DispatchOrder | mod.ts:58-69 | the dispatches of the walk are, one for one and in order, the tests in pre-order. Each carries the names of its enclosing groups (root excluded) and its own name, joined by `" > "` |
| Engine.RunAll | mod.ts:52-56 | the loop over hooks computes `AllOutcome` |
| Engine.RunTest | mod.ts:58-60 | a test is dispatched exactly once, with its own body, under its own name at the root and otherwise under the joined enclosing names, `" > "` and its own name. The dispatch throws exactly when its event fails |
| Engine.RunTests | mod.ts:62-70 | the loop over children computes `TestsOutcome`. A nested group is run with its name added and never throws |
| Engine.RunSpec | mod.ts:72-80 | the guarded group run computes `SpecTrace` |
| Engine.AllOutcomeStops | mod.ts:53-55 | once a hook has thrown, the hooks after it do not change the outcome |
| Engine.TestsOutcomeStops | mod.ts:63-69 | once a child has thrown, the children after it do not change the outcome |

## Left out

- `Deno.test` (mod.ts:59) is a call into the host framework. It appears only as a `Dispatch` event that may throw according to `fails`. The test body itself runs later in the host and is not modelled.
- `console.error` (mod.ts:78) is output. The catch is modelled as swallowing the failure.
- Promises and `await` are modelled as plain sequencing: every `describe` is treated as awaited, as are the calls inside a builder. Calls that are not awaited could interleave. Two consecutive top-level `describe` calls without `await` are an example: the cursor is still inside the first group when the second runs (mod.ts:31-35), so the second group nests inside the first. Such interleavings are not modelled, nor is a builder that registers after an await of its own.
- Hook and test bodies are user code. They are represented by numeric ids, with the set `fails` deciding which events throw. The same hook id with the same `fails` therefore fails every time it runs.
- The exception value is not modelled, only the fact that something threw.
- The unused `beforeAll`/`afterAll` fields (mod.ts:26, 28) and the unused `names` parameter of `_runAll` (mod.ts:52) carry no behaviour and are left out.
- `it` (mod.ts:50) is the same function as `test`, so it is modelled by `Registry.Test`.
- Registration after `run` has started is not modelled: `Registry.Run` takes the finished tree.
