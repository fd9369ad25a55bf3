/**
 * Reference definitions of a run without failures: `Traverse` lists the events a
 * depth-first walk emits (hooks bracketing each group, children in insertion
 * order), and `CasePaths` lists the position of every test in pre-order.
 *
 * The lemmas tie `SpecTrace` to them: without failures the run is the traversal;
 * its dispatches are exactly one per test, in pre-order, each under the names of
 * its enclosing groups followed by its own.
 */
module Traversal {
  import opened Tree
  import opened Semantics

  /** The run of a group when nothing throws. */
  function Traverse(g: Node, names: seq<string>): seq<Event>
    requires g.Group?
    decreases g, 1
  {
    HookEvents(g.before) + TraverseUpTo(g, |g.children|, names) + HookEvents(g.after)
  }

  /** The runs of the first `k` children of `g`, one after another. */
  function TraverseUpTo(g: Node, k: nat, names: seq<string>): seq<Event>
    requires g.Group? && k <= |g.children|
    decreases g, 0, k
  {
    if k == 0 then [] else TraverseUpTo(g, k - 1, names) + Visit(g.children[k - 1], names)
  }

  /** The run of one child inside a group whose names are `names`. */
  function Visit(c: Node, names: seq<string>): seq<Event>
    decreases c, 2
  {
    match c
    case Group(name, _, _, _) => Traverse(c, names + [name])
    case Case(name, body) => [Dispatch(JoinNames(names + [name]), body)]
  }

  /** No event of `trace` throws. */
  predicate Clean(trace: seq<Event>, fails: set<Event>)
  {
    forall e :: e in trace ==> e !in fails
  }

  /** When none of the events the walk would emit throws, the run is exactly that walk. */
  lemma {:induction false} RunWithoutFailures(g: Node, names: seq<string>, fails: set<Event>)
    requires g.Group? && Clean(Traverse(g, names), fails)
    ensures SpecTrace(g, names, fails) == Traverse(g, names)
    decreases g, 1
  {
    var n := |g.children|;
    assert forall j :: 0 <= j < |g.before| ==> HookEvents(g.before)[j] == HookRun(g.before[j]);
    assert forall j :: 0 <= j < |g.after| ==> HookEvents(g.after)[j] == HookRun(g.after[j]);
    assert g.children[..n] == g.children;
    ChildrenWithoutFailures(g, n, names, fails);
  }

  lemma {:induction false} ChildrenWithoutFailures(g: Node, k: nat, names: seq<string>, fails: set<Event>)
    requires g.Group? && k <= |g.children| && Clean(TraverseUpTo(g, k, names), fails)
    ensures TestsOutcome(g.children[..k], names, fails) == Outcome(TraverseUpTo(g, k, names), false)
    decreases g, 0, k
  {
    if k > 0 {
      var c := g.children[k - 1];
      assert g.children[..k][..k - 1] == g.children[..k - 1];
      ChildrenWithoutFailures(g, k - 1, names, fails);
      if c.Group? {
        RunWithoutFailures(c, names + [c.name], fails);
      } else {
        assert Visit(c, names)[0] in TraverseUpTo(g, k, names);
      }
    }
  }

  /** The dispatch events of a trace, in order. */
  function Dispatches(trace: seq<Event>): seq<Event>
  {
    if trace == [] then []
    else
      var last := trace[|trace| - 1];
      Dispatches(trace[..|trace| - 1]) + (if last.Dispatch? then [last] else [])
  }

  lemma {:induction false} DispatchesAppend(a: seq<Event>, b: seq<Event>)
    ensures Dispatches(a + b) == Dispatches(a) + Dispatches(b)
    decreases |b|
  {
    if b == [] {
      assert a + b == a;
    } else {
      assert (a + b)[..|a + b| - 1] == a + b[..|b| - 1];
      DispatchesAppend(a, b[..|b| - 1]);
    }
  }

  lemma {:induction false} HookEventsDispatchNothing(hooks: seq<HookId>)
    ensures Dispatches(HookEvents(hooks)) == []
    decreases |hooks|
  {
    if hooks != [] {
      assert HookEvents(hooks)[..|hooks| - 1] == HookEvents(hooks[..|hooks| - 1]);
      HookEventsDispatchNothing(hooks[..|hooks| - 1]);
    }
  }

  // ---------------------------------------------------------------------------
  // Positions of tests

  /** `p` leads from `n` through groups to a test. */
  predicate IsCasePath(n: Node, p: seq<nat>)
    decreases p
  {
    if p == [] then n.Case?
    else n.Group? && p[0] < |n.children| && IsCasePath(n.children[p[0]], p[1..])
  }

  /** The test at `p`. */
  function CaseAt(n: Node, p: seq<nat>): (c: Node)
    requires IsCasePath(n, p)
    ensures c.Case?
    decreases p
  {
    if p == [] then n else CaseAt(n.children[p[0]], p[1..])
  }

  /** The names of the nodes along `p` below `n`, ending with the test's own name. */
  function Labels(n: Node, p: seq<nat>): seq<string>
    requires IsCasePath(n, p)
    decreases p
  {
    if p == [] then [] else [n.children[p[0]].name] + Labels(n.children[p[0]], p[1..])
  }

  /** The dispatch the test at `p` should receive in a group whose names are `names`. */
  function LeafEvent(g: Node, names: seq<string>, p: seq<nat>): Event
    requires IsCasePath(g, p)
  {
    Dispatch(JoinNames(names + Labels(g, p)), CaseAt(g, p).body)
  }

  /** `ps` with index `i` put in front of every path. */
  function Under(i: nat, ps: seq<seq<nat>>): seq<seq<nat>>
  {
    seq(|ps|, k requires 0 <= k < |ps| => [i] + ps[k])
  }

  /** The positions of all tests under `n`, in depth-first pre-order. */
  function CasePaths(n: Node): seq<seq<nat>>
    decreases n, 1
  {
    match n
    case Case(_, _) => [[]]
    case Group(_, _, children, _) => CasePathsUpTo(n, |children|)
  }

  /** The positions of the tests under the first `k` children of `g`. */
  function CasePathsUpTo(g: Node, k: nat): seq<seq<nat>>
    requires g.Group? && k <= |g.children|
    decreases g, 0, k
  {
    if k == 0 then [] else CasePathsUpTo(g, k - 1) + Under(k - 1, CasePaths(g.children[k - 1]))
  }

  /** Strict lexicographic order on positions that are not prefixes of each other. */
  predicate LexBefore(a: seq<nat>, b: seq<nat>)
    decreases |a|
  {
    |a| > 0 && |b| > 0 && (a[0] < b[0] || (a[0] == b[0] && LexBefore(a[1..], b[1..])))
  }

  predicate Ascending(ps: seq<seq<nat>>)
  {
    forall i, j :: 0 <= i < j < |ps| ==> LexBefore(ps[i], ps[j])
  }

  lemma UnderMembers(i: nat, ps: seq<seq<nat>>, x: seq<nat>)
    ensures x in Under(i, ps) <==> |x| > 0 && x[0] == i && x[1..] in ps
  {
    if x in Under(i, ps) {
      var k :| 0 <= k < |ps| && Under(i, ps)[k] == x;
      assert x[1..] == ps[k];
    }
    if |x| > 0 && x[0] == i && x[1..] in ps {
      var k :| 0 <= k < |ps| && ps[k] == x[1..];
      assert Under(i, ps)[k] == x;
    }
  }

  lemma UnderAscending(i: nat, ps: seq<seq<nat>>)
    requires Ascending(ps)
    ensures Ascending(Under(i, ps))
  {
    forall a, b | 0 <= a < b < |ps| ensures LexBefore(Under(i, ps)[a], Under(i, ps)[b]) {
      assert Under(i, ps)[a][1..] == ps[a] && Under(i, ps)[b][1..] == ps[b];
    }
  }

  lemma {:induction false} CasePathsUpToMembers(g: Node, k: nat, x: seq<nat>)
    requires g.Group? && k <= |g.children|
    ensures x in CasePathsUpTo(g, k) <==> |x| > 0 && x[0] < k && x[1..] in CasePaths(g.children[x[0]])
    decreases k
  {
    if k > 0 {
      CasePathsUpToMembers(g, k - 1, x);
      UnderMembers(k - 1, CasePaths(g.children[k - 1]), x);
    }
  }

  /** Every position listed is a test, and every test is listed. */
  lemma {:induction false} CasePathsExact(n: Node, p: seq<nat>)
    ensures p in CasePaths(n) <==> IsCasePath(n, p)
    decreases p
  {
    if n.Group? {
      CasePathsUpToMembers(n, |n.children|, p);
      if p != [] && p[0] < |n.children| {
        CasePathsExact(n.children[p[0]], p[1..]);
      }
    }
  }

  /** Pre-order is lexicographic order of positions; in particular no test is listed twice. */
  lemma {:induction false} CasePathsAscending(n: Node)
    ensures Ascending(CasePaths(n))
    decreases n, 1
  {
    if n.Group? {
      CasePathsUpToAscending(n, |n.children|);
    }
  }

  lemma {:induction false} CasePathsUpToAscending(g: Node, k: nat)
    requires g.Group? && k <= |g.children|
    ensures Ascending(CasePathsUpTo(g, k))
    decreases g, 0, k
  {
    if k > 0 {
      var prior := CasePathsUpTo(g, k - 1);
      var block := Under(k - 1, CasePaths(g.children[k - 1]));
      CasePathsUpToAscending(g, k - 1);
      CasePathsAscending(g.children[k - 1]);
      UnderAscending(k - 1, CasePaths(g.children[k - 1]));
      var all := prior + block;
      forall a, b | 0 <= a < b < |all| ensures LexBefore(all[a], all[b]) {
        if a < |prior| && b >= |prior| {
          CasePathsUpToMembers(g, k - 1, all[a]);
          UnderMembers(k - 1, CasePaths(g.children[k - 1]), all[b]);
        } else if a >= |prior| {
          assert all[a] == block[a - |prior|] && all[b] == block[b - |prior|];
        }
      }
    }
  }

  /** A test below child `i`, seen from the parent: one more name, one more index. */
  lemma LeafEventUnder(g: Node, i: nat, names: seq<string>, q: seq<nat>)
    requires g.Group? && i < |g.children| && IsCasePath(g.children[i], q)
    ensures IsCasePath(g, [i] + q)
    ensures LeafEvent(g, names, [i] + q) == LeafEvent(g.children[i], names + [g.children[i].name], q)
  {
    var p := [i] + q;
    assert p[0] == i && p[1..] == q;
    assert names + Labels(g, p) == names + [g.children[i].name] + Labels(g.children[i], q);
  }

  /**
   * Dispatch order and leaf names: the dispatches of the walk are, in order, one per
   * test position of `CasePaths(g)`, each carrying the test's body and the names along
   * its position (the group's own prefix `names`, every enclosing group, the test)
   * joined by the separator.
   */
  lemma {:induction false} DispatchOrder(g: Node, names: seq<string>)
    requires g.Group?
    ensures |Dispatches(Traverse(g, names))| == |CasePaths(g)|
    ensures forall j :: 0 <= j < |CasePaths(g)| ==>
      IsCasePath(g, CasePaths(g)[j]) && Dispatches(Traverse(g, names))[j] == LeafEvent(g, names, CasePaths(g)[j])
    decreases g, 1
  {
    DispatchOrderUpTo(g, |g.children|, names);
    DispatchesAppend(HookEvents(g.before) + TraverseUpTo(g, |g.children|, names), HookEvents(g.after));
    DispatchesAppend(HookEvents(g.before), TraverseUpTo(g, |g.children|, names));
    HookEventsDispatchNothing(g.before);
    HookEventsDispatchNothing(g.after);
  }

  lemma {:induction false} DispatchOrderUpTo(g: Node, k: nat, names: seq<string>)
    requires g.Group? && k <= |g.children|
    ensures |Dispatches(TraverseUpTo(g, k, names))| == |CasePathsUpTo(g, k)|
    ensures forall j :: 0 <= j < |CasePathsUpTo(g, k)| ==>
      IsCasePath(g, CasePathsUpTo(g, k)[j])
      && Dispatches(TraverseUpTo(g, k, names))[j] == LeafEvent(g, names, CasePathsUpTo(g, k)[j])
    decreases g, 0, k
  {
    if k > 0 {
      var c := g.children[k - 1];
      var prior := CasePathsUpTo(g, k - 1);
      var block := Under(k - 1, CasePaths(c));
      DispatchOrderUpTo(g, k - 1, names);
      DispatchesAppend(TraverseUpTo(g, k - 1, names), Visit(c, names));
      var before := Dispatches(TraverseUpTo(g, k - 1, names));
      var here := Dispatches(Visit(c, names));
      assert Dispatches(TraverseUpTo(g, k, names)) == before + here;
      if c.Group? {
        DispatchOrder(c, names + [c.name]);
        forall j | 0 <= j < |block| ensures IsCasePath(g, block[j]) && here[j] == LeafEvent(g, names, block[j]) {
          LeafEventUnder(g, k - 1, names, CasePaths(c)[j]);
        }
      } else {
        assert here == Visit(c, names) by {
          assert Visit(c, names)[..0] == [];
        }
        LeafEventUnder(g, k - 1, names, []);
        assert block == [[k - 1] + []];
        assert names + [c.name] + Labels(c, []) == names + [c.name];
        assert here[0] == LeafEvent(g, names, block[0]);
      }
      assert |here| == |block|;
      forall j | 0 <= j < |prior + block|
        ensures IsCasePath(g, (prior + block)[j])
             && (before + here)[j] == LeafEvent(g, names, (prior + block)[j])
      {
        if j >= |prior| {
          assert (prior + block)[j] == block[j - |prior|];
        }
      }
    }
  }
}
