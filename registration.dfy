/**
 * Registration in mod.ts: a root group `suite` and a cursor `currentSpec` naming
 * the group that `describe`, `before`, `test` and `after` add to.  The cursor is a
 * path of child indices from the root.
 *
 * A builder callback passed to `describe` is modelled by the registration calls
 * it makes, in order; `Throw` stands for the callback throwing at that point.
 * Nested `describe` calls are awaited, so an exception in a nested builder
 * propagates out of every enclosing builder.
 *
 * `StmtEffect` and `ExecEffect` state what the calls do to the tree and cursor;
 * the class `Registry` does it in place and is proved to agree with them.
 */
module Registration {
  import opened Tree
  import opened Semantics
  import Engine

  datatype Stmt =
    | Describe(name: string, fn: seq<Stmt>)
    | Before(hook: HookId)
    | Test(name: string, body: BodyId)
    | After(hook: HookId)
    | Throw

  /** The tree and cursor after some registration calls, and whether they threw. */
  datatype Registered = Registered(suite: Node, cursor: seq<nat>, threw: bool)

  /**
   * The effect of one registration call made with the cursor at `c`.  Calls only
   * append, the cursor stays inside the group it started at, and it is back at
   * that group unless the call threw.
   */
  function StmtEffect(t: Node, c: seq<nat>, s: Stmt): (r: Registered)
    requires IsGroupPath(t, c)
    ensures IsGroupPath(r.suite, r.cursor) && c <= r.cursor
    ensures Grows(t, r.suite)
    ensures !r.threw ==> r.cursor == c
    decreases s
  {
    var g := At(t, c);
    match s
    case Describe(name, fn) =>
      var k := |g.children|;
      var t1 := Attached(t, c, name);
      var r := ExecEffect(t1, c + [k], fn);
      GrowsTrans(t, t1, r.suite);
      GrowsKeepsPath(t, r.suite, c);
      assert c <= c + [k];
      if r.threw then r else r.(cursor := c)
    case Before(h) =>
      AppendsGrow(g, WithBefore(g, h));
      GrowsReplace(t, c, WithBefore(g, h));
      ReplaceAt(t, c, WithBefore(g, h));
      Registered(Replace(t, c, WithBefore(g, h)), c, false)
    case Test(name, body) =>
      AppendsGrow(g, WithChild(g, Case(name, body)));
      GrowsReplace(t, c, WithChild(g, Case(name, body)));
      ReplaceAt(t, c, WithChild(g, Case(name, body)));
      Registered(Replace(t, c, WithChild(g, Case(name, body))), c, false)
    case After(h) =>
      AppendsGrow(g, WithAfter(g, h));
      GrowsReplace(t, c, WithAfter(g, h));
      ReplaceAt(t, c, WithAfter(g, h));
      Registered(Replace(t, c, WithAfter(g, h)), c, false)
    case Throw =>
      GrowsRefl(t);
      Registered(t, c, true)
  }

  /** The effect of a builder: its calls in order, up to the first that throws. */
  function ExecEffect(t: Node, c: seq<nat>, stmts: seq<Stmt>): (r: Registered)
    requires IsGroupPath(t, c)
    ensures IsGroupPath(r.suite, r.cursor) && c <= r.cursor
    ensures Grows(t, r.suite)
    ensures !r.threw ==> r.cursor == c
    decreases stmts
  {
    if stmts == [] then
      GrowsRefl(t);
      Registered(t, c, false)
    else
      var prior := ExecEffect(t, c, stmts[..|stmts| - 1]);
      if prior.threw then prior
      else
        var r := StmtEffect(prior.suite, prior.cursor, stmts[|stmts| - 1]);
        GrowsTrans(t, prior.suite, r.suite);
        r
  }

  /** A registration call changes nothing outside the group under the cursor. */
  lemma {:induction false} StmtConfined(t: Node, c: seq<nat>, s: Stmt)
    requires IsGroupPath(t, c)
    ensures IsGroupPath(StmtEffect(t, c, s).suite, c)
    ensures StmtEffect(t, c, s).suite == Replace(t, c, At(StmtEffect(t, c, s).suite, c))
    decreases s
  {
    var r := StmtEffect(t, c, s);
    GrowsKeepsPath(t, r.suite, c);
    var g := At(t, c);
    match s
    case Describe(name, fn) =>
      var k := |g.children|;
      var w := WithChild(g, EmptyGroup(name));
      var t1 := Replace(t, c, w);
      ReplaceAt(t, c, w);
      AtConcat(t1, c, [k]);
      var r1 := ExecEffect(t1, c + [k], fn);
      ExecConfined(t1, c + [k], fn);
      var z := At(r1.suite, c + [k]);
      ReplaceConcat(t1, c, [k], z);
      var v := Replace(w, [k], z);
      ReplaceTwice(t, c, w, v);
      ReplaceAt(t, c, v);
    case Before(h) =>
      ReplaceAt(t, c, WithBefore(g, h));
    case Test(name, body) =>
      ReplaceAt(t, c, WithChild(g, Case(name, body)));
    case After(h) =>
      ReplaceAt(t, c, WithAfter(g, h));
    case Throw =>
      ReplaceSelf(t, c);
  }

  /** A builder changes nothing outside the group under the cursor. */
  lemma {:induction false} ExecConfined(t: Node, c: seq<nat>, stmts: seq<Stmt>)
    requires IsGroupPath(t, c)
    ensures IsGroupPath(ExecEffect(t, c, stmts).suite, c)
    ensures ExecEffect(t, c, stmts).suite == Replace(t, c, At(ExecEffect(t, c, stmts).suite, c))
    decreases stmts
  {
    var r := ExecEffect(t, c, stmts);
    GrowsKeepsPath(t, r.suite, c);
    if stmts == [] {
      ReplaceSelf(t, c);
    } else {
      var prior := ExecEffect(t, c, stmts[..|stmts| - 1]);
      ExecConfined(t, c, stmts[..|stmts| - 1]);
      if !prior.threw {
        StmtConfined(prior.suite, c, stmts[|stmts| - 1]);
        ReplaceTwice(t, c, At(prior.suite, c), At(r.suite, c));
      }
    }
  }

  /**
   * Registration is local: a group that does not lie inside the cursor's group is
   * left exactly as it was, and a group above the cursor keeps its name, hooks and
   * number of children.
   */
  lemma RegistrationFrame(t: Node, c: seq<nat>, stmts: seq<Stmt>, q: seq<nat>)
    requires IsGroupPath(t, c) && IsGroupPath(t, q) && !(c <= q)
    ensures var r := ExecEffect(t, c, stmts);
      && IsGroupPath(r.suite, q)
      && (q <= c ==> SameHead(At(r.suite, q), At(t, q)))
      && (!(q <= c) ==> At(r.suite, q) == At(t, q))
  {
    var r := ExecEffect(t, c, stmts);
    ExecConfined(t, c, stmts);
    ReplaceFrame(t, c, At(r.suite, c), q);
  }

  /** The group `describe` attaches before running its builder. */
  function Attached(t: Node, c: seq<nat>, name: string): (t1: Node)
    requires IsGroupPath(t, c)
    ensures Grows(t, t1)
    ensures IsGroupPath(t1, c + [|At(t, c).children|])
    ensures At(t1, c + [|At(t, c).children|]) == EmptyGroup(name)
  {
    var w := WithChild(At(t, c), EmptyGroup(name));
    AppendsGrow(At(t, c), w);
    GrowsReplace(t, c, w);
    ReplaceAt(t, c, w);
    AtConcat(Replace(t, c, w), c, [|At(t, c).children|]);
    Replace(t, c, w)
  }

  lemma DescribeUnfold(t: Node, c: seq<nat>, name: string, fn: seq<Stmt>)
    requires IsGroupPath(t, c)
    ensures var r := StmtEffect(t, c, Stmt.Describe(name, fn));
      var r1 := ExecEffect(Attached(t, c, name), c + [|At(t, c).children|], fn);
      r.suite == r1.suite && r.threw == r1.threw && (r.threw ==> r.cursor == r1.cursor)
  {
  }

  /**
   * `describe` appends exactly one new group, named `name`, as the last child of
   * the group under the cursor, and changes nothing else; everything the builder
   * registers lands inside that new group.  If the builder throws, the group stays
   * attached and the cursor is left inside it.
   */
  lemma DescribeAppendsOneGroup(t: Node, c: seq<nat>, name: string, fn: seq<Stmt>)
    requires IsGroupPath(t, c)
    ensures var g := At(t, c);
      var k := |g.children|;
      var r := StmtEffect(t, c, Stmt.Describe(name, fn));
      && IsGroupPath(r.suite, c + [k])
      && At(r.suite, c + [k]).name == name
      && r.suite == Replace(t, c, WithChild(g, At(r.suite, c + [k])))
      && (r.threw ==> c + [k] <= r.cursor)
      && (!r.threw ==> r.cursor == c)
  {
    var g := At(t, c);
    var k := |g.children|;
    var t1 := Attached(t, c, name);
    var r1 := ExecEffect(t1, c + [k], fn);
    DescribeUnfold(t, c, name, fn);
    AttachedThenReplaced(t, c, name, r1.suite, fn);
  }

  lemma AttachedThenReplaced(t: Node, c: seq<nat>, name: string, s: Node, fn: seq<Stmt>)
    requires IsGroupPath(t, c)
    requires s == ExecEffect(Attached(t, c, name), c + [|At(t, c).children|], fn).suite
    ensures IsGroupPath(s, c + [|At(t, c).children|])
    ensures At(s, c + [|At(t, c).children|]).name == name
    ensures s == Replace(t, c, WithChild(At(t, c), At(s, c + [|At(t, c).children|])))
  {
    var g := At(t, c);
    var k := |g.children|;
    var w := WithChild(g, EmptyGroup(name));
    var t1 := Attached(t, c, name);
    ExecConfined(t1, c + [k], fn);
    GrowsKeepsPath(t1, s, c + [k]);
    var z := At(s, c + [k]);
    ReplaceAt(t, c, w);
    ReplaceConcat(t1, c, [k], z);
    var v := Replace(w, [k], z);
    ReplaceTwice(t, c, w, v);
    assert v == WithChild(g, z);
  }

  /**
   * `before`, `after` and `test` each append exactly one element to the before-hooks,
   * after-hooks or children of the group under the cursor, never throw and leave
   * the cursor where it was.
   */
  lemma AppendsOneElement(t: Node, c: seq<nat>, s: Stmt)
    requires IsGroupPath(t, c) && (s.Before? || s.After? || s.Test?)
    ensures var g := At(t, c);
      var r := StmtEffect(t, c, s);
      && !r.threw && r.cursor == c
      && IsGroupPath(r.suite, c)
      && var n := At(r.suite, c);
      && n.name == g.name
      && n.before == (if s.Before? then g.before + [s.hook] else g.before)
      && n.after == (if s.After? then g.after + [s.hook] else g.after)
      && n.children == (if s.Test? then g.children + [Case(s.name, s.body)] else g.children)
  {
    StmtConfined(t, c, s);
  }

  // ---------------------------------------------------------------------------
  // The same registrations written without a cursor

  /** The builder contains no `Throw`, at any depth. */
  predicate NoThrow(stmts: seq<Stmt>)
    decreases stmts
  {
    forall i :: 0 <= i < |stmts| ==>
      stmts[i] != Throw && (stmts[i].Describe? ==> NoThrow(stmts[i].fn))
  }

  /** Apply the calls directly to the group they register into. */
  function Build(g: Node, stmts: seq<Stmt>): (b: Node)
    requires g.Group?
    ensures b.Group?
    decreases stmts
  {
    if stmts == [] then g else Apply(Build(g, stmts[..|stmts| - 1]), stmts[|stmts| - 1])
  }

  function Apply(g: Node, s: Stmt): (b: Node)
    requires g.Group?
    ensures b.Group?
    decreases s
  {
    match s
    case Describe(name, fn) => WithChild(g, Build(EmptyGroup(name), fn))
    case Before(h) => WithBefore(g, h)
    case Test(name, body) => WithChild(g, Case(name, body))
    case After(h) => WithAfter(g, h)
    case Throw => g
  }

  /**
   * With a builder that does not throw, registering through the cursor builds the
   * same tree as applying the calls to the current group directly, and the cursor
   * ends where it started.
   */
  lemma {:induction false} RegistrationBuildsTree(t: Node, c: seq<nat>, stmts: seq<Stmt>)
    requires IsGroupPath(t, c) && NoThrow(stmts)
    ensures ExecEffect(t, c, stmts) == Registered(Replace(t, c, Build(At(t, c), stmts)), c, false)
    decreases stmts
  {
    if stmts == [] {
      ReplaceSelf(t, c);
    } else {
      var n := |stmts|;
      var prefix := stmts[..n - 1];
      assert forall i :: 0 <= i < n - 1 ==> prefix[i] == stmts[i];
      RegistrationBuildsTree(t, c, prefix);
      var b := Build(At(t, c), prefix);
      var prior := ExecEffect(t, c, prefix);
      ReplaceAt(t, c, b);
      StmtBuildsTree(prior.suite, c, stmts[n - 1]);
      ReplaceTwice(t, c, b, Apply(b, stmts[n - 1]));
    }
  }

  lemma {:induction false} StmtBuildsTree(t: Node, c: seq<nat>, s: Stmt)
    requires IsGroupPath(t, c) && s != Throw && (s.Describe? ==> NoThrow(s.fn))
    ensures StmtEffect(t, c, s) == Registered(Replace(t, c, Apply(At(t, c), s)), c, false)
    decreases s
  {
    if s.Describe? {
      var g := At(t, c);
      var k := |g.children|;
      var w := WithChild(g, EmptyGroup(s.name));
      var t1 := Replace(t, c, w);
      ReplaceAt(t, c, w);
      AtConcat(t1, c, [k]);
      RegistrationBuildsTree(t1, c + [k], s.fn);
      var x := Build(EmptyGroup(s.name), s.fn);
      ReplaceConcat(t1, c, [k], x);
      ReplaceTwice(t, c, w, Replace(w, [k], x));
      assert Replace(w, [k], x) == WithChild(g, x);
    }
  }

  /** The builder calls of the scenario below. */
  function ScenarioCalls(): seq<Stmt>
  {
    [Stmt.Describe("A", [Stmt.Before(1), Stmt.Test("t1", 1),
                         Stmt.Describe("B", [Stmt.Test("t2", 2)]), Stmt.After(2)])]
  }

  /** The tree those calls build. */
  function ScenarioTree(): Node
  {
    Group("suite", [], [Group("A", [1], [Case("t1", 1), Group("B", [], [Case("t2", 2)], [])], [2])], [])
  }

  lemma ScenarioRegistration()
    ensures ExecEffect(EmptyGroup("suite"), [], ScenarioCalls()) == Registered(ScenarioTree(), [], false)
  {
    var built := ScenarioCalls();
    ScenarioNoThrow();
    RegistrationBuildsTree(EmptyGroup("suite"), [], built);
    ScenarioBuild();
    assert built[..0] == [];
  }

  lemma ScenarioNoThrow()
    ensures NoThrow(ScenarioCalls())
  {
    var built := ScenarioCalls();
    var body := built[0].fn;
    assert NoThrow(body[2].fn);
    assert NoThrow(body);
  }

  lemma ScenarioBuild()
    ensures Build(EmptyGroup("A"), ScenarioCalls()[0].fn)
         == Group("A", [1], [Case("t1", 1), Group("B", [], [Case("t2", 2)], [])], [2])
  {
    var body := ScenarioCalls()[0].fn;
    var b := Group("B", [], [Case("t2", 2)], []);
    assert Build(EmptyGroup("B"), body[2].fn) == b by {
      assert body[2].fn[..0] == [];
    }
    var e := EmptyGroup("A");
    assert body[..1][..0] == [];
    assert Build(e, body[..1]) == Group("A", [1], [], []);
    assert body[..2][..1] == body[..1];
    assert Build(e, body[..2]) == Group("A", [1], [Case("t1", 1)], []);
    assert body[..3][..2] == body[..2];
    assert Build(e, body[..3]) == Group("A", [1], [Case("t1", 1), b], []);
    assert body[..3] == body[..|body| - 1];
  }

  /** Group B of the scenario dispatches its one test in either case. */
  lemma ScenarioInnerGroup(fails: set<Event>)
    requires fails == {} || fails == {Dispatch("A > t1", 1)}
    ensures SpecTrace(Group("B", [], [Case("t2", 2)], []), ["A", "B"], fails) == [Dispatch("A > B > t2", 2)]
  {
    assert JoinNames(["A", "B", "t2"]) == "A > B > t2";
    assert ["A", "B"] + ["t2"] == ["A", "B", "t2"];
    assert |"A > B > t2"| != |"A > t1"|;
    assert Dispatch("A > B > t2", 2) !in fails;
    assert ChildOutcome(Case("t2", 2), ["A", "B"], fails) == Outcome([Dispatch("A > B > t2", 2)], false);
    assert [Case("t2", 2)][..0] == [];
    assert TestsOutcome([Case("t2", 2)], ["A", "B"], fails) == Outcome([Dispatch("A > B > t2", 2)], false);
  }

  /** The children of group A: t1, then group B unless t1 failed. */
  lemma ScenarioChildren(fails: set<Event>)
    requires fails == {} || fails == {Dispatch("A > t1", 1)}
    ensures fails == {} ==>
      TestsOutcome([Case("t1", 1), Group("B", [], [Case("t2", 2)], [])], ["A"], fails)
      == Outcome([Dispatch("A > t1", 1), Dispatch("A > B > t2", 2)], false)
    ensures fails != {} ==>
      TestsOutcome([Case("t1", 1), Group("B", [], [Case("t2", 2)], [])], ["A"], fails)
      == Outcome([Dispatch("A > t1", 1)], true)
  {
    var b := Group("B", [], [Case("t2", 2)], []);
    var kids := [Case("t1", 1), b];
    ScenarioInnerGroup(fails);
    assert JoinNames(["A", "t1"]) == "A > t1";
    assert kids[..1] == [Case("t1", 1)] && kids[..1][..0] == [];
    assert ["A"] + ["t1"] == ["A", "t1"];
    assert ChildOutcome(Case("t1", 1), ["A"], fails) == Outcome([Dispatch("A > t1", 1)], fails != {});
    assert [Case("t1", 1)][..0] == [];
    assert TestsOutcome(kids[..1], ["A"], fails) == Outcome([Dispatch("A > t1", 1)], fails != {});
    assert ["A"] + ["B"] == ["A", "B"];
    assert ChildOutcome(b, ["A"], fails) == Outcome([Dispatch("A > B > t2", 2)], false);
  }

  lemma ScenarioRun(fails: set<Event>)
    requires fails == {} || fails == {Dispatch("A > t1", 1)}
    ensures fails == {} ==>
      SpecTrace(ScenarioTree(), [], fails) == [HookRun(1), Dispatch("A > t1", 1), Dispatch("A > B > t2", 2), HookRun(2)]
    ensures fails != {} ==>
      SpecTrace(ScenarioTree(), [], fails) == [HookRun(1), Dispatch("A > t1", 1)]
  {
    var b := Group("B", [], [Case("t2", 2)], []);
    var a := Group("A", [1], [Case("t1", 1), b], [2]);
    ScenarioChildren(fails);
    assert [1][..0] == [] && [2][..0] == [];
    assert AllOutcome([1], fails) == Outcome([HookRun(1)], false);
    assert AllOutcome([2], fails) == Outcome([HookRun(2)], false);
    if fails == {} {
      assert SpecTrace(a, ["A"], fails) == [HookRun(1), Dispatch("A > t1", 1), Dispatch("A > B > t2", 2), HookRun(2)];
    } else {
      assert SpecTrace(a, ["A"], fails) == [HookRun(1), Dispatch("A > t1", 1)];
    }
    assert [a][..0] == [] && [] + ["A"] == ["A"];
    assert TestsOutcome([a], [], fails) == Outcome(SpecTrace(a, ["A"], fails), false);
  }

  /** Once a prefix of the builder has thrown, the calls after it are not made. */
  lemma {:induction false} ExecStops(t: Node, c: seq<nat>, stmts: seq<Stmt>, m: nat)
    requires IsGroupPath(t, c) && m <= |stmts| && ExecEffect(t, c, stmts[..m]).threw
    ensures ExecEffect(t, c, stmts) == ExecEffect(t, c, stmts[..m])
    decreases |stmts| - m
  {
    if m < |stmts| {
      var n := |stmts|;
      assert stmts[..n - 1][..m] == stmts[..m];
      ExecStops(t, c, stmts[..n - 1], m);
    } else {
      assert stmts[..m] == stmts;
    }
  }

  /**
   * The registration state of mod.ts: the root `suite` and the cursor
   * `currentSpec`, updated in place by the registration functions.
   */
  class Registry {
    var suite: Node
    var cursor: seq<nat>

    ghost predicate Valid()
      reads this
    {
      IsGroupPath(suite, cursor) && suite.name == "suite"
    }

    /** The initial state: an empty root group named "suite", the cursor at the root. */
    constructor ()
      ensures Valid() && suite == EmptyGroup("suite") && cursor == []
    {
      suite := EmptyGroup("suite");
      cursor := [];
    }

    /** `describe`: attach a new group, move the cursor into it, run the builder, move back. */
    method Describe(name: string, fn: seq<Stmt>) returns (threw: bool)
      requires Valid()
      modifies this
      ensures Valid()
      ensures Registered(suite, cursor, threw) == StmtEffect(old(suite), old(cursor), Stmt.Describe(name, fn))
      decreases fn, 1
    {
      ghost var r := StmtEffect(suite, cursor, Stmt.Describe(name, fn));
      var last := cursor;
      var k := |At(suite, cursor).children|;
      suite := Attached(suite, cursor, name);
      cursor := cursor + [k];
      threw := Invoke(fn);
      assert suite == r.suite && threw == r.threw;
      if threw {
        return;
      }
      cursor := last;
    }

    /** The builder callback: its registration calls in order, stopping at a throw. */
    method Invoke(fn: seq<Stmt>) returns (threw: bool)
      requires Valid()
      modifies this
      ensures Valid()
      ensures Registered(suite, cursor, threw) == ExecEffect(old(suite), old(cursor), fn)
      decreases fn, 0
    {
      var i := 0;
      while i < |fn|
        invariant 0 <= i <= |fn|
        invariant Valid()
        invariant Registered(suite, cursor, false) == ExecEffect(old(suite), old(cursor), fn[..i])
        decreases |fn| - i
      {
        assert fn[..i + 1][..i] == fn[..i];
        match fn[i] {
          case Describe(name, body) =>
            threw := Describe(name, body);
          case Before(h) =>
            Before(h);
            threw := false;
          case Test(name, body) =>
            Test(name, body);
            threw := false;
          case After(h) =>
            After(h);
            threw := false;
          case Throw =>
            threw := true;
        }
        if threw {
          ExecStops(old(suite), old(cursor), fn, i + 1);
          return;
        }
        i := i + 1;
      }
      assert fn[..i] == fn;
      threw := false;
    }

    /** `before`: append a before-hook to the group under the cursor. */
    method Before(h: HookId)
      requires Valid()
      modifies this
      ensures Valid()
      ensures Registered(suite, cursor, false) == StmtEffect(old(suite), old(cursor), Stmt.Before(h))
    {
      ghost var r := StmtEffect(suite, cursor, Stmt.Before(h));
      suite := Replace(suite, cursor, WithBefore(At(suite, cursor), h));
      assert suite == r.suite;
    }

    /** `test` (and its alias `it`): append a test to the group under the cursor. */
    method Test(name: string, body: BodyId)
      requires Valid()
      modifies this
      ensures Valid()
      ensures Registered(suite, cursor, false) == StmtEffect(old(suite), old(cursor), Stmt.Test(name, body))
    {
      ghost var r := StmtEffect(suite, cursor, Stmt.Test(name, body));
      suite := Replace(suite, cursor, WithChild(At(suite, cursor), Case(name, body)));
      assert suite == r.suite;
    }

    /** `after`: append an after-hook to the group under the cursor. */
    method After(h: HookId)
      requires Valid()
      modifies this
      ensures Valid()
      ensures Registered(suite, cursor, false) == StmtEffect(old(suite), old(cursor), Stmt.After(h))
    {
      ghost var r := StmtEffect(suite, cursor, Stmt.After(h));
      suite := Replace(suite, cursor, WithAfter(At(suite, cursor), h));
      assert suite == r.suite;
    }

    /**
     * `run`: walk the whole tree from the root, whose own name is not part of any
     * path.  It only reads the registry, so running again gives the same trace.
     */
    method Run(fails: set<Event>) returns (trace: seq<Event>)
      requires Valid()
      ensures trace == SpecTrace(suite, [], fails)
    {
      trace := Engine.RunSpec(suite, [], fails);
    }
  }
}
