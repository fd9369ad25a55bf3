/**
 * The test tree of mod.ts: a Spec (here `Group`) holds a name, its before-hooks,
 * its ordered children and its after-hooks; a Test (here `Case`) holds a name and
 * a body.  Hook and test bodies are user code, so they are represented by ids.
 *
 * A group inside the tree is addressed by a path of child indices from the root.
 * The registration cursor of mod.ts is such a path.
 */
module Tree {

  type HookId = nat
  type BodyId = nat

  datatype Node =
    | Group(name: string, before: seq<HookId>, children: seq<Node>, after: seq<HookId>)
    | Case(name: string, body: BodyId)

  /** The group that `describe` creates: no hooks, no children yet. */
  function EmptyGroup(name: string): Node
  {
    Group(name, [], [], [])
  }

  /** Group `g` with hook `h` appended to its before-hooks. */
  function WithBefore(g: Node, h: HookId): Node
    requires g.Group?
  {
    g.(before := g.before + [h])
  }

  /** Group `g` with hook `h` appended to its after-hooks. */
  function WithAfter(g: Node, h: HookId): Node
    requires g.Group?
  {
    g.(after := g.after + [h])
  }

  /** Group `g` with `c` appended as its last child. */
  function WithChild(g: Node, c: Node): Node
    requires g.Group?
  {
    g.(children := g.children + [c])
  }

  /** `p` leads from `n` through groups only and ends at a group. */
  predicate IsGroupPath(n: Node, p: seq<nat>)
    decreases p
  {
    n.Group? && (p != [] ==> p[0] < |n.children| && IsGroupPath(n.children[p[0]], p[1..]))
  }

  /** The group at the end of path `p`. */
  function At(n: Node, p: seq<nat>): (g: Node)
    requires IsGroupPath(n, p)
    ensures g.Group?
    decreases p
  {
    if p == [] then n else At(n.children[p[0]], p[1..])
  }

  /** `n` with the subtree at path `p` replaced by `g`. */
  function Replace(n: Node, p: seq<nat>, g: Node): Node
    requires IsGroupPath(n, p)
    decreases p
  {
    if p == [] then g
    else n.(children := n.children[p[0] := Replace(n.children[p[0]], p[1..], g)])
  }

  /** A group whose head (name and hooks) and number of children agree with another's. */
  predicate SameHead(a: Node, b: Node)
    requires a.Group? && b.Group?
  {
    a.name == b.name && a.before == b.before && a.after == b.after
    && |a.children| == |b.children|
  }

  lemma {:induction false} ReplaceAt(n: Node, p: seq<nat>, g: Node)
    requires IsGroupPath(n, p) && g.Group?
    ensures IsGroupPath(Replace(n, p, g), p) && At(Replace(n, p, g), p) == g
    decreases p
  {
    if p != [] {
      ReplaceAt(n.children[p[0]], p[1..], g);
    }
  }

  lemma {:induction false} ReplaceSelf(n: Node, p: seq<nat>)
    requires IsGroupPath(n, p)
    ensures Replace(n, p, At(n, p)) == n
    decreases p
  {
    if p != [] {
      ReplaceSelf(n.children[p[0]], p[1..]);
    }
  }

  /** A path extended by `q` is a path of the subtree reached by the first part. */
  lemma {:induction false} AtConcat(n: Node, p: seq<nat>, q: seq<nat>)
    requires IsGroupPath(n, p)
    ensures IsGroupPath(n, p + q) <==> IsGroupPath(At(n, p), q)
    ensures IsGroupPath(n, p + q) ==> At(n, p + q) == At(At(n, p), q)
    decreases p
  {
    if p != [] {
      assert (p + q)[0] == p[0] && (p + q)[1..] == p[1..] + q;
      AtConcat(n.children[p[0]], p[1..], q);
    } else {
      assert p + q == q;
    }
  }

  /** Replacing deep inside the group at `p` is replacing that group by its own update. */
  lemma {:induction false} ReplaceConcat(n: Node, p: seq<nat>, q: seq<nat>, h: Node)
    requires IsGroupPath(n, p) && IsGroupPath(At(n, p), q)
    ensures IsGroupPath(n, p + q)
    ensures Replace(n, p + q, h) == Replace(n, p, Replace(At(n, p), q, h))
    decreases p
  {
    AtConcat(n, p, q);
    if p != [] {
      assert (p + q)[0] == p[0] && (p + q)[1..] == p[1..] + q;
      ReplaceConcat(n.children[p[0]], p[1..], q, h);
    } else {
      assert p + q == q;
    }
  }

  lemma {:induction false} ReplaceTwice(n: Node, p: seq<nat>, g: Node, h: Node)
    requires IsGroupPath(n, p) && g.Group?
    ensures IsGroupPath(Replace(n, p, g), p)
    ensures Replace(Replace(n, p, g), p, h) == Replace(n, p, h)
    decreases p
  {
    ReplaceAt(n, p, g);
    if p != [] {
      ReplaceTwice(n.children[p[0]], p[1..], g, h);
    }
  }

  /**
   * Replacing the group at `p` leaves the rest of the tree alone: every group path
   * that does not run through `p` stays a group path with the same subtree, and a
   * group above `p` keeps its name, hooks and number of children.
   */
  lemma {:induction false} ReplaceFrame(n: Node, p: seq<nat>, g: Node, q: seq<nat>)
    requires IsGroupPath(n, p) && g.Group? && IsGroupPath(n, q) && !(p <= q)
    ensures IsGroupPath(Replace(n, p, g), q)
    ensures q <= p ==> SameHead(At(Replace(n, p, g), q), At(n, q))
    ensures !(q <= p) ==> At(Replace(n, p, g), q) == At(n, q)
    decreases q
  {
    if q != [] {
      assert p != [];
      var r := Replace(n, p, g);
      if p[0] == q[0] {
        assert !(p[1..] <= q[1..]);
        assert q <= p ==> q[1..] <= p[1..];
        assert !(q <= p) ==> !(q[1..] <= p[1..]);
        ReplaceFrame(n.children[p[0]], p[1..], g, q[1..]);
      } else {
        assert r.children[q[0]] == n.children[q[0]];
        assert !(q <= p);
      }
    }
  }

  /**
   * `b` is `a` after appends only: the same name, hooks and children extended at the
   * end, every existing child grown in place and no child removed or reordered.
   */
  predicate Grows(a: Node, b: Node)
    decreases a
  {
    match a
    case Case(_, _) => b == a
    case Group(name, before, children, after) =>
      && b.Group? && b.name == name
      && before <= b.before && after <= b.after
      && |children| <= |b.children|
      && forall i :: 0 <= i < |children| ==> Grows(children[i], b.children[i])
  }

  lemma {:induction false} GrowsRefl(a: Node)
    ensures Grows(a, a)
    decreases a
  {
    if a.Group? {
      forall i | 0 <= i < |a.children| ensures Grows(a.children[i], a.children[i]) {
        GrowsRefl(a.children[i]);
      }
    }
  }

  lemma {:induction false} GrowsTrans(a: Node, b: Node, c: Node)
    requires Grows(a, b) && Grows(b, c)
    ensures Grows(a, c)
    decreases a
  {
    if a.Group? {
      forall i | 0 <= i < |a.children| ensures Grows(a.children[i], c.children[i]) {
        GrowsTrans(a.children[i], b.children[i], c.children[i]);
      }
    }
  }

  /** Growth never destroys a group path: the registration cursor stays valid. */
  lemma {:induction false} GrowsKeepsPath(a: Node, b: Node, p: seq<nat>)
    requires Grows(a, b) && IsGroupPath(a, p)
    ensures IsGroupPath(b, p) && Grows(At(a, p), At(b, p))
    decreases p
  {
    if p != [] {
      GrowsKeepsPath(a.children[p[0]], b.children[p[0]], p[1..]);
    }
  }

  /** Growing one group grows the whole tree. */
  lemma {:induction false} GrowsReplace(n: Node, p: seq<nat>, g: Node)
    requires IsGroupPath(n, p) && Grows(At(n, p), g)
    ensures Grows(n, Replace(n, p, g))
    decreases p
  {
    if p != [] {
      var i := p[0];
      var r := Replace(n, p, g);
      GrowsReplace(n.children[i], p[1..], g);
      forall j | 0 <= j < |n.children| ensures Grows(n.children[j], r.children[j]) {
        if j != i {
          GrowsRefl(n.children[j]);
        }
      }
    }
  }

  /**
   * Appending to the hook lists and children of a group grows it; this covers each
   * of the three appends of registration.
   */
  lemma AppendsGrow(g: Node, b: Node)
    requires g.Group? && b.Group? && b.name == g.name
    requires g.before <= b.before && g.after <= b.after && g.children <= b.children
    ensures Grows(g, b)
  {
    forall i | 0 <= i < |g.children| ensures Grows(g.children[i], b.children[i]) {
      GrowsRefl(g.children[i]);
    }
  }
}
