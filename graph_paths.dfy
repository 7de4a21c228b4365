/**
 * Paths through the prerequisite graph, in either direction. A step goes from a concept that
 * is in the node map to an id listed on one of its edge lists; the target of a step need not
 * be a known concept, which is how the traversals treat dangling ids.
 */
module GraphPaths {
  import opened Seqs
  import opened KnowledgeGraphModel

  /** Which edge list a traversal follows: prerequisites (`parents`) or dependents (`children`). */
  datatype Direction = Parents | Children

  function Edges(n: ConceptNode, dir: Direction): seq<string> {
    match dir
    case Parents => n.parents
    case Children => n.children
  }

  predicate Step(nodes: map<string, ConceptNode>, dir: Direction, a: string, b: string) {
    a in nodes && b in Edges(nodes[a], dir)
  }

  /** A non-empty walk along edges of one direction. */
  ghost predicate IsPath(nodes: map<string, ConceptNode>, dir: Direction, p: seq<string>) {
    |p| >= 1 && forall i :: 0 <= i < |p| - 1 ==> Step(nodes, dir, p[i], p[i + 1])
  }

  /** `b` is reachable from `a` in one or more steps. */
  ghost predicate Reaches(nodes: map<string, ConceptNode>, dir: Direction, a: string, b: string) {
    exists p :: IsPath(nodes, dir, p) && |p| >= 2 && p[0] == a && Last(p) == b
  }

  /** No walk visits a concept twice; a self-loop is a walk [a, a]. */
  ghost predicate Acyclic(nodes: map<string, ConceptNode>, dir: Direction) {
    forall p :: IsPath(nodes, dir, p) ==> NoDups(p)
  }

  /** Some walk from `k` repeats a concept: a cycle can be reached from `k`. */
  ghost predicate CycleReachable(nodes: map<string, ConceptNode>, dir: Direction, k: string) {
    exists p :: IsPath(nodes, dir, p) && p[0] == k && !NoDups(p)
  }

  lemma PathExtend(nodes: map<string, ConceptNode>, dir: Direction, p: seq<string>, x: string)
    requires IsPath(nodes, dir, p) && Step(nodes, dir, Last(p), x)
    ensures IsPath(nodes, dir, p + [x])
  {
    var q := p + [x];
    forall i | 0 <= i < |q| - 1
      ensures Step(nodes, dir, q[i], q[i + 1])
    {
      if i < |p| - 1 {
        assert q[i] == p[i] && q[i + 1] == p[i + 1];
      }
    }
  }

  lemma PathPrefix(nodes: map<string, ConceptNode>, dir: Direction, p: seq<string>, n: nat)
    requires IsPath(nodes, dir, p) && 1 <= n <= |p|
    ensures IsPath(nodes, dir, p[..n])
  {
    var q := p[..n];
    forall i | 0 <= i < |q| - 1
      ensures Step(nodes, dir, q[i], q[i + 1])
    {
      assert q[i] == p[i] && q[i + 1] == p[i + 1];
    }
  }

  /** Every concept a walk leaves from is in the node map. */
  lemma PathSourcesPresent(nodes: map<string, ConceptNode>, dir: Direction, p: seq<string>, i: nat)
    requires IsPath(nodes, dir, p) && i < |p| - 1
    ensures p[i] in nodes
  {
    assert Step(nodes, dir, p[i], p[i + 1]);
  }

  /** Reaching `v` (or starting at it) and stepping on to `x` reaches `x`. */
  lemma ReachesStep(nodes: map<string, ConceptNode>, dir: Direction, a: string, v: string, x: string)
    requires v == a || Reaches(nodes, dir, a, v)
    requires Step(nodes, dir, v, x)
    ensures Reaches(nodes, dir, a, x)
  {
    if v == a {
      var q := [a, x];
      assert IsPath(nodes, dir, q) by {
        assert Step(nodes, dir, q[0], q[1]);
      }
      assert Last(q) == x;
    } else {
      var p :| IsPath(nodes, dir, p) && |p| >= 2 && p[0] == a && Last(p) == v;
      PathExtend(nodes, dir, p, x);
      assert Last(p + [x]) == x && (p + [x])[0] == a;
    }
  }

  /** Walking back onto a concept already on the current walk closes a cycle. */
  lemma CycleOnWalk(nodes: map<string, ConceptNode>, dir: Direction, path: seq<string>, id: string)
    requires IsPath(nodes, dir, path + [id]) && id in path
    ensures CycleReachable(nodes, dir, (path + [id])[0])
    ensures !Acyclic(nodes, dir)
  {
    var q := path + [id];
    var j :| 0 <= j < |path| && path[j] == id;
    assert q[j] == q[|path|];
    assert !NoDups(q);
  }

  /** A graph is acyclic exactly when no cycle can be reached from any known concept. */
  lemma AcyclicFromKeys(nodes: map<string, ConceptNode>, dir: Direction)
    ensures Acyclic(nodes, dir) <==> forall k :: k in nodes ==> !CycleReachable(nodes, dir, k)
  {
    if !Acyclic(nodes, dir) {
      var p :| IsPath(nodes, dir, p) && !NoDups(p);
      assert |p| >= 2;
      PathSourcesPresent(nodes, dir, p, 0);
      assert CycleReachable(nodes, dir, p[0]);
    }
  }

  lemma SelfLoopCycle(nodes: map<string, ConceptNode>, dir: Direction, id: string)
    requires Step(nodes, dir, id, id)
    ensures CycleReachable(nodes, dir, id) && !Acyclic(nodes, dir)
  {
    var q := [id, id];
    assert Step(nodes, dir, q[0], q[1]);
    assert IsPath(nodes, dir, q) && !NoDups(q);
  }

  /** Stepping from `a` to `v` and reaching `b` from `v` reaches `b` from `a`. */
  lemma ReachesPrepend(nodes: map<string, ConceptNode>, dir: Direction, a: string, v: string, b: string)
    requires Step(nodes, dir, a, v) && Reaches(nodes, dir, v, b)
    ensures Reaches(nodes, dir, a, b)
  {
    var p :| IsPath(nodes, dir, p) && |p| >= 2 && p[0] == v && Last(p) == b;
    var q := [a] + p;
    forall i | 0 <= i < |q| - 1
      ensures Step(nodes, dir, q[i], q[i + 1])
    {
      if i > 0 {
        assert q[i] == p[i - 1] && q[i + 1] == p[i];
      }
    }
    assert IsPath(nodes, dir, q) && Last(q) == b;
  }

  /** The ids some listed concept points at, plus the known ids: everything a traversal can see. */
  ghost function Universe(nodes: map<string, ConceptNode>, dir: Direction): set<string> {
    nodes.Keys + set k, x | k in nodes && x in Edges(nodes[k], dir) :: x
  }

  /** A set closed under steps that holds a walk's first concept holds the whole walk. */
  lemma {:induction false} ClosedHoldsWalk(nodes: map<string, ConceptNode>, dir: Direction, s: set<string>, p: seq<string>, k: nat)
    requires forall v, x :: v in s && Step(nodes, dir, v, x) ==> x in s
    requires IsPath(nodes, dir, p) && p[0] in s && k < |p|
    ensures p[k] in s
    decreases k
  {
    if k > 0 {
      ClosedHoldsWalk(nodes, dir, s, p, k - 1);
      assert Step(nodes, dir, p[k - 1], p[k]);
    }
  }
}
