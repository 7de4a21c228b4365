/**
 * Traversals of the prerequisite DAG: depths, prerequisite and dependent closures, the search
 * for a weak prerequisite, the cascade of unlockable concepts, and cycle detection.
 */
module GraphService {
  import opened Wrappers
  import opened Seqs
  import opened KnowledgeGraphModel
  import opened UserMasteryModel
  import opened GraphPaths

  // ================================================================ depths

  /** The largest depth among the parents that are in the graph, 0 when there are none. */
  function MaxPresent(ps: seq<string>, nodes: map<string, ConceptNode>, d: map<string, nat>): nat
    requires forall p :: p in ps && p in nodes ==> p in d
    decreases |ps|
  {
    if ps == [] then 0
    else
      var rest := MaxPresent(ps[..|ps| - 1], nodes, d);
      var p := Last(ps);
      if p in nodes && d[p] > rest then d[p] else rest
  }

  lemma {:induction false} MaxPresentBound(ps: seq<string>, nodes: map<string, ConceptNode>, d: map<string, nat>, p: string)
    requires forall q :: q in ps && q in nodes ==> q in d
    requires p in ps && p in nodes
    ensures d[p] <= MaxPresent(ps, nodes, d)
    decreases |ps|
  {
    if p != Last(ps) {
      assert p in ps[..|ps| - 1] by {
        var i :| 0 <= i < |ps| && ps[i] == p;
        assert i < |ps| - 1 && ps[..|ps| - 1][i] == p;
      }
      MaxPresentBound(ps[..|ps| - 1], nodes, d, p);
    }
  }

  /** The max only looks at the entries of the known ids in `ps`. */
  lemma {:induction false} MaxPresentStable(ps: seq<string>, nodes: map<string, ConceptNode>, d: map<string, nat>, e: map<string, nat>)
    requires forall q :: q in ps && q in nodes ==> q in d && q in e && d[q] == e[q]
    ensures MaxPresent(ps, nodes, d) == MaxPresent(ps, nodes, e)
    decreases |ps|
  {
    if ps != [] {
      MaxPresentStable(ps[..|ps| - 1], nodes, d, e);
    }
  }

  /**
   * The depth rule at `k`: 0 without parents, else one more than the deepest known parent
   * (a node whose parents are all unknown therefore gets depth 1).
   */
  ghost predicate DepthOk(nodes: map<string, ConceptNode>, d: map<string, nat>, k: string) {
    && k in nodes && k in d
    && (forall p :: p in nodes[k].parents && p in nodes ==> p in d)
    && d[k] == (if nodes[k].parents == [] then 0 else 1 + MaxPresent(nodes[k].parents, nodes, d))
  }

  /** Every memoised entry obeys the depth rule. */
  ghost predicate MemoOk(nodes: map<string, ConceptNode>, d: map<string, nat>) {
    forall k :: k in d ==> DepthOk(nodes, d, k)
  }

  /** `d` assigns every concept the depth the rule gives it. */
  ghost predicate DepthEquations(nodes: map<string, ConceptNode>, d: map<string, nat>) {
    d.Keys == nodes.Keys && MemoOk(nodes, d)
  }

  function DepthsOf(nodes: map<string, ConceptNode>): map<string, nat> {
    map k | k in nodes :: nodes[k].depth
  }

  /** On a graph with depths assigned by the rule, a known parent is strictly shallower. */
  lemma ParentShallower(nodes: map<string, ConceptNode>, d: map<string, nat>, c: string, p: string)
    requires DepthEquations(nodes, d)
    requires c in nodes && p in nodes[c].parents && p in nodes
    ensures d[p] < d[c]
  {
    assert DepthOk(nodes, d, c);
    MaxPresentBound(nodes[c].parents, nodes, d, p);
  }

  /** Every known parent has a strictly smaller depth than its child. */
  ghost predicate ParentsShallower(nodes: map<string, ConceptNode>, d: map<string, nat>) {
    forall c, p :: c in nodes && p in nodes[c].parents && p in nodes ==> c in d && p in d && d[p] < d[c]
  }

  lemma RuleRanks(nodes: map<string, ConceptNode>, d: map<string, nat>)
    requires DepthEquations(nodes, d)
    ensures ParentsShallower(nodes, d)
  {
    forall c, p | c in nodes && p in nodes[c].parents && p in nodes
      ensures c in d && p in d && d[p] < d[c]
    {
      ParentShallower(nodes, d, c, p);
    }
  }

  lemma {:induction false} DepthFallsAlongWalk(nodes: map<string, ConceptNode>, d: map<string, nat>, p: seq<string>, i: nat, k: nat)
    requires ParentsShallower(nodes, d) && IsPath(nodes, Parents, p)
    requires i < k < |p| && p[k] in nodes
    ensures p[i] in nodes && p[i] in d && p[k] in d && d[p[k]] < d[p[i]]
    decreases k
  {
    assert Step(nodes, Parents, p[k - 1], p[k]);
    assert p[k - 1] in nodes && p[k] in nodes[p[k - 1]].parents;
    if k - 1 > i {
      DepthFallsAlongWalk(nodes, d, p, i, k - 1);
    }
  }

  /** Depths that obey the rule exist only on a graph without prerequisite cycles. */
  lemma RankedImpliesAcyclic(nodes: map<string, ConceptNode>, d: map<string, nat>)
    requires DepthEquations(nodes, d)
    ensures Acyclic(nodes, Parents)
  {
    RuleRanks(nodes, d);
    forall p | IsPath(nodes, Parents, p)
      ensures NoDups(p)
    {
      if !NoDups(p) {
        var i, j :| 0 <= i < j < |p| && p[i] == p[j];
        PathSourcesPresent(nodes, Parents, p, i);
        DepthFallsAlongWalk(nodes, d, p, i, j);
        assert false;
      }
    }
  }

  lemma NoSelfParent(nodes: map<string, ConceptNode>, id: string)
    requires Acyclic(nodes, Parents) && id in nodes
    ensures id !in nodes[id].parents
  {
    if id in nodes[id].parents {
      SelfLoopCycle(nodes, Parents, id);
    }
  }

  /** Memoising a fresh id leaves every existing entry's depth rule intact. */
  lemma MemoAdd(nodes: map<string, ConceptNode>, d: map<string, nat>, id: string, v: nat)
    requires MemoOk(nodes, d) && id !in d
    ensures forall k :: k in d ==> DepthOk(nodes, d[id := v], k)
  {
    forall k | k in d
      ensures DepthOk(nodes, d[id := v], k)
    {
      assert DepthOk(nodes, d, k);
      MaxPresentStable(nodes[k].parents, nodes, d, d[id := v]);
    }
  }

  /**
   * The memoised DFS of `_calculate_depths`. `visiting` is the set of ids on the current
   * recursion stack (`path`, followed along parent edges); re-entering one of them is a cycle,
   * which the source answers with depth 0.
   */
  method DepthDfs(nodes: map<string, ConceptNode>, id: string, depths: map<string, nat>,
                  visiting: set<string>, ghost path: seq<string>)
    returns (depth: nat, depths': map<string, nat>)
    requires id in nodes
    requires depths.Keys <= nodes.Keys && visiting <= nodes.Keys
    requires IsPath(nodes, Parents, path + [id])
    requires forall x :: x in visiting <==> x in path
    requires Acyclic(nodes, Parents) ==> MemoOk(nodes, depths)
    ensures depths.Keys <= depths'.Keys <= nodes.Keys
    ensures forall k :: k in depths ==> depths'[k] == depths[k]
    ensures forall k :: k in depths' && k !in depths ==> k !in visiting
    ensures id !in visiting ==> id in depths'
    ensures Acyclic(nodes, Parents) ==> MemoOk(nodes, depths') && id in depths' && depths'[id] == depth
    decreases |nodes.Keys - visiting|, 2
  {
    if id in depths {
      return depths[id], depths;
    }
    if id in visiting {
      CycleOnWalk(nodes, Parents, path, id);
      return 0, depths;
    }
    var parents := nodes[id].parents;
    var d: map<string, nat> := depths;
    if parents == [] {
      depth := 0;
    } else {
      var m;
      m, d := MaxParentDepth(nodes, id, depths, visiting, path);
      assert parents[..|parents|] == parents;
      depth := m + 1;
    }
    depths' := d[id := depth];
    if Acyclic(nodes, Parents) {
      MemoFinish(nodes, d, id, depth);
    }
  }

  /** Searches each parent that is in the graph and returns the largest depth found, 0 when there are none. */
  method MaxParentDepth(nodes: map<string, ConceptNode>, id: string, depths: map<string, nat>,
                        visiting: set<string>, ghost path: seq<string>)
    returns (m: nat, d: map<string, nat>)
    requires id in nodes && id !in visiting && id !in depths
    requires depths.Keys <= nodes.Keys && visiting <= nodes.Keys
    requires IsPath(nodes, Parents, path + [id])
    requires forall x :: x in visiting <==> x in path
    requires Acyclic(nodes, Parents) ==> MemoOk(nodes, depths)
    ensures ScanState(nodes, id, depths, visiting, nodes[id].parents, |nodes[id].parents|, d, m)
    decreases |nodes.Keys - visiting|, 1
  {
    var parents := nodes[id].parents;
    d := depths;
    m := 0;
    var i := 0;
    assert parents[..0] == [];
    RemainingShrinks(nodes.Keys, visiting, visiting + {id}, id);
    while i < |parents|
      invariant ScanState(nodes, id, depths, visiting, parents, i, d, m)
      decreases |parents| - i
    {
      d, m := ScanParent(nodes, id, depths, visiting, path, parents, i, d, m);
      i := i + 1;
    }
  }

  /** One pass of that loop: recurse into `parents[i]` when it is a known concept. */
  method ScanParent(nodes: map<string, ConceptNode>, id: string, depths: map<string, nat>,
                    visiting: set<string>, ghost path: seq<string>, parents: seq<string>, i: nat,
                    d: map<string, nat>, m: nat)
    returns (d': map<string, nat>, m': nat)
    requires id in nodes && id !in visiting && parents == nodes[id].parents && visiting <= nodes.Keys
    requires IsPath(nodes, Parents, path + [id])
    requires forall x :: x in visiting <==> x in path
    requires |nodes.Keys - (visiting + {id})| < |nodes.Keys - visiting|
    requires i < |parents| && ScanState(nodes, id, depths, visiting, parents, i, d, m)
    ensures ScanState(nodes, id, depths, visiting, parents, i + 1, d', m')
    decreases |nodes.Keys - visiting|, 0
  {
    var p := parents[i];
    if p in nodes {
      PathExtend(nodes, Parents, path + [id], p);
      assert (path + [id]) + [p] == path + [id] + [p];
      var dp, d2 := DepthDfs(nodes, p, d, visiting + {id}, path + [id]);
      ScanAdvance(nodes, id, depths, visiting, parents, i, d, m, dp, d2);
      d', m' := d2, if dp > m then dp else m;
    } else {
      ScanSkip(nodes, id, depths, visiting, parents, i, d, m);
      d', m' := d, m;
    }
  }

  /**
   * The loop over `node.parents` in `dfs`, after `i` parents: the memo table only grew, by ids
   * off the recursion stack, and (on an acyclic graph) it is consistent, holds every known
   * parent seen so far, and `m` is the largest of their depths.
   */
  ghost predicate ScanState(nodes: map<string, ConceptNode>, id: string, depths: map<string, nat>,
                            visiting: set<string>, parents: seq<string>, i: nat, d: map<string, nat>, m: nat)
  {
    && i <= |parents|
    && depths.Keys <= d.Keys <= nodes.Keys && id !in d
    && (forall k :: k in depths ==> d[k] == depths[k])
    && (forall k :: k in d && k !in depths ==> k !in visiting)
    && (Acyclic(nodes, Parents) ==>
          && MemoOk(nodes, d)
          && (forall j :: 0 <= j < i && parents[j] in nodes ==> parents[j] in d)
          && m == MaxPresent(parents[..i], nodes, d))
  }

  lemma ScanSkip(nodes: map<string, ConceptNode>, id: string, depths: map<string, nat>,
                 visiting: set<string>, parents: seq<string>, i: nat, d: map<string, nat>, m: nat)
    requires ScanState(nodes, id, depths, visiting, parents, i, d, m)
    requires i < |parents| && parents[i] !in nodes
    ensures ScanState(nodes, id, depths, visiting, parents, i + 1, d, m)
  {
    assert parents[..i + 1] == parents[..i] + [parents[i]];
  }

  /** One recursive call on a known parent, given what `DepthDfs` promises about it. */
  lemma ScanAdvance(nodes: map<string, ConceptNode>, id: string, depths: map<string, nat>,
                    visiting: set<string>, parents: seq<string>, i: nat, d: map<string, nat>, m: nat,
                    dp: nat, d2: map<string, nat>)
    requires ScanState(nodes, id, depths, visiting, parents, i, d, m)
    requires i < |parents| && parents[i] in nodes
    requires d.Keys <= d2.Keys <= nodes.Keys
    requires forall k :: k in d ==> d2[k] == d[k]
    requires forall k :: k in d2 && k !in d ==> k !in visiting + {id}
    requires Acyclic(nodes, Parents) ==> MemoOk(nodes, d2) && parents[i] in d2 && d2[parents[i]] == dp
    ensures ScanState(nodes, id, depths, visiting, parents, i + 1, d2, if dp > m then dp else m)
  {
    var p := parents[i];
    assert parents[..i + 1] == parents[..i] + [p];
    assert parents[..i + 1][..i] == parents[..i];
    if Acyclic(nodes, Parents) {
      MaxPresentStable(parents[..i], nodes, d, d2);
    }
  }

  /** Memoising `id` once every known parent is memoised keeps the memo table consistent. */
  lemma MemoFinish(nodes: map<string, ConceptNode>, d: map<string, nat>, id: string, depth: nat)
    requires Acyclic(nodes, Parents) && MemoOk(nodes, d) && id in nodes && id !in d
    requires forall p :: p in nodes[id].parents && p in nodes ==> p in d
    requires depth == if nodes[id].parents == [] then 0 else 1 + MaxPresent(nodes[id].parents, nodes, d)
    ensures MemoOk(nodes, d[id := depth])
  {
    NoSelfParent(nodes, id);
    MemoAdd(nodes, d, id, depth);
    MaxPresentStable(nodes[id].parents, nodes, d, d[id := depth]);
    assert DepthOk(nodes, d[id := depth], id);
  }

  /**
   * `_calculate_depths`: the same concepts in the same order with only `depth` replaced. The new
   * depths obey the depth rule exactly when the prerequisite edges have no cycle; on a cyclic
   * graph no assignment can obey it.
   */
  method CalculateDepths(nodes: ConceptMap) returns (result: ConceptMap)
    requires nodes.Valid()
    ensures result.order == nodes.order && result.at.Keys == nodes.at.Keys && result.Valid()
    ensures forall k :: k in nodes.at ==> result.at[k] == nodes.at[k].(depth := result.at[k].depth)
    ensures Acyclic(nodes.at, Parents) <==> DepthEquations(nodes.at, DepthsOf(result.at))
  {
    var depths := MemoiseAll(nodes);
    result := WithDepths(nodes, depths);
    if DepthEquations(nodes.at, DepthsOf(result.at)) {
      RankedImpliesAcyclic(nodes.at, DepthsOf(result.at));
    }
  }

  /**
   * The first loop of `_calculate_depths`: run the DFS from every concept in dict order. Every
   * concept ends up memoised, and on an acyclic graph every entry obeys the depth rule.
   */
  method MemoiseAll(nodes: ConceptMap) returns (depths: map<string, nat>)
    requires nodes.Valid()
    ensures depths.Keys == nodes.at.Keys
    ensures Acyclic(nodes.at, Parents) ==> MemoOk(nodes.at, depths)
  {
    depths := map[];
    var i := 0;
    while i < |nodes.order|
      invariant 0 <= i <= |nodes.order|
      invariant depths.Keys <= nodes.at.Keys
      invariant forall j :: 0 <= j < i ==> nodes.order[j] in depths
      invariant Acyclic(nodes.at, Parents) ==> MemoOk(nodes.at, depths)
    {
      var k := nodes.order[i];
      assert IsPath(nodes.at, Parents, [] + [k]);
      var _, d := DepthDfs(nodes.at, k, depths, {}, []);
      depths := d;
      i := i + 1;
    }
    forall k | k in nodes.at
      ensures k in depths
    {
      var j :| 0 <= j < |nodes.order| && nodes.order[j] == k;
    }
  }

  /** The second loop of `_calculate_depths`: copy each node with its computed depth. */
  method WithDepths(nodes: ConceptMap, depths: map<string, nat>) returns (result: ConceptMap)
    requires nodes.Valid() && depths.Keys == nodes.at.Keys
    ensures result.order == nodes.order && result.at.Keys == nodes.at.Keys && result.Valid()
    ensures forall k :: k in nodes.at ==> result.at[k] == nodes.at[k].(depth := depths[k])
    ensures DepthsOf(result.at) == depths
  {
    var at: map<string, ConceptNode> := map[];
    var i := 0;
    while i < |nodes.order|
      invariant 0 <= i <= |nodes.order|
      invariant forall k :: k in at <==> k in nodes.order[..i]
      invariant forall k :: k in at ==> k in nodes.at && at[k] == nodes.at[k].(depth := depths[k])
    {
      var k := nodes.order[i];
      assert nodes.order[..i + 1] == nodes.order[..i] + [k];
      at := at[k := nodes.at[k].(depth := depths[k])];
      i := i + 1;
    }
    assert nodes.order[..|nodes.order|] == nodes.order;
    result := ConceptMap(nodes.order, at);
  }

  /** The diamond A -> {B, C} -> D, listed in that order. */
  function Diamond(): ConceptMap {
    var a := NewConceptNode("A", "A");
    var b := NewConceptNode("B", "B").(parents := ["A"]);
    var c := NewConceptNode("C", "C").(parents := ["A"]);
    var d := NewConceptNode("D", "D").(parents := ["B", "C"]);
    ConceptMap(["A", "B", "C", "D"], map["A" := a, "B" := b, "C" := c, "D" := d])
  }

  /**
   * The diamond's shape over four distinct ids: `a` has no prerequisites, `b` and `c` need `a`,
   * `e` needs `b` then `c`; the dict lists them in that order and no depth has been stored yet.
   */
  ghost predicate DiamondShaped(g: ConceptMap, a: string, b: string, c: string, e: string) {
    && a != b && a != c && a != e && b != c && b != e && c != e
    && g.order == [a, b, c, e] && g.at.Keys == {a, b, c, e}
    && g.at[a].parents == [] && g.at[b].parents == [a] && g.at[c].parents == [a]
    && g.at[e].parents == [b, c]
    && forall k :: k in g.at ==> g.at[k].depth == 0
  }

  lemma DiamondIsShaped()
    ensures DiamondShaped(Diamond(), "A", "B", "C", "D")
  {
  }

  lemma ShapedValid(g: ConceptMap, a: string, b: string, c: string, e: string)
    requires DiamondShaped(g, a, b, c, e)
    ensures g.Valid()
  {
    forall i, j | 0 <= i < j < |g.order|
      ensures g.order[i] != g.order[j]
    {
    }
  }

  /** The depth rule's right-hand sides on a diamond, once every concept has an entry. */
  lemma ShapedDepthRule(g: ConceptMap, a: string, b: string, c: string, e: string, d: map<string, nat>)
    requires DiamondShaped(g, a, b, c, e) && d.Keys == g.at.Keys
    ensures DepthOk(g.at, d, a) <==> d[a] == 0
    ensures DepthOk(g.at, d, b) <==> d[b] == 1 + d[a]
    ensures DepthOk(g.at, d, c) <==> d[c] == 1 + d[a]
    ensures DepthOk(g.at, d, e) <==> d[e] == 1 + (if d[c] > d[b] then d[c] else d[b])
  {
    var n := g.at;
    assert [a][..0] == [] && Last([a]) == a;
    assert MaxPresent([a], n, d) == d[a];
    assert [b, c][..1] == [b] && [b][..0] == [] && Last([b, c]) == c && Last([b]) == b;
    assert MaxPresent([b], n, d) == d[b];
    assert MaxPresent([b, c], n, d) == (if d[c] > d[b] then d[c] else d[b]);
  }

  /** On any diamond the depth rule has exactly one solution: 0, 1, 1, 2. */
  lemma ShapedDepths(g: ConceptMap, a: string, b: string, c: string, e: string, d: map<string, nat>)
    requires DiamondShaped(g, a, b, c, e)
    ensures DepthEquations(g.at, d) <==>
      d.Keys == g.at.Keys && d[a] == 0 && d[b] == 1 && d[c] == 1 && d[e] == 2
  {
    var n := g.at;
    if d.Keys == n.Keys {
      ShapedDepthRule(g, a, b, c, e, d);
      if d[a] == 0 && d[b] == 1 && d[c] == 1 && d[e] == 2 {
        forall k | k in d
          ensures DepthOk(n, d, k)
        {
          assert k == a || k == b || k == c || k == e;
        }
      }
      if DepthEquations(n, d) {
        assert DepthOk(n, d, a) && DepthOk(n, d, b) && DepthOk(n, d, c) && DepthOk(n, d, e);
      }
    }
  }

  lemma ShapedAcyclic(g: ConceptMap, a: string, b: string, c: string, e: string)
    requires DiamondShaped(g, a, b, c, e)
    ensures Acyclic(g.at, Parents)
  {
    var d: map<string, nat> := map[a := 0, b := 1, c := 1, e := 2];
    ShapedDepths(g, a, b, c, e, d);
    RankedImpliesAcyclic(g.at, d);
  }

  /** The depth rule has exactly one solution on the diamond: A 0, B 1, C 1, D 2; so it is acyclic. */
  lemma DiamondDepths(d: map<string, nat>)
    ensures Diamond().Valid()
    ensures DepthEquations(Diamond().at, d) <==>
      d.Keys == {"A", "B", "C", "D"} && d["A"] == 0 && d["B"] == 1 && d["C"] == 1 && d["D"] == 2
    ensures Acyclic(Diamond().at, Parents)
  {
    DiamondIsShaped();
    ShapedValid(Diamond(), "A", "B", "C", "D");
    ShapedDepths(Diamond(), "A", "B", "C", "D", d);
    ShapedAcyclic(Diamond(), "A", "B", "C", "D");
  }

  /** A concept whose only parent is not in the graph sits at depth 1, not 0. */
  lemma DanglingParentDepth(d: map<string, nat>)
    requires DepthEquations(map["X" := NewConceptNode("X", "X").(parents := ["missing"])], d)
    ensures d["X"] == 1
  {
    assert DepthOk(map["X" := NewConceptNode("X", "X").(parents := ["missing"])], d, "X");
  }

  // ================================================================ prerequisites and dependents

  /** Some visited known concept has an edge to `x`. */
  ghost predicate EdgeFromVisited(nodes: map<string, ConceptNode>, dir: Direction, visited: set<string>, x: string) {
    exists v :: v in visited && Step(nodes, dir, v, x)
  }

  /**
   * The `while queue` loop of `get_prerequisites` / `get_dependents`: pop the front, skip it if
   * seen, else mark it and, if it is a known concept, collect and enqueue its edge list.
   * The result is every id reachable from `start` in one or more steps.
   */
  method Closure(nodes: map<string, ConceptNode>, dir: Direction, start: string) returns (found: set<string>)
    ensures forall b :: b in found <==> Reaches(nodes, dir, start, b)
  {
    ghost var U := Universe(nodes, dir) + {start};
    var queue := [start];
    var visited: set<string> := {};
    found := {};
    ClosureInit(nodes, dir, start);
    while queue != []
      invariant ClosureInv(nodes, dir, start, U, queue, visited, found)
      decreases |U - visited|, |queue|
    {
      var current := queue[0];
      ghost var before := queue;
      queue := queue[1..];
      if current in visited {
        ClosureSkip(nodes, dir, start, U, before, visited, found);
        continue;
      }
      RemainingShrinks(U, visited, visited + {current}, current);
      var es := if current in nodes then Edges(nodes[current], dir) else [];
      ClosureVisit(nodes, dir, start, U, before, visited, found);
      visited := visited + {current};
      if current in nodes {
        found := found + set x | x in es;
        queue := queue + es;
      }
    }
    ClosureExact(nodes, dir, start, U, visited, found);
  }

  lemma ClosureInit(nodes: map<string, ConceptNode>, dir: Direction, start: string)
    ensures ClosureInv(nodes, dir, start, Universe(nodes, dir) + {start}, [start], {}, {})
  {
  }

  /** The loop invariant of the closure BFS. */
  ghost predicate ClosureInv(nodes: map<string, ConceptNode>, dir: Direction, start: string, U: set<string>,
                             queue: seq<string>, visited: set<string>, found: set<string>) {
    && U == Universe(nodes, dir) + {start}
    && visited <= U && (forall x :: x in queue ==> x in U)
    && (forall v :: v in visited ==> v == start || Reaches(nodes, dir, start, v))
    && (forall v :: v in queue ==> v == start || Reaches(nodes, dir, start, v))
    && (forall x :: x in found <==> EdgeFromVisited(nodes, dir, visited, x))
    && (start in visited || start in queue)
    && (forall v, x :: v in visited && Step(nodes, dir, v, x) ==> x in visited || x in queue)
  }

  lemma ClosureSkip(nodes: map<string, ConceptNode>, dir: Direction, start: string, U: set<string>,
                    queue: seq<string>, visited: set<string>, found: set<string>)
    requires ClosureInv(nodes, dir, start, U, queue, visited, found)
    requires queue != [] && queue[0] in visited
    ensures ClosureInv(nodes, dir, start, U, queue[1..], visited, found)
  {
    forall x | x in queue
      ensures x == queue[0] || x in queue[1..]
    {
      var i :| 0 <= i < |queue| && queue[i] == x;
      if i > 0 {
        assert queue[1..][i - 1] == x;
      }
    }
  }

  lemma ClosureVisit(nodes: map<string, ConceptNode>, dir: Direction, start: string, U: set<string>,
                     queue: seq<string>, visited: set<string>, found: set<string>)
    requires ClosureInv(nodes, dir, start, U, queue, visited, found)
    requires queue != [] && queue[0] !in visited
    ensures var c := queue[0];
      var es := if c in nodes then Edges(nodes[c], dir) else [];
      ClosureInv(nodes, dir, start, U, queue[1..] + es, visited + {c}, found + set x | x in es)
  {
    var c := queue[0];
    var es := if c in nodes then Edges(nodes[c], dir) else [];
    var q := queue[1..] + es;
    forall x | x in queue
      ensures x == c || x in q
    {
      var i :| 0 <= i < |queue| && queue[i] == x;
      if i > 0 {
        assert queue[1..][i - 1] == x;
      }
    }
    forall x | x in es
      ensures Step(nodes, dir, c, x) && x in U && Reaches(nodes, dir, start, x)
    {
      assert c in nodes;
      ReachesStep(nodes, dir, start, c, x);
    }
    forall x | x in q
      ensures x in U && (x == start || Reaches(nodes, dir, start, x))
    {
      if x !in es {
        assert x in queue[1..];
      }
    }
    var v2 := visited + {c};
    forall v, x | v in v2 && Step(nodes, dir, v, x)
      ensures x in v2 || x in q
    {
      if v == c {
        assert x in es;
      }
    }
    FoundStep(nodes, dir, visited, found, c);
  }

  /** Marking `c` visited adds exactly its edge list to the collected ids. */
  lemma FoundStep(nodes: map<string, ConceptNode>, dir: Direction, visited: set<string>, found: set<string>, c: string)
    requires forall x :: x in found <==> EdgeFromVisited(nodes, dir, visited, x)
    ensures var es := if c in nodes then Edges(nodes[c], dir) else [];
      forall x :: x in found + (set y | y in es) <==> EdgeFromVisited(nodes, dir, visited + {c}, x)
  {
    var es := if c in nodes then Edges(nodes[c], dir) else [];
    var v2 := visited + {c};
    var f2 := found + set y | y in es;
    forall x | x in f2
      ensures EdgeFromVisited(nodes, dir, v2, x)
    {
      if x in es {
        assert c in v2 && Step(nodes, dir, c, x);
      } else {
        var v :| v in visited && Step(nodes, dir, v, x);
        assert v in v2;
      }
    }
    forall x | EdgeFromVisited(nodes, dir, v2, x)
      ensures x in f2
    {
      var v :| v in v2 && Step(nodes, dir, v, x);
      if v == c {
        assert x in es;
      } else {
        assert EdgeFromVisited(nodes, dir, visited, x);
      }
    }
  }

  /** Once the queue is empty the visited set is closed, so the collected ids are exactly the reachable ones. */
  lemma ClosureExact(nodes: map<string, ConceptNode>, dir: Direction, start: string, U: set<string>,
                     visited: set<string>, found: set<string>)
    requires ClosureInv(nodes, dir, start, U, [], visited, found)
    ensures forall b :: b in found <==> Reaches(nodes, dir, start, b)
  {
    forall b | Reaches(nodes, dir, start, b)
      ensures b in found
    {
      var p :| IsPath(nodes, dir, p) && |p| >= 2 && p[0] == start && Last(p) == b;
      ClosedHoldsWalk(nodes, dir, visited, p, |p| - 2);
      assert Step(nodes, dir, p[|p| - 2], p[|p| - 1]);
    }
    forall x | x in found
      ensures Reaches(nodes, dir, start, x)
    {
      var v :| v in visited && Step(nodes, dir, v, x);
      ReachesStep(nodes, dir, start, v, x);
    }
  }

  /** `list(some_set)`: the elements once each, in an order the model leaves open. */
  method SetToList(s: set<string>) returns (r: seq<string>)
    ensures NoDups(r) && forall x :: x in r <==> x in s
  {
    var rest := s;
    r := [];
    while rest != {}
      invariant forall x :: x in s <==> x in rest || x in r
      invariant forall x :: x in rest ==> x !in r
      invariant NoDups(r)
      decreases |rest|
    {
      var x :| x in rest;
      r := r + [x];
      rest := rest - {x};
    }
  }

  /** The shared body of `get_prerequisites` and `get_dependents`. */
  method Related(graph: KnowledgeGraph, dir: Direction, concept_id: string, recursive: bool) returns (r: seq<string>)
    ensures concept_id !in graph.nodes.at ==> r == []
    ensures concept_id in graph.nodes.at && !recursive ==> r == Edges(graph.nodes.at[concept_id], dir)
    ensures concept_id in graph.nodes.at && recursive ==>
      NoDups(r) && forall b :: b in r <==> Reaches(graph.nodes.at, dir, concept_id, b)
  {
    if concept_id !in graph.nodes.at {
      return [];
    }
    if !recursive {
      return Edges(graph.nodes.at[concept_id], dir);
    }
    var found := Closure(graph.nodes.at, dir, concept_id);
    r := SetToList(found);
  }

  /** `get_prerequisites`: direct parents, or every ancestor once when recursive. */
  method GetPrerequisites(graph: KnowledgeGraph, concept_id: string, recursive: bool) returns (r: seq<string>)
    ensures concept_id !in graph.nodes.at ==> r == []
    ensures concept_id in graph.nodes.at && !recursive ==> r == graph.nodes.at[concept_id].parents
    ensures concept_id in graph.nodes.at && recursive ==>
      NoDups(r) && forall b :: b in r <==> Reaches(graph.nodes.at, Parents, concept_id, b)
  {
    r := Related(graph, Parents, concept_id, recursive);
  }

  /** `get_dependents`: direct children, or every descendant once when recursive. */
  method GetDependents(graph: KnowledgeGraph, concept_id: string, recursive: bool) returns (r: seq<string>)
    ensures concept_id !in graph.nodes.at ==> r == []
    ensures concept_id in graph.nodes.at && !recursive ==> r == graph.nodes.at[concept_id].children
    ensures concept_id in graph.nodes.at && recursive ==>
      NoDups(r) && forall b :: b in r <==> Reaches(graph.nodes.at, Children, concept_id, b)
  {
    r := Related(graph, Children, concept_id, recursive);
  }

  // ================================================================ weak prerequisite

  /** The `threshold` default of `find_weak_prerequisite` (the learning threshold). */
  const WEAK_THRESHOLD: real := 0.40

  /** The first listed prerequisite that has no mastery record (the loop's early return). */
  function FirstUnattempted(ps: seq<string>, mastery: map<string, ConceptMastery>): (r: Option<string>)
    ensures r.None? <==> forall p :: p in ps ==> p in mastery
    ensures r.Some? ==> r.value !in mastery
    ensures r.Some? ==> exists i :: 0 <= i < |ps| && ps[i] == r.value && forall j :: 0 <= j < i ==> ps[j] in mastery
  {
    if ps == [] then None
    else if ps[0] !in mastery then Some(ps[0])
    else
      var r := FirstUnattempted(ps[1..], mastery);
      if r.Some? then
        ghost var i :| 0 <= i < |ps[1..]| && ps[1..][i] == r.value && forall j :: 0 <= j < i ==> ps[1..][j] in mastery;
        assert ps[i + 1] == r.value && forall j :: 0 <= j < i + 1 ==> ps[j] in mastery;
        r
      else r
  }

  /** The running minimum of the loop: the first listed prerequisite with the lowest P_L. */
  function Weakest(ps: seq<string>, mastery: map<string, ConceptMastery>): (w: string)
    requires ps != [] && forall p :: p in ps ==> p in mastery
    ensures w in ps
    decreases |ps|
  {
    if |ps| == 1 then ps[0]
    else
      var w := Weakest(ps[..|ps| - 1], mastery);
      if mastery[Last(ps)].P_L < mastery[w].P_L then Last(ps) else w
  }

  /** `Weakest` has the lowest P_L of the list, and every id listed before its first occurrence a higher one. */
  lemma {:induction false} WeakestIsFirstMinimum(ps: seq<string>, mastery: map<string, ConceptMastery>)
    requires ps != [] && forall p :: p in ps ==> p in mastery
    ensures forall j :: 0 <= j < |ps| ==> mastery[Weakest(ps, mastery)].P_L <= mastery[ps[j]].P_L
    ensures forall j :: 0 <= j < IndexOf(ps, Weakest(ps, mastery)) ==>
      mastery[Weakest(ps, mastery)].P_L < mastery[ps[j]].P_L
    decreases |ps|
  {
    var w := Weakest(ps, mastery);
    if |ps| > 1 {
      var init := ps[..|ps| - 1];
      InitLast(ps);
      WeakestIsFirstMinimum(init, mastery);
      var v := Weakest(init, mastery);
      assert forall j :: 0 <= j < |init| ==> ps[j] == init[j];
      if w == v {
        IndexOfPrefix(init, [Last(ps)], v);
      }
    }
  }

  ghost function PathSet(path: seq<string>): set<string> {
    set x | x in path
  }

  /** Recursing into a parent extends the walk and leaves fewer concepts off it. */
  lemma WeakStep(nodes: map<string, ConceptNode>, c: string, w: string, path: seq<string>)
    requires Acyclic(nodes, Parents) && IsPath(nodes, Parents, path + [c])
    requires c in nodes && w in nodes[c].parents
    ensures IsPath(nodes, Parents, (path + [c]) + [w])
    ensures |nodes.Keys - PathSet(path + [c])| < |nodes.Keys - PathSet(path)|
  {
    PathExtend(nodes, Parents, path + [c], w);
    NoDupsLastNew(path, c);
    assert PathSet(path + [c]) == PathSet(path) + {c};
    RemainingShrinks(nodes.Keys, PathSet(path), PathSet(path + [c]), c);
  }

  /**
   * What `find_weak_prerequisite` returns for `c`, reached along the parent walk `path`:
   * None for an unknown or parentless concept; the first parent without a record; else the
   * first weakest parent if it is below the threshold; else whatever (truthy) the search
   * from that parent finds.
   */
  ghost function WeakFrom(nodes: map<string, ConceptNode>, mastery: map<string, ConceptMastery>, c: string,
                          threshold: real, path: seq<string>): Option<string>
    requires Acyclic(nodes, Parents) && IsPath(nodes, Parents, path + [c])
    decreases |nodes.Keys - PathSet(path)|
  {
    if c !in nodes then None
    else
      var ps := nodes[c].parents;
      if ps == [] then None
      else
        match FirstUnattempted(ps, mastery)
        case Some(p) => Some(p)
        case None =>
          var w := Weakest(ps, mastery);
          if mastery[w].P_L < threshold then Some(w)
          else if w == "" then None
          else
            WeakStep(nodes, c, w, path);
            var deeper := WeakFrom(nodes, mastery, w, threshold, path + [c]);
            if deeper.Some? && deeper.value != "" then deeper else None
  }

  /** The recursion of `find_weak_prerequisite`, one call per concept on the parent walk. */
  method FindWeakFrom(graph: KnowledgeGraph, mastery: map<string, ConceptMastery>, c: string,
                      threshold: real, ghost path: seq<string>) returns (r: Option<string>)
    requires Acyclic(graph.nodes.at, Parents) && IsPath(graph.nodes.at, Parents, path + [c])
    ensures r == WeakFrom(graph.nodes.at, mastery, c, threshold, path)
    decreases |graph.nodes.at.Keys - PathSet(path)|
  {
    if c !in graph.nodes.at {
      return None;
    }
    var ps := GetPrerequisites(graph, c, false);
    if ps == [] {
      return None;
    }
    var unattempted, weakest, weakestMastery := ScanPrerequisites(ps, mastery);
    if unattempted.Some? {
      return unattempted;
    }
    if weakestMastery < threshold {
      return Some(weakest);
    }
    if weakest != "" {
      WeakStep(graph.nodes.at, c, weakest, path);
      var deeper := FindWeakFrom(graph, mastery, weakest, threshold, path + [c]);
      if deeper.Some? && deeper.value != "" {
        return deeper;
      }
    }
    return None;
  }

  /**
   * The `for prereq_id in prerequisites` loop: stop at the first id without a record, else
   * keep the first id with the strictly lowest P_L seen so far.
   */
  method ScanPrerequisites(ps: seq<string>, mastery: map<string, ConceptMastery>)
    returns (unattempted: Option<string>, weakest: string, weakestMastery: real)
    requires ps != []
    ensures unattempted == FirstUnattempted(ps, mastery)
    ensures unattempted.None? ==>
      weakest == Weakest(ps, mastery) && weakestMastery == mastery[weakest].P_L
  {
    var found: Option<string> := None;
    weakestMastery := 0.0;
    weakest := "";
    var i := 0;
    while i < |ps|
      invariant 0 <= i <= |ps|
      invariant forall j :: 0 <= j < i ==> ps[j] in mastery
      invariant i == 0 <==> found.None?
      invariant i > 0 ==> found == Some(Weakest(ps[..i], mastery))
      invariant i > 0 ==> weakestMastery == mastery[found.value].P_L
    {
      var p := ps[i];
      if p !in mastery {
        FirstUnattemptedAt(ps, mastery, i);
        return Some(p), weakest, weakestMastery;
      }
      assert ps[..i + 1][..i] == ps[..i];
      if found.None? || mastery[p].P_L < weakestMastery {
        weakestMastery := mastery[p].P_L;
        found := Some(p);
      }
      i := i + 1;
    }
    assert ps[..|ps|] == ps;
    unattempted := None;
    weakest := found.value;
  }

  lemma FirstUnattemptedAt(ps: seq<string>, mastery: map<string, ConceptMastery>, i: nat)
    requires i < |ps| && ps[i] !in mastery && forall j :: 0 <= j < i ==> ps[j] in mastery
    ensures FirstUnattempted(ps, mastery) == Some(ps[i])
  {
    var r := FirstUnattempted(ps, mastery);
    var k :| 0 <= k < |ps| && ps[k] == r.value && forall j :: 0 <= j < k ==> ps[j] in mastery;
    assert k == i;
  }

  /**
   * `find_weak_prerequisite` on a graph without prerequisite cycles (on a cycle the source
   * recurses without end).
   */
  method FindWeakPrerequisite(graph: KnowledgeGraph, mastery: map<string, ConceptMastery>,
                              failed: string, threshold: real) returns (r: Option<string>)
    requires Acyclic(graph.nodes.at, Parents)
    ensures r == WeakFrom(graph.nodes.at, mastery, failed, threshold, [])
    ensures failed !in graph.nodes.at || graph.nodes.at[failed].parents == [] ==> r == None
    ensures failed in graph.nodes.at ==>
      var ps := graph.nodes.at[failed].parents;
      FirstUnattempted(ps, mastery).Some? ==> r == FirstUnattempted(ps, mastery)
  {
    assert IsPath(graph.nodes.at, Parents, [] + [failed]);
    r := FindWeakFrom(graph, mastery, failed, threshold, []);
  }

  /** Whatever the search returns is an ancestor of the failed concept that is weak or untried. */
  lemma {:induction false} WeakIsWeakAncestor(nodes: map<string, ConceptNode>, mastery: map<string, ConceptMastery>,
                                              c: string, threshold: real, path: seq<string>)
    requires Acyclic(nodes, Parents) && IsPath(nodes, Parents, path + [c])
    ensures var r := WeakFrom(nodes, mastery, c, threshold, path);
      r.Some? ==> Reaches(nodes, Parents, c, r.value) && (r.value !in mastery || mastery[r.value].P_L < threshold)
    decreases |nodes.Keys - PathSet(path)|
  {
    var r := WeakFrom(nodes, mastery, c, threshold, path);
    if r.Some? {
      var ps := nodes[c].parents;
      match FirstUnattempted(ps, mastery)
      case Some(p) =>
        ReachesStep(nodes, Parents, c, c, p);
      case None =>
        var w := Weakest(ps, mastery);
        if mastery[w].P_L < threshold {
          ReachesStep(nodes, Parents, c, c, w);
        } else {
          WeakStep(nodes, c, w, path);
          WeakIsWeakAncestor(nodes, mastery, w, threshold, path + [c]);
          ReachesPrepend(nodes, Parents, c, w, r.value);
        }
    }
  }

  /** limits <- derivatives <- chain_rule <- related_rates, each concept one parent deep. */
  function Calculus(): map<string, ConceptNode> {
    map[
      "limits" := NewConceptNode("limits", "Limits").(children := ["derivatives"]),
      "derivatives" := NewConceptNode("derivatives", "Derivatives").(parents := ["limits"], children := ["chain_rule"]),
      "chain_rule" := NewConceptNode("chain_rule", "Chain Rule").(parents := ["derivatives"], children := ["related_rates"]),
      "related_rates" := NewConceptNode("related_rates", "Related Rates").(parents := ["chain_rule"])
    ]
  }

  function Record(p_l: Prob): ConceptMastery {
    DefaultConceptMastery().(P_L := p_l)
  }

  lemma CalculusAcyclic()
    ensures Acyclic(Calculus(), Parents)
  {
    var g := Calculus();
    var d: map<string, nat> := map["limits" := 0, "derivatives" := 1, "chain_rule" := 2, "related_rates" := 3];
    assert DepthOk(g, d, "limits") && DepthOk(g, d, "derivatives");
    assert DepthOk(g, d, "chain_rule") && DepthOk(g, d, "related_rates");
    RankedImpliesAcyclic(g, d);
  }

  /**
   * Failing chain_rule: a weak direct prerequisite is returned at once; a strong one is passed
   * through to its own prerequisite; all strong gives None; an untried prerequisite is returned;
   * a root concept gives None.
   */
  lemma CalculusRegression()
    ensures Acyclic(Calculus(), Parents)
    ensures WeakFrom(Calculus(), map["limits" := Record(0.90), "derivatives" := Record(0.30), "chain_rule" := Record(0.20)],
                     "chain_rule", WEAK_THRESHOLD, []) == Some("derivatives")
    ensures WeakFrom(Calculus(), map["limits" := Record(0.25), "derivatives" := Record(0.85), "chain_rule" := Record(0.20)],
                     "chain_rule", WEAK_THRESHOLD, []) == Some("limits")
    ensures WeakFrom(Calculus(), map["limits" := Record(0.90), "derivatives" := Record(0.85), "chain_rule" := Record(0.30)],
                     "chain_rule", WEAK_THRESHOLD, []) == None
    ensures WeakFrom(Calculus(), map["chain_rule" := Record(0.20)], "chain_rule", WEAK_THRESHOLD, []) == Some("derivatives")
    ensures WeakFrom(Calculus(), map["limits" := Record(0.20)], "limits", WEAK_THRESHOLD, []) == None
  {
    CalculusAcyclic();
    var g := Calculus();
    assert IsPath(g, Parents, [] + ["chain_rule"]);
    assert IsPath(g, Parents, ["chain_rule"] + ["derivatives"]) by {
      assert Step(g, Parents, "chain_rule", "derivatives");
    }
    assert IsPath(g, Parents, ["limits"]);
  }

  // ================================================================ unlockable concepts

  /** The sort key `graph.nodes[cid].depth`; every id the source sorts is a known concept. */
  function DepthKey(nodes: map<string, ConceptNode>, k: string): nat {
    if k in nodes then nodes[k].depth else 0
  }

  ghost predicate SortedByDepth(nodes: map<string, ConceptNode>, s: seq<string>) {
    forall i, j :: 0 <= i < j < |s| ==> DepthKey(nodes, s[i]) <= DepthKey(nodes, s[j])
  }

  /** The ids of `s` at depth `v`, in the order `s` lists them. */
  function AtDepth(nodes: map<string, ConceptNode>, s: seq<string>, v: nat): seq<string> {
    if s == [] then []
    else AtDepth(nodes, s[..|s| - 1], v) + (if DepthKey(nodes, Last(s)) == v then [Last(s)] else [])
  }

  lemma {:induction false} AtDepthConcat(nodes: map<string, ConceptNode>, a: seq<string>, b: seq<string>, v: nat)
    ensures AtDepth(nodes, a + b, v) == AtDepth(nodes, a, v) + AtDepth(nodes, b, v)
    decreases |b|
  {
    if b == [] {
      assert a + b == a;
    } else {
      assert (a + b)[..|a + b| - 1] == a + b[..|b| - 1];
      assert Last(a + b) == Last(b);
      AtDepthConcat(nodes, a, b[..|b| - 1], v);
    }
  }

  lemma {:induction false} AtDepthNone(nodes: map<string, ConceptNode>, s: seq<string>, v: nat)
    requires forall y :: y in s ==> DepthKey(nodes, y) != v
    ensures AtDepth(nodes, s, v) == []
    decreases |s|
  {
    if s != [] {
      assert forall y :: y in s[..|s| - 1] ==> y in s;
      AtDepthNone(nodes, s[..|s| - 1], v);
    }
  }

  /** Put `x` after every id no deeper than it: one step of a stable sort by depth. */
  function InsertByDepth(nodes: map<string, ConceptNode>, x: string, s: seq<string>): (r: seq<string>)
    ensures multiset(r) == multiset(s) + multiset{x}
  {
    if s == [] then [x]
    else if DepthKey(nodes, s[0]) > DepthKey(nodes, x) then [x] + s
    else
      assert s == [s[0]] + s[1..];
      [s[0]] + InsertByDepth(nodes, x, s[1..])
  }

  /** `list.sort(key=depth)`: Python's sort is stable, so ids of equal depth keep their order. */
  function SortByDepth(nodes: map<string, ConceptNode>, s: seq<string>): (r: seq<string>)
    ensures multiset(r) == multiset(s)
  {
    if s == [] then []
    else
      assert s == s[..|s| - 1] + [Last(s)];
      InsertByDepth(nodes, Last(s), SortByDepth(nodes, s[..|s| - 1]))
  }

  lemma {:induction false} InsertSorted(nodes: map<string, ConceptNode>, x: string, s: seq<string>)
    requires SortedByDepth(nodes, s)
    ensures SortedByDepth(nodes, InsertByDepth(nodes, x, s))
    decreases |s|
  {
    if s != [] && DepthKey(nodes, s[0]) <= DepthKey(nodes, x) {
      InsertSorted(nodes, x, s[1..]);
      var t := InsertByDepth(nodes, x, s[1..]);
      forall y | y in t
        ensures DepthKey(nodes, s[0]) <= DepthKey(nodes, y)
      {
        assert y in multiset(t);
      }
    }
  }

  lemma AtDepthSingle(nodes: map<string, ConceptNode>, x: string, v: nat)
    ensures AtDepth(nodes, [x], v) == (if DepthKey(nodes, x) == v then [x] else [])
  {
    assert [x][..0] == [];
  }

  /** Inserting in front of a deeper list: nothing of `s` shares `x`'s depth. */
  lemma InsertAtDepthFront(nodes: map<string, ConceptNode>, x: string, s: seq<string>, v: nat)
    requires SortedByDepth(nodes, s) && s != [] && DepthKey(nodes, s[0]) > DepthKey(nodes, x)
    ensures AtDepth(nodes, [x] + s, v) == AtDepth(nodes, s, v) + AtDepth(nodes, [x], v)
  {
    AtDepthConcat(nodes, [x], s, v);
    AtDepthSingle(nodes, x, v);
    if DepthKey(nodes, x) == v {
      forall y | y in s
        ensures DepthKey(nodes, y) != v
      {
        var j :| 0 <= j < |s| && s[j] == y;
        assert DepthKey(nodes, s[0]) <= DepthKey(nodes, s[j]);
      }
      AtDepthNone(nodes, s, v);
    }
  }

  lemma {:induction false} InsertAtDepth(nodes: map<string, ConceptNode>, x: string, s: seq<string>, v: nat)
    requires SortedByDepth(nodes, s)
    ensures AtDepth(nodes, InsertByDepth(nodes, x, s), v) == AtDepth(nodes, s, v) + AtDepth(nodes, [x], v)
    decreases |s|
  {
    if s == [] {
      assert AtDepth(nodes, s, v) == [];
    } else if DepthKey(nodes, s[0]) > DepthKey(nodes, x) {
      InsertAtDepthFront(nodes, x, s, v);
    } else {
      InsertAtDepth(nodes, x, s[1..], v);
      InsertAtDepthPast(nodes, x, s, v);
    }
  }

  /** Inserting past the head `s[0]`, given the claim for the tail. */
  lemma InsertAtDepthPast(nodes: map<string, ConceptNode>, x: string, s: seq<string>, v: nat)
    requires s != [] && DepthKey(nodes, s[0]) <= DepthKey(nodes, x)
    requires AtDepth(nodes, InsertByDepth(nodes, x, s[1..]), v) == AtDepth(nodes, s[1..], v) + AtDepth(nodes, [x], v)
    ensures AtDepth(nodes, InsertByDepth(nodes, x, s), v) == AtDepth(nodes, s, v) + AtDepth(nodes, [x], v)
  {
    InsertPastHead(nodes, x, s);
    HeadTail(s);
    ConsAtDepth(nodes, s[0], InsertByDepth(nodes, x, s[1..]), s[1..], AtDepth(nodes, [x], v), v);
  }

  /** Putting the same id in front of two lists keeps an equation between their filtered forms. */
  lemma ConsAtDepth(nodes: map<string, ConceptNode>, h: string, t: seq<string>, u: seq<string>, w: seq<string>, v: nat)
    requires AtDepth(nodes, t, v) == AtDepth(nodes, u, v) + w
    ensures AtDepth(nodes, [h] + t, v) == AtDepth(nodes, [h] + u, v) + w
  {
    AtDepthConcat(nodes, [h], t, v);
    AtDepthConcat(nodes, [h], u, v);
    var a := AtDepth(nodes, [h], v);
    assert a + (AtDepth(nodes, u, v) + w) == (a + AtDepth(nodes, u, v)) + w;
  }

  lemma InsertPastHead(nodes: map<string, ConceptNode>, x: string, s: seq<string>)
    requires s != [] && DepthKey(nodes, s[0]) <= DepthKey(nodes, x)
    ensures InsertByDepth(nodes, x, s) == [s[0]] + InsertByDepth(nodes, x, s[1..])
  {
  }

  lemma HeadTail(s: seq<string>)
    requires s != []
    ensures s == [s[0]] + s[1..]
  {
  }

  /** The sort orders by depth, keeps every id, and keeps the list order among equal depths. */
  lemma {:induction false} SortByDepthCorrect(nodes: map<string, ConceptNode>, s: seq<string>)
    ensures SortedByDepth(nodes, SortByDepth(nodes, s))
    ensures multiset(SortByDepth(nodes, s)) == multiset(s)
    ensures forall v :: AtDepth(nodes, SortByDepth(nodes, s), v) == AtDepth(nodes, s, v)
    decreases |s|
  {
    if s != [] {
      var init := s[..|s| - 1];
      SortByDepthCorrect(nodes, init);
      InsertSorted(nodes, Last(s), SortByDepth(nodes, init));
      forall v
        ensures AtDepth(nodes, SortByDepth(nodes, s), v) == AtDepth(nodes, s, v)
      {
        InsertAtDepth(nodes, Last(s), SortByDepth(nodes, init), v);
        AtDepthSingle(nodes, Last(s), v);
      }
    }
  }

  lemma NoDupsCons(x: string, t: seq<string>)
    requires NoDups(t) && x !in t
    ensures NoDups([x] + t)
  {
    forall i, j | 0 <= i < j < |[x] + t|
      ensures ([x] + t)[i] != ([x] + t)[j]
    {
      if i > 0 {
        assert ([x] + t)[i] == t[i - 1];
      }
      assert ([x] + t)[j] == t[j - 1];
    }
  }

  lemma {:induction false} InsertNoDups(nodes: map<string, ConceptNode>, x: string, s: seq<string>)
    requires NoDups(s) && x !in s
    ensures NoDups(InsertByDepth(nodes, x, s))
    decreases |s|
  {
    if s == [] {
    } else if DepthKey(nodes, s[0]) > DepthKey(nodes, x) {
      NoDupsCons(x, s);
    } else {
      assert s == [s[0]] + s[1..];
      assert NoDups(s[1..]) && s[0] !in s[1..];
      InsertNoDups(nodes, x, s[1..]);
      var t := InsertByDepth(nodes, x, s[1..]);
      assert s[0] !in multiset(t);
      NoDupsCons(s[0], t);
    }
  }

  lemma {:induction false} SortNoDups(nodes: map<string, ConceptNode>, s: seq<string>)
    requires NoDups(s)
    ensures NoDups(SortByDepth(nodes, s))
    decreases |s|
  {
    if s != [] {
      var init := s[..|s| - 1];
      assert s == init + [Last(s)];
      NoDupsLastNew(init, Last(s));
      SortNoDups(nodes, init);
      assert Last(s) !in multiset(SortByDepth(nodes, init));
      InsertNoDups(nodes, Last(s), SortByDepth(nodes, init));
    }
  }

  /**
   * Not unlocked, not mastered, and every prerequisite mastered. For a root the source appends
   * without looking at `mastered`; with no parents the condition holds vacuously.
   */
  predicate Unlockable(nodes: map<string, ConceptNode>, mastered: set<string>, unlocked: set<string>, k: string)
    requires k in nodes
  {
    k !in unlocked && k !in mastered && forall p :: p in nodes[k].parents ==> p in mastered
  }

  /** The ids the loop over `graph.nodes.items()` appends, in dict order. */
  function Candidates(order: seq<string>, nodes: map<string, ConceptNode>, mastered: set<string>,
                      unlocked: set<string>): seq<string>
    requires forall k :: k in order ==> k in nodes
  {
    if order == [] then []
    else
      Candidates(order[..|order| - 1], nodes, mastered, unlocked)
      + (if Unlockable(nodes, mastered, unlocked, Last(order)) then [Last(order)] else [])
  }

  /** `get_next_unlockable_concepts`: the candidates, stably sorted by depth. */
  function NextUnlockable(nodes: ConceptMap, mastered: set<string>, unlocked: set<string>): seq<string>
    requires nodes.Valid()
  {
    SortByDepth(nodes.at, Candidates(nodes.order, nodes.at, mastered, unlocked))
  }

  lemma {:induction false} CandidatesExact(order: seq<string>, nodes: map<string, ConceptNode>, mastered: set<string>,
                                           unlocked: set<string>)
    requires forall k :: k in order ==> k in nodes
    ensures forall k :: k in Candidates(order, nodes, mastered, unlocked) <==>
      k in order && Unlockable(nodes, mastered, unlocked, k)
    ensures NoDups(order) ==> NoDups(Candidates(order, nodes, mastered, unlocked))
    decreases |order|
  {
    if order != [] {
      var init := order[..|order| - 1];
      assert order == init + [Last(order)];
      CandidatesExact(init, nodes, mastered, unlocked);
      if NoDups(order) {
        NoDupsLastNew(init, Last(order));
        if Unlockable(nodes, mastered, unlocked, Last(order)) {
          NoDupsAppend(Candidates(init, nodes, mastered, unlocked), Last(order));
        }
      }
    }
  }

  /**
   * The result is exactly the known concepts that are neither unlocked nor mastered and whose
   * prerequisites are all mastered, each once, shallowest first, ties in dict order.
   */
  lemma NextUnlockableSpec(nodes: ConceptMap, mastered: set<string>, unlocked: set<string>)
    requires nodes.Valid()
    ensures var r := NextUnlockable(nodes, mastered, unlocked);
      && (forall k :: k in r <==> k in nodes.at && Unlockable(nodes.at, mastered, unlocked, k))
      && NoDups(r)
      && SortedByDepth(nodes.at, r)
      && forall v :: AtDepth(nodes.at, r, v) == AtDepth(nodes.at, Candidates(nodes.order, nodes.at, mastered, unlocked), v)
  {
    var c := Candidates(nodes.order, nodes.at, mastered, unlocked);
    CandidatesExact(nodes.order, nodes.at, mastered, unlocked);
    SortByDepthCorrect(nodes.at, c);
    SortNoDups(nodes.at, c);
    forall k
      ensures k in NextUnlockable(nodes, mastered, unlocked) <==> k in c
    {
      assert k in NextUnlockable(nodes, mastered, unlocked) <==> k in multiset(c);
    }
  }

  /**
   * The head of the result, which the orchestrator moves on to, is an unlockable concept of
   * least depth; the result is empty exactly when no known concept is unlockable.
   */
  lemma NextUnlockableHead(nodes: ConceptMap, mastered: set<string>, unlocked: set<string>)
    requires nodes.Valid()
    ensures var r := NextUnlockable(nodes, mastered, unlocked);
      && (r == [] <==> forall k :: k in nodes.at ==> !Unlockable(nodes.at, mastered, unlocked, k))
      && (r != [] ==>
            && r[0] in nodes.at && Unlockable(nodes.at, mastered, unlocked, r[0])
            && forall k :: k in nodes.at && Unlockable(nodes.at, mastered, unlocked, k) ==>
                 nodes.at[r[0]].depth <= nodes.at[k].depth)
  {
    var r := NextUnlockable(nodes, mastered, unlocked);
    NextUnlockableSpec(nodes, mastered, unlocked);
    if r != [] {
      assert r[0] in r;
      forall k | k in nodes.at && Unlockable(nodes.at, mastered, unlocked, k)
        ensures nodes.at[r[0]].depth <= nodes.at[k].depth
      {
        SortedHeadLeast(nodes.at, r, k);
      }
    } else {
      forall k | k in nodes.at
        ensures !Unlockable(nodes.at, mastered, unlocked, k)
      {
        assert k !in r;
      }
    }
  }

  lemma SortedHeadLeast(nodes: map<string, ConceptNode>, s: seq<string>, k: string)
    requires SortedByDepth(nodes, s) && k in s
    ensures DepthKey(nodes, s[0]) <= DepthKey(nodes, k)
  {
    var j :| 0 <= j < |s| && s[j] == k;
    if j > 0 {
      assert DepthKey(nodes, s[0]) <= DepthKey(nodes, s[j]);
    }
  }

  /** The loop of `get_next_unlockable_concepts`, then the sort by depth. */
  method GetNextUnlockableConcepts(graph: KnowledgeGraph, mastered: set<string>, unlocked: set<string>)
    returns (r: seq<string>)
    requires graph.nodes.Valid()
    ensures r == NextUnlockable(graph.nodes, mastered, unlocked)
  {
    var order := graph.nodes.order;
    var unlockable: seq<string> := [];
    var i := 0;
    while i < |order|
      invariant 0 <= i <= |order|
      invariant unlockable == Candidates(order[..i], graph.nodes.at, mastered, unlocked)
    {
      var id := order[i];
      var node := graph.nodes.at[id];
      assert order[..i + 1][..i] == order[..i];
      if id !in unlocked && id !in mastered {
        if node.parents == [] {
          unlockable := unlockable + [id];
        } else if forall p :: p in node.parents ==> p in mastered {
          unlockable := unlockable + [id];
        }
      }
      i := i + 1;
    }
    assert order[..|order|] == order;
    r := SortByDepth(graph.nodes.at, unlockable);
  }

  lemma {:induction false} InsertAtEnd(nodes: map<string, ConceptNode>, x: string, s: seq<string>)
    requires forall j :: 0 <= j < |s| ==> DepthKey(nodes, s[j]) <= DepthKey(nodes, x)
    ensures InsertByDepth(nodes, x, s) == s + [x]
    decreases |s|
  {
    if s != [] {
      InsertAtEnd(nodes, x, s[1..]);
      InsertPastHead(nodes, x, s);
      HeadTail(s);
    }
  }

  /** A list already in depth order is left as it is, so sorting twice is sorting once. */
  lemma {:induction false} SortFixesSorted(nodes: map<string, ConceptNode>, s: seq<string>)
    requires SortedByDepth(nodes, s)
    ensures SortByDepth(nodes, s) == s
    decreases |s|
  {
    if s != [] {
      var init := s[..|s| - 1];
      InitLast(s);
      assert SortedByDepth(nodes, init);
      SortFixesSorted(nodes, init);
      InsertAtEnd(nodes, Last(s), init);
    }
  }

  lemma SortIdempotent(nodes: map<string, ConceptNode>, s: seq<string>)
    ensures SortByDepth(nodes, SortByDepth(nodes, s)) == SortByDepth(nodes, s)
  {
    SortByDepthCorrect(nodes, s);
    SortFixesSorted(nodes, SortByDepth(nodes, s));
  }

  function IfUnlockable(nodes: map<string, ConceptNode>, mastered: set<string>, unlocked: set<string>, k: string): seq<string>
    requires k in nodes
  {
    if Unlockable(nodes, mastered, unlocked, k) then [k] else []
  }

  lemma CandidatesSnoc(order: seq<string>, x: string, nodes: map<string, ConceptNode>, mastered: set<string>,
                       unlocked: set<string>)
    requires forall k :: k in order + [x] ==> k in nodes
    ensures Candidates(order + [x], nodes, mastered, unlocked)
         == Candidates(order, nodes, mastered, unlocked) + IfUnlockable(nodes, mastered, unlocked, x)
  {
    assert (order + [x])[..|order|] == order;
  }

  lemma ShapedCandidates(g: ConceptMap, a: string, b: string, c: string, e: string,
                         mastered: set<string>, unlocked: set<string>)
    requires DiamondShaped(g, a, b, c, e)
    ensures forall k :: k in g.order ==> k in g.at
    ensures Candidates(g.order, g.at, mastered, unlocked)
      == IfUnlockable(g.at, mastered, unlocked, a) + IfUnlockable(g.at, mastered, unlocked, b)
         + IfUnlockable(g.at, mastered, unlocked, c) + IfUnlockable(g.at, mastered, unlocked, e)
  {
    var n := g.at;
    assert g.order == [a, b, c] + [e];
    CandidatesSnoc([a, b, c], e, n, mastered, unlocked);
    assert [a, b, c] == [a, b] + [c];
    CandidatesSnoc([a, b], c, n, mastered, unlocked);
    assert [a, b] == [a] + [b];
    CandidatesSnoc([a], b, n, mastered, unlocked);
    assert [a] == [] + [a];
    CandidatesSnoc([], a, n, mastered, unlocked);
  }

  /** Each diamond concept's own unlock condition, with its prerequisites written out. */
  lemma ShapedConditions(g: ConceptMap, a: string, b: string, c: string, e: string,
                         mastered: set<string>, unlocked: set<string>)
    requires DiamondShaped(g, a, b, c, e)
    ensures IfUnlockable(g.at, mastered, unlocked, a) == (if a !in unlocked && a !in mastered then [a] else [])
    ensures IfUnlockable(g.at, mastered, unlocked, b)
         == (if b !in unlocked && b !in mastered && a in mastered then [b] else [])
    ensures IfUnlockable(g.at, mastered, unlocked, c)
         == (if c !in unlocked && c !in mastered && a in mastered then [c] else [])
    ensures IfUnlockable(g.at, mastered, unlocked, e)
         == (if e !in unlocked && e !in mastered && b in mastered && c in mastered then [e] else [])
  {
    assert [b, c][0] == b && [b, c][1] == c;
  }

  /** The cascade rule on any diamond: the root is free, the middle two need it, the join needs both. */
  lemma ShapedUnlockRule(g: ConceptMap, a: string, b: string, c: string, e: string,
                   mastered: set<string>, unlocked: set<string>)
    requires DiamondShaped(g, a, b, c, e)
    ensures g.Valid()
    ensures NextUnlockable(g, mastered, unlocked)
      == (if a !in unlocked && a !in mastered then [a] else [])
       + (if b !in unlocked && b !in mastered && a in mastered then [b] else [])
       + (if c !in unlocked && c !in mastered && a in mastered then [c] else [])
       + (if e !in unlocked && e !in mastered && b in mastered && c in mastered then [e] else [])
  {
    ShapedValid(g, a, b, c, e);
    ShapedCandidates(g, a, b, c, e, mastered, unlocked);
    ShapedConditions(g, a, b, c, e, mastered, unlocked);
    var cs := Candidates(g.order, g.at, mastered, unlocked);
    assert SortedByDepth(g.at, cs) by {
      CandidatesExact(g.order, g.at, mastered, unlocked);
    }
    SortFixesSorted(g.at, cs);
  }

  /** The cascade rule on the diamond: A is free, B and C need A, D needs both B and C. */
  lemma DiamondRule(mastered: set<string>, unlocked: set<string>)
    ensures Diamond().Valid()
    ensures NextUnlockable(Diamond(), mastered, unlocked)
      == (if "A" !in unlocked && "A" !in mastered then ["A"] else [])
       + (if "B" !in unlocked && "B" !in mastered && "A" in mastered then ["B"] else [])
       + (if "C" !in unlocked && "C" !in mastered && "A" in mastered then ["C"] else [])
       + (if "D" !in unlocked && "D" !in mastered && "B" in mastered && "C" in mastered then ["D"] else [])
  {
    DiamondIsShaped();
    ShapedUnlockRule(Diamond(), "A", "B", "C", "D", mastered, unlocked);
  }

  /** Before anything is mastered only the root A is offered. */
  lemma DiamondCascadeRoot()
    ensures NextUnlockable(Diamond(), {}, {}) == ["A"]
  {
    DiamondRule({}, {});
  }

  /** Mastering A offers both of its dependents, in dict order. */
  lemma DiamondCascadeAfterRoot()
    ensures NextUnlockable(Diamond(), {"A"}, {"A"}) == ["B", "C"]
  {
    calc {
      NextUnlockable(Diamond(), {"A"}, {"A"});
      == { DiamondRule({"A"}, {"A"}); assert "B" !in {"A"} && "C" !in {"A"}; }
      [] + ["B"] + ["C"] + [];
      ==
      ["B", "C"];
    }
  }

  /** D waits while one of its two prerequisites is unmastered. */
  lemma DiamondCascadeWaits()
    ensures NextUnlockable(Diamond(), {"A", "B"}, {"A", "B", "C"}) == []
  {
    DiamondRule({"A", "B"}, {"A", "B", "C"});
  }

  /** D is offered once both B and C are mastered. */
  lemma DiamondCascadeJoin()
    ensures NextUnlockable(Diamond(), {"A", "B", "C"}, {"A", "B", "C"}) == ["D"]
  {
    DiamondRule({"A", "B", "C"}, {"A", "B", "C"});
  }

  /** An already unlocked concept is not offered again. */
  lemma DiamondCascadeSkipsUnlocked()
    ensures NextUnlockable(Diamond(), {"A"}, {"A", "B"}) == ["C"]
  {
    DiamondRule({"A"}, {"A", "B"});
  }

  // ================================================================ cycle detection

  /**
   * Every known child of a finished concept finished before it: the order in which the DFS of
   * `validate_graph_is_dag` takes concepts off `rec_stack`.
   */
  ghost predicate DoneOrdered(nodes: map<string, ConceptNode>, done: seq<string>) {
    forall i, c :: 0 <= i < |done| && Step(nodes, Children, done[i], c) && c in nodes ==> c in done[..i]
  }

  /** Along a walk that starts at a finished concept, every known concept finished earlier than the one before it. */
  lemma {:induction false} WalkDescends(nodes: map<string, ConceptNode>, done: seq<string>, p: seq<string>, k: nat)
    requires DoneOrdered(nodes, done) && IsPath(nodes, Children, p) && p[0] in done && 0 < k < |p|
    ensures p[k - 1] in done
    ensures p[k] in nodes ==> p[k] in done && IndexOf(done, p[k]) < IndexOf(done, p[k - 1])
    decreases k
  {
    if k > 1 {
      WalkDescends(nodes, done, p, k - 1);
      PathSourcesPresent(nodes, Children, p, k - 1);
    }
    assert Step(nodes, Children, p[k - 1], p[k]);
    if p[k] in nodes {
      var i := IndexOf(done, p[k - 1]);
      assert p[k] in done[..i];
      var j :| 0 <= j < i && done[..i][j] == p[k];
      assert done[j] == p[k];
    }
  }

  lemma {:induction false} RankFalls(nodes: map<string, ConceptNode>, done: seq<string>, p: seq<string>, i: nat, j: nat)
    requires DoneOrdered(nodes, done) && IsPath(nodes, Children, p) && p[0] in done
    requires i < j < |p| && p[j] in nodes
    ensures p[i] in done && p[j] in done && IndexOf(done, p[j]) < IndexOf(done, p[i])
    decreases j - i
  {
    WalkDescends(nodes, done, p, j);
    if j - 1 > i {
      PathSourcesPresent(nodes, Children, p, j - 1);
      RankFalls(nodes, done, p, i, j - 1);
    }
  }

  /** No cycle can be reached from a finished concept. */
  lemma FinishedNoCycle(nodes: map<string, ConceptNode>, done: seq<string>, k: string)
    requires DoneOrdered(nodes, done) && k in done
    ensures !CycleReachable(nodes, Children, k)
  {
    forall p | IsPath(nodes, Children, p) && p[0] == k
      ensures NoDups(p)
    {
      if !NoDups(p) {
        var i, j :| 0 <= i < j < |p| && p[i] == p[j];
        PathSourcesPresent(nodes, Children, p, i);
        RankFalls(nodes, done, p, i, j);
        assert false;
      }
    }
  }

  /** `visited` and `rec_stack` during the DFS, with the concepts finished so far in finishing order. */
  ghost predicate DfsState(nodes: map<string, ConceptNode>, visited: set<string>, stack: set<string>, done: seq<string>) {
    && visited <= nodes.Keys && stack <= visited
    && (forall x :: x in done <==> x in visited && x !in stack)
    && DoneOrdered(nodes, done)
  }

  /** Finishing `id` once all its known children have finished keeps the finishing order. */
  lemma DoneFinish(nodes: map<string, ConceptNode>, done: seq<string>, id: string)
    requires DoneOrdered(nodes, done) && id in nodes
    requires forall c :: c in nodes[id].children && c in nodes ==> c in done
    ensures DoneOrdered(nodes, done + [id])
  {
    var d2 := done + [id];
    forall i, c | 0 <= i < |d2| && Step(nodes, Children, d2[i], c) && c in nodes
      ensures c in d2[..i]
    {
      if i < |done| {
        assert d2[i] == done[i] && d2[..i] == done[..i];
      } else {
        assert d2[..i] == done;
      }
    }
  }

  /**
   * `has_cycle`: true when `concept_id` is on the recursion stack or some known child reports a
   * cycle. A reported cycle can be reached from the concept the search started at; otherwise the
   * concept has finished and the stack is as it was.
   */
  method HasCycle(nodes: map<string, ConceptNode>, id: string, visited: set<string>, stack: set<string>,
                  ghost path: seq<string>, ghost done: seq<string>)
    returns (cyc: bool, visited': set<string>, stack': set<string>, ghost done': seq<string>)
    requires id in nodes && DfsState(nodes, visited, stack, done)
    requires IsPath(nodes, Children, path + [id])
    requires forall x :: x in stack <==> x in path
    ensures cyc ==> CycleReachable(nodes, Children, (path + [id])[0])
    ensures !cyc ==> DfsState(nodes, visited', stack', done') && stack' == stack
    ensures !cyc ==> visited <= visited' && id in done'
    decreases |nodes.Keys - visited|, 1
  {
    if id in stack {
      CycleOnWalk(nodes, Children, path, id);
      return true, visited, stack, done;
    }
    if id in visited {
      return false, visited, stack, done;
    }
    RemainingShrinks(nodes.Keys, visited, visited + {id}, id);
    cyc, visited', stack', done' := SearchChildren(nodes, id, visited, stack, path, done);
    if !cyc {
      DoneFinish(nodes, done', id);
      stack' := stack' - {id};
      done' := done' + [id];
    }
  }

  /**
   * The loop over `node.children` in `has_cycle`, once `id` is marked: recurse into each known
   * child and stop at the first that reports a cycle. Without one, every known child has finished.
   */
  method SearchChildren(nodes: map<string, ConceptNode>, id: string, visited: set<string>, stack: set<string>,
                        ghost path: seq<string>, ghost done: seq<string>)
    returns (cyc: bool, visited': set<string>, stack': set<string>, ghost done': seq<string>)
    requires id in nodes && id !in visited && DfsState(nodes, visited, stack, done)
    requires IsPath(nodes, Children, path + [id])
    requires forall x :: x in stack <==> x in path
    requires |nodes.Keys - (visited + {id})| < |nodes.Keys - visited|
    ensures cyc ==> CycleReachable(nodes, Children, (path + [id])[0])
    ensures !cyc ==> DfsState(nodes, visited', stack', done') && stack' == stack + {id}
    ensures !cyc ==> visited + {id} <= visited' && id !in done'
    ensures !cyc ==> forall c :: c in nodes[id].children && c in nodes ==> c in done'
    decreases |nodes.Keys - visited|, 0
  {
    visited' := visited + {id};
    stack' := stack + {id};
    done' := done;
    var children := nodes[id].children;
    var i := 0;
    while i < |children|
      invariant ChildState(nodes, id, visited, stack, i, visited', stack', done')
    {
      var c := children[i];
      if c in nodes {
        RemainingNoGrow(nodes.Keys, visited + {id}, visited');
        PathExtend(nodes, Children, path + [id], c);
        assert (path + [id]) + [c] == path + [id] + [c];
        var r, v2, s2;
        ghost var d2;
        r, v2, s2, d2 := HasCycle(nodes, c, visited', stack', path + [id], done');
        if r {
          return true, v2, s2, d2;
        }
        ChildAdvance(nodes, id, visited, stack, i, visited', stack', done', v2, s2, d2);
        visited', stack', done' := v2, s2, d2;
      } else {
        assert ChildState(nodes, id, visited, stack, i + 1, visited', stack', done');
      }
      i := i + 1;
    }
    forall c | c in children && c in nodes
      ensures c in done'
    {
      var j :| 0 <= j < |children| && children[j] == c;
    }
    cyc := false;
  }

  /** The loop state of `SearchChildren` after the first `i` children. */
  ghost predicate ChildState(nodes: map<string, ConceptNode>, id: string, visited: set<string>, stack: set<string>,
                             i: nat, visited': set<string>, stack': set<string>, done': seq<string>)
    requires id in nodes
  {
    && i <= |nodes[id].children|
    && DfsState(nodes, visited', stack', done')
    && stack' == stack + {id} && visited + {id} <= visited'
    && forall j :: 0 <= j < i && nodes[id].children[j] in nodes ==> nodes[id].children[j] in done'
  }

  /** A child that finished without a cycle: everything finished before is still finished. */
  lemma ChildAdvance(nodes: map<string, ConceptNode>, id: string, visited: set<string>, stack: set<string>, i: nat,
                     v1: set<string>, s1: set<string>, d1: seq<string>, v2: set<string>, s2: set<string>, d2: seq<string>)
    requires id in nodes && ChildState(nodes, id, visited, stack, i, v1, s1, d1)
    requires i < |nodes[id].children| && nodes[id].children[i] in nodes
    requires DfsState(nodes, v2, s2, d2) && s2 == s1 && v1 <= v2 && nodes[id].children[i] in d2
    ensures ChildState(nodes, id, visited, stack, i + 1, v2, s2, d2)
  {
    forall x | x in d1
      ensures x in d2
    {
      assert x in v1 && x !in s1;
    }
  }

  function CycleMessage(concept_id: string): string {
    "Cycle detected involving concept '" + concept_id + "'"
  }

  /** A cycle can be reached from the `i`-th concept in dict order, and from none before it. */
  ghost predicate FirstCycleAt(nodes: ConceptMap, i: int) {
    && 0 <= i < |nodes.order|
    && CycleReachable(nodes.at, Children, nodes.order[i])
    && forall j :: 0 <= j < i ==> !CycleReachable(nodes.at, Children, nodes.order[j])
  }

  /**
   * `validate_graph_is_dag`: valid exactly when the dependent edges have no cycle; otherwise the
   * message names the first concept in dict order from which a cycle can be reached.
   */
  method ValidateGraphIsDag(nodes: ConceptMap) returns (ok: bool, error: Option<string>)
    requires nodes.Valid()
    ensures ok <==> Acyclic(nodes.at, Children)
    ensures ok ==> error == None
    ensures !ok ==> exists i :: FirstCycleAt(nodes, i) && error == Some(CycleMessage(nodes.order[i]))
  {
    var visited: set<string> := {};
    ghost var done: seq<string> := [];
    var i := 0;
    while i < |nodes.order|
      invariant 0 <= i <= |nodes.order|
      invariant DfsState(nodes.at, visited, {}, done)
      invariant forall j :: 0 <= j < i ==> nodes.order[j] in visited
    {
      var k := nodes.order[i];
      if k !in visited {
        ghost var done0 := done;
        assert IsPath(nodes.at, Children, [] + [k]);
        var cyc: bool, stack: set<string>;
        cyc, visited, stack, done := HasCycle(nodes.at, k, visited, {}, [], done);
        if cyc {
          forall j | 0 <= j < i
            ensures !CycleReachable(nodes.at, Children, nodes.order[j])
          {
            FinishedNoCycle(nodes.at, done0, nodes.order[j]);
          }
          assert FirstCycleAt(nodes, i);
          AcyclicFromKeys(nodes.at, Children);
          return false, Some(CycleMessage(k));
        }
      }
      i := i + 1;
    }
    forall k | k in nodes.at
      ensures !CycleReachable(nodes.at, Children, k)
    {
      var j :| 0 <= j < |nodes.order| && nodes.order[j] == k;
      FinishedNoCycle(nodes.at, done, k);
    }
    AcyclicFromKeys(nodes.at, Children);
    return true, None;
  }

  function Linked(id: string, parents: seq<string>, children: seq<string>): ConceptNode {
    NewConceptNode(id, id).(parents := parents, children := children)
  }

  /** The chain A -> B -> C. */
  function Chain(): ConceptMap {
    ConceptMap(["A", "B", "C"],
      map["A" := Linked("A", [], ["B"]), "B" := Linked("B", ["A"], ["C"]), "C" := Linked("C", ["B"], [])])
  }

  /** The chain is a DAG: finishing C, then B, then A respects every dependent edge. */
  lemma ChainAcyclic()
    ensures Chain().Valid() && Acyclic(Chain().at, Children)
  {
    var g := Chain().at;
    var done := ["C", "B", "A"];
    assert DoneOrdered(g, done) by {
      forall i, c | 0 <= i < |done| && Step(g, Children, done[i], c) && c in g
        ensures c in done[..i]
      {
        if i == 1 {
          assert done[..i][0] == "C";
        } else if i == 2 {
          assert done[..i][1] == "B";
        }
      }
    }
    forall k | k in g
      ensures !CycleReachable(g, Children, k)
    {
      assert k in done;
      FinishedNoCycle(g, done, k);
    }
    AcyclicFromKeys(g, Children);
  }

  /** `A` lists itself as a dependent. */
  function SelfLoop(): ConceptMap {
    ConceptMap(["A"], map["A" := Linked("A", [], ["A"])])
  }

  /** A self-loop is a cycle, reported at A. */
  lemma SelfLoopRejected()
    ensures SelfLoop().Valid() && !Acyclic(SelfLoop().at, Children)
    ensures forall i :: FirstCycleAt(SelfLoop(), i) <==> i == 0
  {
    SelfLoopCycle(SelfLoop().at, Children, "A");
  }

  /** The ring A -> B -> C -> A. */
  function Ring(): ConceptMap {
    ConceptMap(["A", "B", "C"],
      map["A" := Linked("A", ["C"], ["B"]), "B" := Linked("B", ["A"], ["C"]), "C" := Linked("C", ["B"], ["A"])])
  }

  /** The ring is a cycle, and the message names A, the first concept in dict order. */
  lemma RingRejected()
    ensures Ring().Valid() && !Acyclic(Ring().at, Children)
    ensures forall i :: FirstCycleAt(Ring(), i) <==> i == 0
  {
    var g := Ring().at;
    var p := ["A", "B", "C", "A"];
    assert Step(g, Children, p[0], p[1]) && Step(g, Children, p[1], p[2]) && Step(g, Children, p[2], p[3]);
    assert IsPath(g, Children, p) && p[0] == p[3];
    assert CycleReachable(g, Children, "A");
  }
}
