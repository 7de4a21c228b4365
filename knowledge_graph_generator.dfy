/**
 * The deterministic half of knowledge-graph generation: turning the generated concept list
 * into nodes (later duplicates overwrite earlier ones in place), deriving every node's children
 * from the others' parents, picking the roots, and normalising a batch of tagging answers.
 * The language-model calls and the JSON parsing are not modelled: the reply's fence clean-up
 * is, and the parsed concept list is the input here.
 */
module KnowledgeGraphGenerator {
  import opened Wrappers
  import opened Seqs
  import opened KnowledgeGraphModel
  import opened Text

  /** One generated concept; an absent optional key is `None`. */
  datatype ConceptSpec = ConceptSpec(
    concept_id: string,
    name: string,
    description: Option<string>,
    parents: Option<seq<string>>,
    P_L0: Option<Prob>,
    P_T: Option<Prob>,
    P_G: Option<Prob>,
    P_S: Option<Prob>,
    depth: Option<nat>)

  /** The node dict built for one concept, before its children are known. */
  function NodeOf(c: ConceptSpec): ConceptNode {
    ConceptNode(
      c.concept_id, c.name, Some(c.description.GetOr("")), c.parents.GetOr([]), [],
      BKTParams(c.P_L0.GetOr(0.10), c.P_T.GetOr(0.10), c.P_G.GetOr(0.25), c.P_S.GetOr(0.10)),
      c.depth.GetOr(0))
  }

  /** A concept with only its id and name gives a node with every field at its default. */
  lemma NodeDefaults(id: string, name: string)
    ensures NodeOf(ConceptSpec(id, name, None, None, None, None, None, None, None))
      == ConceptNode(id, name, Some(""), [], [], DefaultBktParams(), 0)
  {
  }

  /** `d[k] = v` on an ordered dict: a new key goes last, an existing one keeps its place. */
  function Put(m: ConceptMap, k: string, v: ConceptNode): ConceptMap {
    if k in m.at then ConceptMap(m.order, m.at[k := v]) else ConceptMap(m.order + [k], m.at[k := v])
  }

  function Ids(cs: seq<ConceptSpec>): (ids: seq<string>)
    ensures |ids| == |cs| && forall i :: 0 <= i < |cs| ==> ids[i] == cs[i].concept_id
    decreases |cs|
  {
    if cs == [] then [] else Ids(cs[..|cs| - 1]) + [Last(cs).concept_id]
  }

  /** The dict after the first loop over `concepts`. */
  function Built(cs: seq<ConceptSpec>): ConceptMap
    decreases |cs|
  {
    if cs == [] then EmptyConceptMap else Put(Built(cs[..|cs| - 1]), Last(cs).concept_id, NodeOf(Last(cs)))
  }

  /** The position of the last concept with id `k`: the one whose node the dict keeps. */
  ghost function LastPos(ids: seq<string>, k: string): (i: nat)
    requires k in ids
    ensures i < |ids| && ids[i] == k && forall j :: i < j < |ids| ==> ids[j] != k
    decreases |ids|
  {
    if Last(ids) == k then |ids| - 1
    else
      var init := ids[..|ids| - 1];
      assert ids == init + [Last(ids)];
      LastPos(init, k)
  }

  /** The built dict is well formed and its keys are the concept ids. */
  lemma {:induction false} BuiltValid(cs: seq<ConceptSpec>)
    ensures Built(cs).Valid()
    ensures forall k :: k in Built(cs).at <==> k in Ids(cs)
    decreases |cs|
  {
    if cs != [] {
      var init := cs[..|cs| - 1];
      var k := Last(cs).concept_id;
      BuiltValid(init);
      assert Ids(cs) == Ids(init) + [k];
      if k !in Built(init).at {
        NoDupsAppend(Built(init).order, k);
      }
    }
  }

  /** Each key holds the node of the last concept with that id: later duplicates overwrite. */
  lemma {:induction false} BuiltLastWins(cs: seq<ConceptSpec>, k: string)
    requires k in Built(cs).at
    ensures k in Ids(cs) && Built(cs).at[k] == NodeOf(cs[LastPos(Ids(cs), k)])
    decreases |cs|
  {
    var init := cs[..|cs| - 1];
    var c := Last(cs);
    var ids := Ids(cs);
    assert ids == Ids(init) + [c.concept_id];
    if k != c.concept_id {
      BuiltLastWins(init, k);
      assert ids[..|ids| - 1] == Ids(init);
      assert LastPos(ids, k) == LastPos(Ids(init), k);
      assert cs[LastPos(ids, k)] == init[LastPos(Ids(init), k)];
    }
  }

  /** The keys are listed in the order in which their ids first appear among the concepts. */
  lemma {:induction false} BuiltOrder(cs: seq<ConceptSpec>, i: nat, j: nat)
    requires i < j < |Built(cs).order|
    ensures Built(cs).order[i] in Ids(cs) && Built(cs).order[j] in Ids(cs)
    ensures IndexOf(Ids(cs), Built(cs).order[i]) < IndexOf(Ids(cs), Built(cs).order[j])
    decreases |cs|
  {
    BuiltValid(cs);
    var init := cs[..|cs| - 1];
    var k := Last(cs).concept_id;
    BuiltValid(init);
    var ids0 := Ids(init);
    var m0 := Built(init);
    var m := Built(cs);
    assert Ids(cs) == ids0 + [k];
    assert m.order[i] == m0.order[i];
    IndexOfPrefix(ids0, [k], m.order[i]);
    if j < |m0.order| {
      BuiltOrder(init, i, j);
      assert m.order[j] == m0.order[j];
      IndexOfPrefix(ids0, [k], m.order[j]);
    } else {
      assert m.order[j] == k && k !in ids0;
      IndexOfNew(ids0, k);
      assert IndexOf(ids0, m0.order[i]) < |ids0|;
    }
  }

  /** The first loop of `generate_graph`: one node per concept, in a fresh dict. */
  method BuildNodes(concepts: seq<ConceptSpec>) returns (nodes: ConceptMap)
    ensures nodes == Built(concepts)
  {
    nodes := EmptyConceptMap;
    var i := 0;
    while i < |concepts|
      invariant 0 <= i <= |concepts|
      invariant nodes == Built(concepts[..i])
    {
      var c := concepts[i];
      assert concepts[..i + 1][..i] == concepts[..i];
      if c.concept_id in nodes.at {
        nodes := ConceptMap(nodes.order, nodes.at[c.concept_id := NodeOf(c)]);
      } else {
        nodes := ConceptMap(nodes.order + [c.concept_id], nodes.at[c.concept_id := NodeOf(c)]);
      }
      i := i + 1;
    }
    assert concepts[..|concepts|] == concepts;
  }

  // ---------------------------------------------------------------- children

  /** How often `x` occurs in `s`. */
  function Count(s: seq<string>, x: string): nat
    decreases |s|
  {
    if s == [] then 0 else Count(s[..|s| - 1], x) + (if Last(s) == x then 1 else 0)
  }

  lemma {:induction false} CountPositive(s: seq<string>, x: string)
    ensures Count(s, x) > 0 <==> x in s
    decreases |s|
  {
    if s != [] {
      var init := s[..|s| - 1];
      CountPositive(init, x);
      assert s == init + [Last(s)];
    }
  }

  function Repeat(x: string, n: nat): (r: seq<string>)
    ensures |r| == n && forall i :: 0 <= i < n ==> r[i] == x
    decreases n
  {
    if n == 0 then [] else Repeat(x, n - 1) + [x]
  }

  /** What the nested loop appends to `p`'s children: every node, in dict order, once per listing of `p`. */
  function ChildrenFrom(order: seq<string>, at: map<string, ConceptNode>, p: string): seq<string>
    requires forall k :: k in order ==> k in at
    decreases |order|
  {
    if order == [] then []
    else ChildrenFrom(order[..|order| - 1], at, p) + Repeat(Last(order), Count(at[Last(order)].parents, p))
  }

  /** A node is a child of `p` exactly when it lists `p` among its parents. */
  lemma {:induction false} ChildrenFromSpec(order: seq<string>, at: map<string, ConceptNode>, p: string)
    requires forall k :: k in order ==> k in at
    ensures forall x :: x in ChildrenFrom(order, at, p) <==> x in order && p in at[x].parents
    decreases |order|
  {
    if order != [] {
      var init := order[..|order| - 1];
      var l := Last(order);
      ChildrenFromSpec(init, at, p);
      CountPositive(at[l].parents, p);
      assert order == init + [l];
      var r := Repeat(l, Count(at[l].parents, p));
      assert forall x :: x in r <==> x == l && Count(at[l].parents, p) > 0 by {
        if Count(at[l].parents, p) > 0 {
          assert r[0] == l;
        }
      }
    }
  }

  /** The appended children depend only on the nodes' parents lists. */
  lemma {:induction false} ChildrenFromParents(order: seq<string>, a: map<string, ConceptNode>, b: map<string, ConceptNode>, p: string)
    requires forall k :: k in order ==> k in a && k in b && a[k].parents == b[k].parents
    ensures ChildrenFrom(order, a, p) == ChildrenFrom(order, b, p)
    decreases |order|
  {
    if order != [] {
      ChildrenFromParents(order[..|order| - 1], a, b, p);
    }
  }

  /** After the outer loop has handled `order[..i]`: each node's children extended by those nodes. */
  ghost predicate ChildrenUpTo(nodes: ConceptMap, i: nat, r: ConceptMap)
    requires nodes.Valid() && i <= |nodes.order|
  {
    && r.order == nodes.order && r.at.Keys == nodes.at.Keys
    && forall k :: k in nodes.at ==>
      r.at[k] == nodes.at[k].(children := nodes.at[k].children + ChildrenFrom(nodes.order[..i], nodes.at, k))
  }

  /** The second loop of `generate_graph`: append each node to the children of each known parent. */
  method DeriveChildren(nodes: ConceptMap) returns (r: ConceptMap)
    requires nodes.Valid()
    ensures r.order == nodes.order && r.at.Keys == nodes.at.Keys
    ensures forall k :: k in nodes.at ==>
      r.at[k] == nodes.at[k].(children := nodes.at[k].children + ChildrenFrom(nodes.order, nodes.at, k))
  {
    r := nodes;
    var i := 0;
    assert forall k :: k in nodes.at ==> nodes.at[k] == nodes.at[k].(children := nodes.at[k].children + []);
    while i < |nodes.order|
      invariant 0 <= i <= |nodes.order|
      invariant ChildrenUpTo(nodes, i, r)
    {
      var c := nodes.order[i];
      r := AppendChild(nodes, r, i, c);
      i := i + 1;
    }
    assert nodes.order[..|nodes.order|] == nodes.order;
  }

  /** `k`'s children while node `order[i] = c` is being appended for the parents `ps` seen so far. */
  function Kids(nodes: ConceptMap, i: nat, c: string, ps: seq<string>, k: string): seq<string>
    requires nodes.Valid() && i <= |nodes.order| && k in nodes.at
  {
    nodes.at[k].children + ChildrenFrom(nodes.order[..i], nodes.at, k) + Repeat(c, Count(ps, k))
  }

  lemma KidsSnoc(nodes: ConceptMap, i: nat, c: string, ps: seq<string>, p: string, k: string)
    requires nodes.Valid() && i <= |nodes.order| && k in nodes.at
    ensures Kids(nodes, i, c, ps + [p], k) == if p == k then Kids(nodes, i, c, ps, k) + [c] else Kids(nodes, i, c, ps, k)
  {
    assert (ps + [p])[..|ps|] == ps;
    var n := Count(ps, k);
    if p == k {
      assert Repeat(c, n + 1) == Repeat(c, n) + [c];
    }
  }

  lemma KidsDone(nodes: ConceptMap, i: nat, k: string)
    requires nodes.Valid() && i < |nodes.order| && k in nodes.at
    ensures var c := nodes.order[i];
      Kids(nodes, i, c, nodes.at[c].parents, k)
      == nodes.at[k].children + ChildrenFrom(nodes.order[..i + 1], nodes.at, k)
  {
    var o := nodes.order[..i + 1];
    assert o[..i] == nodes.order[..i];
    assert Last(o) == nodes.order[i];
  }

  /** Inner-loop state: every node's children extended by the parents `ps` of `c` handled so far. */
  ghost predicate Appending(nodes: ConceptMap, i: nat, c: string, ps: seq<string>, r: ConceptMap)
    requires nodes.Valid() && i <= |nodes.order|
  {
    && r.order == nodes.order && r.at.Keys == nodes.at.Keys
    && forall k :: k in nodes.at ==> r.at[k] == nodes.at[k].(children := Kids(nodes, i, c, ps, k))
  }

  /** One pass of the inner loop: `c` joins the children of `p` when `p` is a known node. */
  lemma AppendStep(nodes: ConceptMap, i: nat, c: string, parents: seq<string>, j: nat, r: ConceptMap, r': ConceptMap)
    requires nodes.Valid() && i <= |nodes.order| && j < |parents| && Appending(nodes, i, c, parents[..j], r)
    requires var p := parents[j];
      r' == if p in r.at then ConceptMap(r.order, r.at[p := r.at[p].(children := r.at[p].children + [c])]) else r
    ensures Appending(nodes, i, c, parents[..j + 1], r')
  {
    var p := parents[j];
    assert parents[..j + 1] == parents[..j] + [p];
    forall k | k in nodes.at
      ensures r'.at[k] == nodes.at[k].(children := Kids(nodes, i, c, parents[..j + 1], k))
    {
      KidsSnoc(nodes, i, c, parents[..j], p, k);
    }
  }

  /** One pass of the inner loop: `nodes[parent_id]["children"].append(c)` for a known parent. */
  method AddToParent(nodes: ConceptMap, i: nat, c: string, parents: seq<string>, j: nat, r: ConceptMap)
    returns (r': ConceptMap)
    requires nodes.Valid() && i <= |nodes.order| && j < |parents| && Appending(nodes, i, c, parents[..j], r)
    ensures Appending(nodes, i, c, parents[..j + 1], r')
  {
    var p := parents[j];
    r' := r;
    if p in r'.at {
      r' := ConceptMap(r'.order, r'.at[p := r'.at[p].(children := r'.at[p].children + [c])]);
    }
    AppendStep(nodes, i, c, parents, j, r, r');
  }

  /** The inner loop for node `c = order[i]`: `c` joins the children of each of its known parents. */
  method AppendChild(nodes: ConceptMap, cur: ConceptMap, i: nat, c: string) returns (r: ConceptMap)
    requires nodes.Valid() && i < |nodes.order| && c == nodes.order[i]
    requires ChildrenUpTo(nodes, i, cur)
    ensures ChildrenUpTo(nodes, i + 1, r)
  {
    assert c in nodes.at;
    var parents := cur.at[c].parents;
    assert parents == nodes.at[c].parents;
    r := cur;
    var j := 0;
    assert forall k :: k in nodes.at ==> Kids(nodes, i, c, parents[..0], k) == cur.at[k].children;
    while j < |parents|
      invariant 0 <= j <= |parents|
      invariant Appending(nodes, i, c, parents[..j], r)
    {
      r := AddToParent(nodes, i, c, parents, j, r);
      j := j + 1;
      assert Appending(nodes, i, c, parents[..j], r);
    }
    assert parents[..|parents|] == parents;
    forall k | k in nodes.at
      ensures r.at[k] == nodes.at[k].(children := nodes.at[k].children + ChildrenFrom(nodes.order[..i + 1], nodes.at, k))
    {
      KidsDone(nodes, i, k);
    }
  }

  // ---------------------------------------------------------------- roots

  /** The keys whose nodes have no parents, in dict order. */
  function Roots(order: seq<string>, at: map<string, ConceptNode>): seq<string>
    requires forall k :: k in order ==> k in at
    decreases |order|
  {
    if order == [] then []
    else Roots(order[..|order| - 1], at) + (if at[Last(order)].parents == [] then [Last(order)] else [])
  }

  /** The roots are exactly the nodes without parents, each once, in dict order. */
  lemma {:induction false} RootsSpec(order: seq<string>, at: map<string, ConceptNode>)
    requires forall k :: k in order ==> k in at
    ensures forall k :: k in Roots(order, at) <==> k in order && at[k].parents == []
    ensures NoDups(order) ==> NoDups(Roots(order, at))
    decreases |order|
  {
    if order != [] {
      var init := order[..|order| - 1];
      assert order == init + [Last(order)];
      RootsSpec(init, at);
      if NoDups(order) {
        NoDupsLastNew(init, Last(order));
        if at[Last(order)].parents == [] {
          NoDupsAppend(Roots(init, at), Last(order));
        }
      }
    }
  }

  /** The roots keep their dict order: a root listed before another comes earlier among the keys. */
  lemma {:induction false} RootsOrdered(order: seq<string>, at: map<string, ConceptNode>, i: nat, j: nat)
    requires (forall k :: k in order ==> k in at) && NoDups(order)
    requires i < j < |Roots(order, at)|
    ensures Roots(order, at)[i] in order && Roots(order, at)[j] in order
    ensures IndexOf(order, Roots(order, at)[i]) < IndexOf(order, Roots(order, at)[j])
    decreases |order|
  {
    var init := order[..|order| - 1];
    var l := Last(order);
    assert order == init + [l];
    var r0 := Roots(init, at);
    var r := Roots(order, at);
    RootsSpec(init, at);
    NoDupsLastNew(init, l);
    assert r[i] == r0[i] && r[i] in init;
    IndexOfPrefix(init, [l], r[i]);
    if j < |r0| {
      RootsOrdered(init, at, i, j);
      assert r[j] == r0[j];
      IndexOfPrefix(init, [l], r[j]);
    } else {
      assert r[j] == l;
      IndexOfNew(init, l);
    }
  }

  // ---------------------------------------------------------------- the reply

  /** The reply text is trimmed, then its markdown fence is removed; nothing is trimmed after. */
  method CleanGraphReply(text: string) returns (r: string)
    ensures r == Unfenced(Strip(text))
  {
    r := Strip(text);
    r := StripFence(r);
  }

  /** A reply fenced as "```json" or as a bare "```" yields its body, untrimmed. */
  lemma GraphReplyRoundTrip(open: string, body: string)
    requires open == JSON_FENCE || open == FENCE
    requires body == [] || (body[0] != '`' && body[0] != 'j')
    ensures Unfenced(Strip(open + body + FENCE)) == body
  {
    UnfencedRoundTrip(open, body);
    StripFenced(open, body);
  }

  // ---------------------------------------------------------------- the graph

  /**
   * The deterministic part of `generate_graph`: no graph for an empty concept list; otherwise
   * the graph `graph_<subject>` whose nodes are the concepts (last duplicate winning), whose
   * children mirror the parents between known nodes, and whose roots are the parentless nodes.
   */
  method GenerateGraph(subject_id: string, user_id: string, concepts: seq<ConceptSpec>)
    returns (g: Option<KnowledgeGraph>)
    ensures g.None? <==> concepts == []
    ensures g.Some? ==>
      var gr := g.value;
      var at := gr.nodes.at;
      && gr.id == "graph_" + subject_id && gr.subject_id == subject_id && gr.created_by == user_id
      && gr.nodes.Valid()
      && (forall k :: k in at <==> k in Ids(concepts))
      && (forall k :: k in at ==>
            k in Ids(concepts) && at[k] == NodeOf(concepts[LastPos(Ids(concepts), k)]).(children := at[k].children))
      && (forall p, c :: p in at && c in at ==> (c in at[p].children <==> p in at[c].parents))
      && (forall p, c :: p in at && c in at[p].children ==> c in at)
      && (forall k :: k in gr.root_concepts <==> k in at && at[k].parents == [])
      && NoDups(gr.root_concepts)
      && gr.nodes.order == Built(concepts).order
      && (forall i, j :: 0 <= i < j < |gr.nodes.order| ==>
            gr.nodes.order[i] in Ids(concepts) && gr.nodes.order[j] in Ids(concepts)
            && IndexOf(Ids(concepts), gr.nodes.order[i]) < IndexOf(Ids(concepts), gr.nodes.order[j]))
      && (forall k :: k in at ==> at[k].children == ChildrenFrom(gr.nodes.order, at, k))
      && gr.root_concepts == Roots(gr.nodes.order, at)
  {
    if concepts == [] {
      return None;
    }
    var built := BuildNodes(concepts);
    BuiltValid(concepts);
    forall k | k in built.at
      ensures k in Ids(concepts) && built.at[k] == NodeOf(concepts[LastPos(Ids(concepts), k)])
    {
      BuiltLastWins(concepts, k);
    }
    var nodes := DeriveChildren(built);
    var roots := Roots(nodes.order, nodes.at);
    RootsSpec(nodes.order, nodes.at);
    forall p | p in built.at
      ensures forall c :: c in nodes.at[p].children <==> c in built.order && p in built.at[c].parents
    {
      ChildrenFromSpec(built.order, built.at, p);
      assert NodeOf(concepts[0]).children == [];
      ChildrenStartEmpty(concepts, p);
    }
    forall i, j | 0 <= i < j < |nodes.order|
      ensures nodes.order[i] in Ids(concepts) && nodes.order[j] in Ids(concepts)
      ensures IndexOf(Ids(concepts), nodes.order[i]) < IndexOf(Ids(concepts), nodes.order[j])
    {
      BuiltOrder(concepts, i, j);
    }
    forall k | k in nodes.at
      ensures nodes.at[k].children == ChildrenFrom(nodes.order, nodes.at, k)
    {
      ChildrenStartEmpty(concepts, k);
      ChildrenFromParents(nodes.order, built.at, nodes.at, k);
    }
    g := Some(KnowledgeGraph("graph_" + subject_id, subject_id, user_id, nodes, roots));
  }

  /** Every node of the built dict starts with no children. */
  lemma {:induction false} ChildrenStartEmpty(cs: seq<ConceptSpec>, k: string)
    requires k in Built(cs).at
    ensures Built(cs).at[k].children == []
    decreases |cs|
  {
    if Last(cs).concept_id != k {
      ChildrenStartEmpty(cs[..|cs| - 1], k);
    }
  }

  // ---------------------------------------------------------------- batch tagging

  /** The tag used for an answer that is not a known concept: the first root, if any. */
  function Fallback(roots: seq<string>): Option<string> {
    if roots != [] then Some(roots[0]) else None
  }

  /** An answer entry is kept when it is a string naming a known concept (`None`: not a string). */
  predicate KnownTag(t: Option<string>, valid: set<string>) {
    t.Some? && t.value in valid
  }

  /**
   * The normalisation at the end of `tag_questions_batch`: known ids are kept and others become
   * the fallback; the list is padded with the fallback, then cut to one tag per question.
   */
  method NormaliseTags(concept_ids: seq<Option<string>>, valid: set<string>, fallback: Option<string>, n: nat)
    returns (result: seq<Option<string>>)
    ensures |result| == n
    ensures forall i :: 0 <= i < n ==>
      result[i] == if i < |concept_ids| && KnownTag(concept_ids[i], valid) then concept_ids[i] else fallback
    ensures forall i :: 0 <= i < n ==> result[i] == fallback || KnownTag(result[i], valid)
  {
    result := [];
    var i := 0;
    while i < |concept_ids|
      invariant 0 <= i <= |concept_ids| && |result| == i
      invariant forall j :: 0 <= j < i ==>
        result[j] == if KnownTag(concept_ids[j], valid) then concept_ids[j] else fallback
    {
      if KnownTag(concept_ids[i], valid) {
        result := result + [concept_ids[i]];
      } else {
        result := result + [fallback];
      }
      i := i + 1;
    }
    while |result| < n
      invariant |result| >= |concept_ids|
      invariant forall j :: 0 <= j < |result| ==>
        result[j] == if j < |concept_ids| && KnownTag(concept_ids[j], valid) then concept_ids[j] else fallback
      decreases n - |result|
    {
      result := result + [fallback];
    }
    result := result[..n];
  }

  /**
   * `tag_questions_batch` after the model's answer: `None` as the answer stands for every path
   * that ends in an exception (the call, or parsing its text). Without a model, questions, graph
   * or answer every tag is `None`; otherwise the answer is normalised against the graph's ids.
   */
  method TagQuestionsBatch(question_count: nat, model_ready: bool, graph: Option<KnowledgeGraph>,
                           answer: Option<seq<Option<string>>>) returns (tags: seq<Option<string>>)
    ensures |tags| == question_count
    ensures !model_ready || graph.None? || answer.None? ==> forall i :: 0 <= i < |tags| ==> tags[i] == None
    ensures model_ready && graph.Some? && answer.Some? ==>
      forall i :: 0 <= i < |tags| ==>
        tags[i] == (if i < |answer.value| && KnownTag(answer.value[i], graph.value.nodes.at.Keys)
                    then answer.value[i] else Fallback(graph.value.root_concepts))
        && (tags[i] == Fallback(graph.value.root_concepts) || tags[i].value in graph.value.nodes.at)
  {
    if !model_ready || question_count == 0 || graph.None? || answer.None? {
      return seq(question_count, _ => None);
    }
    tags := NormaliseTags(answer.value, graph.value.nodes.at.Keys, Fallback(graph.value.root_concepts), question_count);
  }
}
