/** The knowledge-graph records: BKT parameter sets, concept nodes, and the graph itself. */
module KnowledgeGraphModel {
  import opened Wrappers
  import opened Seqs

  /** A probability; the `ge=0.0, le=1.0` constraint of every BKT field. */
  type Prob = r: real | 0.0 <= r <= 1.0 witness 0.0

  /** Default BKT parameters: initial knowledge, learn rate, guess and slip. */
  const DEFAULT_P_L0: Prob := 0.10
  const DEFAULT_P_T: Prob := 0.10
  const DEFAULT_P_G: Prob := 0.25
  const DEFAULT_P_S: Prob := 0.10

  datatype BKTParams = BKTParams(P_L0: Prob, P_T: Prob, P_G: Prob, P_S: Prob)

  /** `BKTParams()` with every field left at its default. */
  function DefaultBktParams(): BKTParams {
    BKTParams(DEFAULT_P_L0, DEFAULT_P_T, DEFAULT_P_G, DEFAULT_P_S)
  }

  /** One concept. `parents` are prerequisites, `children` dependents; depth is >= 0. */
  datatype ConceptNode = ConceptNode(
    concept_id: string,
    name: string,
    description: Option<string>,
    parents: seq<string>,
    children: seq<string>,
    default_params: BKTParams,
    depth: nat)

  /** `ConceptNode(concept_id=..., name=...)` with every other field at its default. */
  function NewConceptNode(concept_id: string, name: string): ConceptNode {
    ConceptNode(concept_id, name, None, [], [], DefaultBktParams(), 0)
  }

  /**
   * A Python dict of concept id to node: the entries, and the keys in insertion order
   * (the order in which `.items()` and `.keys()` visit them).
   */
  datatype ConceptMap = ConceptMap(order: seq<string>, at: map<string, ConceptNode>) {
    ghost predicate Valid() {
      NoDups(order) && forall k :: k in order <==> k in at
    }
  }

  const EmptyConceptMap := ConceptMap([], map[])

  datatype KnowledgeGraph = KnowledgeGraph(
    id: string,
    subject_id: string,
    created_by: string,
    nodes: ConceptMap,
    root_concepts: seq<string>)

  /** A graph whose optional fields are at their defaults: no nodes and no roots. */
  function NewKnowledgeGraph(id: string, subject_id: string, created_by: string): KnowledgeGraph {
    KnowledgeGraph(id, subject_id, created_by, EmptyConceptMap, [])
  }

  /** The defaults a fresh node and a fresh graph start from. */
  lemma NodeAndGraphDefaults(concept_id: string, name: string, id: string, subject: string, owner: string)
    ensures var n := NewConceptNode(concept_id, name);
      n.parents == [] && n.children == [] && n.depth == 0 && n.description == None
      && n.default_params == BKTParams(0.10, 0.10, 0.25, 0.10)
    ensures var g := NewKnowledgeGraph(id, subject, owner);
      g.nodes.Valid() && g.nodes.at == map[] && g.root_concepts == []
  {
  }
}
