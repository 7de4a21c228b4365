/** Per-learner mastery records: one per concept, and the snapshot per (learner, subject). */
module UserMasteryModel {
  import opened Wrappers
  import opened KnowledgeGraphModel

  datatype MasteryStatus = Locked | Learning | Mastered

  /** One learner's BKT state for one concept (timestamps are not modelled). */
  datatype ConceptMastery = ConceptMastery(
    P_L: Prob,
    P_T: Prob,
    P_G: Prob,
    P_S: Prob,
    observations: nat,
    correct_count: nat,
    mastery_status: MasteryStatus)

  /** `ConceptMastery()` with every field at its default. */
  function DefaultConceptMastery(): ConceptMastery {
    ConceptMastery(0.10, 0.10, 0.25, 0.10, 0, 0, Locked)
  }

  /** The fields a mastery record is created from when only P_L, P_T, P_G, P_S are given. */
  function SeededConceptMastery(P_L: Prob, P_T: Prob, P_G: Prob, P_S: Prob): ConceptMastery {
    ConceptMastery(P_L, P_T, P_G, P_S, 0, 0, Locked)
  }

  /** The snapshot for one learner and one subject. */
  datatype UserMastery = UserMastery(
    id: string,
    user_id: string,
    subject_id: string,
    elo_rating: nat,
    concepts: map<string, ConceptMastery>,
    unlocked_concepts: seq<string>,
    mastered_concepts: seq<string>,
    current_focus: Option<string>,
    total_questions_answered: nat)

  const DEFAULT_ELO: nat := 1200

  /** `UserMastery(_id=..., user_id=..., subject_id=...)` with the other fields at their defaults. */
  function NewUserMastery(id: string, user_id: string, subject_id: string): UserMastery {
    UserMastery(id, user_id, subject_id, DEFAULT_ELO, map[], [], [], None, 0)
  }

  /**
   * The defaults of the two records: a fresh concept record carries the same probabilities
   * as a fresh node's default BKT parameters, with no observations and status locked.
   */
  lemma MasteryDefaults(id: string, user: string, subject: string)
    ensures var c := DefaultConceptMastery();
      c == SeededConceptMastery(DEFAULT_P_L0, DEFAULT_P_T, DEFAULT_P_G, DEFAULT_P_S)
      && c.observations == 0 && c.correct_count == 0 && c.mastery_status == Locked
    ensures var m := NewUserMastery(id, user, subject);
      m.elo_rating == 1200 && m.concepts == map[] && m.unlocked_concepts == []
      && m.mastered_concepts == [] && m.current_focus == None && m.total_questions_answered == 0
  {
  }
}
