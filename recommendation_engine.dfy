/**
 * The recommendation orchestrator: which concept to work on next, which question to serve,
 * and what an answer submission does to the learner's snapshot and to the question. The
 * database is a value (`Store`) passed in and handed back; the graph for the subject is an
 * argument, `None` when the subject has none.
 */
module RecommendationEngine {
  import opened Wrappers
  import opened Seqs
  import opened KnowledgeGraphModel
  import opened UserMasteryModel
  import opened QuestionModel
  import opened GraphPaths
  import opened GraphService
  import opened PyNumbers
  import BktService

  /** Python truthiness of an optional id: `None` and `""` are both false. */
  predicate Truthy(o: Option<string>) {
    o.Some? && o.value != ""
  }

  /** `set(some_list)` */
  function SetOf(s: seq<string>): set<string> {
    set x | x in s
  }

  /** The KeyError raised by `graph.nodes[key]` for an unknown id. */
  datatype LookupError = KeyError(key: string)

  // ================================================================ messages

  function Digit(d: nat): char
    requires d < 10
  {
    "0123456789"[d]
  }

  /** `str(n)` for a natural number. */
  function NatToString(n: nat): (s: string)
    ensures |s| >= 1
    decreases n
  {
    if n < 10 then [Digit(n)] else NatToString(n / 10) + [Digit(n % 10)]
  }

  /** The reasoning that accompanies a target concept, with the concept names it quotes. */
  datatype Reasoning =
    | ContinuingWork(name: string)
    | MasteredMovingTo(focus: string, next: string)
    | Congratulations
    | Struggling(focus: string, weak: string)
    | ContinuingPractice(focus: string)
    | MakingProgress(focus: string)
    | StartingWork(name: string)
    | BeginningWith(name: string)
    | NoConcepts
  {
    function Text(): (t: string)
      ensures t != ""
    {
      match this
      case ContinuingWork(n) => "Continuing work on " + n
      case MasteredMovingTo(f, n) => "Mastered " + f + "! Moving to " + n + "."
      case Congratulations => "Congratulations! You've mastered all available concepts."
      case Struggling(f, w) => "Struggling with " + f + ". Let's strengthen " + w + " first."
      case ContinuingPractice(f) => "Continuing practice on " + f
      case MakingProgress(f) => "Making progress on " + f + ". Keep practicing!"
      case StartingWork(n) => "Starting work on " + n
      case BeginningWith(n) => "Beginning with foundational concept: " + n
      case NoConcepts => "No concepts available."
    }
  }

  // ================================================================ least practiced

  /** How often the learner has practised a concept: its record's observations, 0 without a record. */
  function Observations(concepts: map<string, ConceptMastery>, id: string): nat {
    if id in concepts then concepts[id].observations else 0
  }

  /** The running minimum over the unlocked list: the first id with the fewest observations. */
  function LeastPracticed(ids: seq<string>, concepts: map<string, ConceptMastery>): (r: Option<string>)
    ensures r.None? <==> ids == []
    decreases |ids|
  {
    if ids == [] then None
    else
      var best := LeastPracticed(ids[..|ids| - 1], concepts);
      var last := Last(ids);
      if best.None? || Observations(concepts, last) < Observations(concepts, best.value) then Some(last) else best
  }

  /** The pick has the fewest observations, and every id listed before it has strictly more. */
  lemma {:induction false} LeastPracticedIsFirstMinimum(ids: seq<string>, concepts: map<string, ConceptMastery>)
    requires ids != []
    ensures var t := LeastPracticed(ids, concepts).value;
      exists i :: 0 <= i < |ids| && ids[i] == t
        && (forall j :: 0 <= j < |ids| ==> Observations(concepts, t) <= Observations(concepts, ids[j]))
        && (forall j :: 0 <= j < i ==> Observations(concepts, t) < Observations(concepts, ids[j]))
    decreases |ids|
  {
    var t := LeastPracticed(ids, concepts).value;
    var init := ids[..|ids| - 1];
    assert forall j :: 0 <= j < |ids| - 1 ==> ids[j] == init[j];
    if init == [] {
      assert ids[0] == t;
    } else {
      LeastPracticedIsFirstMinimum(init, concepts);
      var v := LeastPracticed(init, concepts).value;
      var i :| 0 <= i < |init| && init[i] == v
        && (forall j :: 0 <= j < |init| ==> Observations(concepts, v) <= Observations(concepts, init[j]))
        && (forall j :: 0 <= j < i ==> Observations(concepts, v) < Observations(concepts, init[j]));
      if Observations(concepts, Last(ids)) < Observations(concepts, v) {
        assert ids[|ids| - 1] == t;
      } else {
        assert ids[i] == t;
      }
    }
  }

  /** The `for concept_id in mastery_state.unlocked_concepts` loop, starting from an infinite minimum. */
  method FindLeastPracticed(ids: seq<string>, concepts: map<string, ConceptMastery>) returns (least: Option<string>)
    ensures least == LeastPracticed(ids, concepts)
  {
    least := None;
    var minObservations: nat := 0;
    var i := 0;
    while i < |ids|
      invariant 0 <= i <= |ids|
      invariant least == LeastPracticed(ids[..i], concepts)
      invariant least.Some? ==> minObservations == Observations(concepts, least.value)
    {
      var obs := Observations(concepts, ids[i]);
      assert ids[..i + 1][..i] == ids[..i];
      if least.None? || obs < minObservations {
        minObservations := obs;
        least := Some(ids[i]);
      }
      i := i + 1;
    }
    assert ids[..|ids|] == ids;
  }

  // ================================================================ target concept

  datatype Target = Target(concept: Option<string>, reasoning: Reasoning)

  /** The status the focus is in, when there is a truthy focus with a record. */
  function FocusStatus(m: UserMastery): Option<MasteryStatus> {
    if Truthy(m.current_focus) && m.current_focus.value in m.concepts
    then Some(BktService.DetermineMasteryStatus(m.concepts[m.current_focus.value].P_L))
    else None
  }

  /**
   * What the weak-prerequisite search needs: it only runs for a locked focus, and it terminates
   * only on a graph without prerequisite cycles.
   */
  ghost predicate WeakSearchSafe(m: UserMastery, graph: KnowledgeGraph) {
    FocusStatus(m) == Some(Locked) ==> Acyclic(graph.nodes.at, Parents)
  }

  /** `graph.nodes[id].name`, or the KeyError; the reasoning is built from the name. */
  function Named(nodes: map<string, ConceptNode>, id: string, make: string -> Reasoning, concept: Option<string>)
    : Result<Target, LookupError>
  {
    if id in nodes then Ok(Target(concept, make(nodes[id].name))) else Err(KeyError(id))
  }

  /** `_determine_target_concept`, over the results of the graph operations it calls. */
  ghost function TargetOf(m: UserMastery, graph: KnowledgeGraph): Result<Target, LookupError>
    requires graph.nodes.Valid() && WeakSearchSafe(m, graph)
  {
    var nodes := graph.nodes.at;
    if Truthy(m.current_focus) then
      var f := m.current_focus.value;
      if f !in m.concepts then Named(nodes, f, n => ContinuingWork(n), Some(f))
      else
        match BktService.DetermineMasteryStatus(m.concepts[f].P_L)
        case Mastered =>
          var u := NextUnlockable(graph.nodes, SetOf(m.mastered_concepts), SetOf(m.unlocked_concepts));
          if u == [] then Ok(Target(None, Congratulations))
          else if f !in nodes then Err(KeyError(f))
          else Named(nodes, u[0], n => MasteredMovingTo(nodes[f].name, n), Some(u[0]))
        case Locked =>
          assert IsPath(nodes, Parents, [] + [f]);
          var w := WeakFrom(nodes, m.concepts, f, BktService.LEARNING_THRESHOLD, []);
          if !Truthy(w) then Named(nodes, f, n => ContinuingPractice(n), Some(f))
          else if f !in nodes then Err(KeyError(f))
          else Named(nodes, w.value, n => Struggling(nodes[f].name, n), w)
        case Learning => Named(nodes, f, n => MakingProgress(n), Some(f))
    else
      var least := LeastPracticed(m.unlocked_concepts, m.concepts);
      if Truthy(least) then Named(nodes, least.value, n => StartingWork(n), least)
      else if graph.root_concepts != [] then
        Named(nodes, graph.root_concepts[0], n => BeginningWith(n), Some(graph.root_concepts[0]))
      else Ok(Target(None, NoConcepts))
  }

  /**
   * `_determine_target_concept`: follow the focus by its status (stay, move on to the first
   * unlockable concept, fall back to a weak prerequisite, keep practicing); without a focus,
   * the least practiced unlocked concept, else the first root, else nothing.
   */
  method DetermineTargetConcept(m: UserMastery, graph: KnowledgeGraph) returns (r: Result<Target, LookupError>)
    requires graph.nodes.Valid() && WeakSearchSafe(m, graph)
    ensures r == TargetOf(m, graph)
  {
    var nodes := graph.nodes.at;
    if Truthy(m.current_focus) {
      var f := m.current_focus.value;
      if f !in m.concepts {
        return Named(nodes, f, n => ContinuingWork(n), Some(f));
      }
      var status := BktService.DetermineMasteryStatus(m.concepts[f].P_L);
      if status == Mastered {
        var u := GetNextUnlockableConcepts(graph, SetOf(m.mastered_concepts), SetOf(m.unlocked_concepts));
        if u != [] {
          var next := u[0];
          if f !in nodes {
            return Err(KeyError(f));
          }
          return Named(nodes, next, n => MasteredMovingTo(nodes[f].name, n), Some(next));
        } else {
          return Ok(Target(None, Congratulations));
        }
      } else if status == Locked {
        var w := FindWeakPrerequisite(graph, m.concepts, f, BktService.LEARNING_THRESHOLD);
        if Truthy(w) {
          if f !in nodes {
            return Err(KeyError(f));
          }
          return Named(nodes, w.value, n => Struggling(nodes[f].name, n), w);
        } else {
          return Named(nodes, f, n => ContinuingPractice(n), Some(f));
        }
      } else {
        return Named(nodes, f, n => MakingProgress(n), Some(f));
      }
    }
    if m.unlocked_concepts != [] {
      var least := FindLeastPracticed(m.unlocked_concepts, m.concepts);
      if Truthy(least) {
        return Named(nodes, least.value, n => StartingWork(n), least);
      }
    }
    if graph.root_concepts != [] {
      var root := graph.root_concepts[0];
      return Named(nodes, root, n => BeginningWith(n), Some(root));
    }
    return Ok(Target(None, NoConcepts));
  }

  /** Every concept the decision names is in the graph; a KeyError is for an id that is not. */
  lemma TargetKnown(m: UserMastery, graph: KnowledgeGraph)
    requires graph.nodes.Valid() && WeakSearchSafe(m, graph)
    ensures var r := TargetOf(m, graph);
      && (r.Ok? && r.value.concept.Some? ==> r.value.concept.value in graph.nodes.at)
      && (r.Err? ==> r.error.key !in graph.nodes.at)
  {
  }

  /** With a focus that has no record yet, the learner stays on it. */
  lemma TargetUnattemptedFocus(m: UserMastery, graph: KnowledgeGraph)
    requires graph.nodes.Valid() && WeakSearchSafe(m, graph)
    requires Truthy(m.current_focus) && m.current_focus.value !in m.concepts
    ensures var f := m.current_focus.value;
      TargetOf(m, graph) == if f in graph.nodes.at
        then Ok(Target(Some(f), ContinuingWork(graph.nodes.at[f].name))) else Err(KeyError(f))
  {
  }

  /**
   * With a mastered focus the target is an unlockable concept of least depth; there is none
   * exactly when no known concept is unlockable, and then the learner is congratulated.
   */
  lemma TargetMasteredFocus(m: UserMastery, graph: KnowledgeGraph)
    requires graph.nodes.Valid() && WeakSearchSafe(m, graph)
    requires FocusStatus(m) == Some(Mastered)
    ensures var r := TargetOf(m, graph);
      var nodes := graph.nodes.at;
      var ms, us := SetOf(m.mastered_concepts), SetOf(m.unlocked_concepts);
      && (r == Ok(Target(None, Congratulations)) <==> forall k :: k in nodes ==> !Unlockable(nodes, ms, us, k))
      && (r.Ok? && r.value.concept.Some? ==>
            var t := r.value.concept.value;
            && t in nodes && Unlockable(nodes, ms, us, t)
            && forall k :: k in nodes && Unlockable(nodes, ms, us, k) ==> nodes[t].depth <= nodes[k].depth)
  {
    var f := m.current_focus.value;
    assert f in m.concepts && BktService.DetermineMasteryStatus(m.concepts[f].P_L) == Mastered;
    NextUnlockableHead(graph.nodes, SetOf(m.mastered_concepts), SetOf(m.unlocked_concepts));
  }

  /**
   * With a locked focus the target is the focus itself, or a prerequisite ancestor of it that
   * is untried or below the learning threshold.
   */
  lemma TargetLockedFocus(m: UserMastery, graph: KnowledgeGraph)
    requires graph.nodes.Valid() && WeakSearchSafe(m, graph)
    requires FocusStatus(m) == Some(Locked)
    ensures var r := TargetOf(m, graph);
      var f := m.current_focus.value;
      r.Ok? ==>
        && r.value.concept.Some?
        && var t := r.value.concept.value;
           t == f || (Reaches(graph.nodes.at, Parents, f, t)
                      && (t !in m.concepts || m.concepts[t].P_L < BktService.LEARNING_THRESHOLD))
  {
    var f := m.current_focus.value;
    assert IsPath(graph.nodes.at, Parents, [] + [f]);
    WeakIsWeakAncestor(graph.nodes.at, m.concepts, f, BktService.LEARNING_THRESHOLD, []);
  }

  /** With a focus still being learned the learner keeps practicing it. */
  lemma TargetLearningFocus(m: UserMastery, graph: KnowledgeGraph)
    requires graph.nodes.Valid() && WeakSearchSafe(m, graph)
    requires FocusStatus(m) == Some(Learning)
    ensures var f := m.current_focus.value;
      TargetOf(m, graph) == if f in graph.nodes.at
        then Ok(Target(Some(f), MakingProgress(graph.nodes.at[f].name))) else Err(KeyError(f))
  {
  }

  /**
   * Without a focus: an unlocked concept with the fewest observations, the first such in list
   * order; failing that (no unlocked concept, or a falsy id) the first root; failing that nothing.
   */
  lemma TargetWithoutFocus(m: UserMastery, graph: KnowledgeGraph)
    requires graph.nodes.Valid() && WeakSearchSafe(m, graph)
    requires !Truthy(m.current_focus)
    ensures var r := TargetOf(m, graph);
      var ids := m.unlocked_concepts;
      var least := LeastPracticed(ids, m.concepts);
      && (Truthy(least) ==>
            var t := least.value;
            && (r.Ok? ==> r.value.concept == Some(t))
            && exists i :: 0 <= i < |ids| && ids[i] == t
                 && (forall j :: 0 <= j < |ids| ==> Observations(m.concepts, t) <= Observations(m.concepts, ids[j]))
                 && (forall j :: 0 <= j < i ==> Observations(m.concepts, t) < Observations(m.concepts, ids[j])))
      && (!Truthy(least) && graph.root_concepts != [] ==>
            r.Ok? ==> r.value.concept == Some(graph.root_concepts[0]))
      && (!Truthy(least) && graph.root_concepts == [] ==> r == Ok(Target(None, NoConcepts)))
  {
    if m.unlocked_concepts != [] {
      LeastPracticedIsFirstMinimum(m.unlocked_concepts, m.concepts);
    }
  }

  // ================================================================ the store

  /** The two collections the orchestrator reads and writes, in their natural (insertion) order. */
  datatype Store = Store(masteries: seq<UserMastery>, questions: seq<Question>)

  /** `find_one(filter)`: the position of the first document the filter matches. */
  function FirstIndex<T>(s: seq<T>, matches: T -> bool): (r: Option<nat>)
    ensures r.None? <==> forall i :: 0 <= i < |s| ==> !matches(s[i])
    ensures r.Some? ==>
      && r.value < |s| && matches(s[r.value])
      && forall j :: 0 <= j < r.value ==> !matches(s[j])
    decreases |s|
  {
    if s == [] then None
    else if matches(s[0]) then Some(0)
    else
      match FirstIndex(s[1..], matches)
      case None => None
      case Some(i) => Some(i + 1)
  }

  /** The filter `{"user_id": user, "subject_id": subject}`. */
  function Owns(user: string, subject: string): UserMastery -> bool {
    (m: UserMastery) => m.user_id == user && m.subject_id == subject
  }

  /** The filter `{"_id": id}`. */
  function HasId(id: string): Question -> bool {
    (q: Question) => q.id == id
  }

  // ================================================================ question selection

  /** The `elo_tolerance` default of `_find_question_for_concept`. */
  const ELO_TOLERANCE: int := 50

  function OfConcept(c: string): Question -> bool {
    (q: Question) => q.concept_id == c
  }

  function InWindow(c: string, lo: int, hi: int): Question -> bool {
    (q: Question) => q.concept_id == c && lo <= q.elo_rating <= hi
  }

  /**
   * `_find_question_for_concept`: the first question of the concept whose rating lies within
   * the tolerance of the learner's, else the first question of the concept, else none.
   */
  function FindQuestionForConcept(pool: seq<Question>, c: string, student_elo: int): Option<Question> {
    var window := BktService.CalculateEloRange(student_elo, ELO_TOLERANCE);
    match FirstIndex(pool, InWindow(c, window.0, window.1))
    case Some(i) => Some(pool[i])
    case None =>
      match FirstIndex(pool, OfConcept(c))
      case Some(i) => Some(pool[i])
      case None => None
  }

  /**
   * A question is found exactly when the concept has one; it is a question of that concept
   * from the pool; and when some question of the concept is rated within 50 of the learner
   * (the lower end clipped at 0), the one found is.
   */
  lemma FindQuestionSpec(pool: seq<Question>, c: string, student_elo: int)
    ensures var r := FindQuestionForConcept(pool, c, student_elo);
      && (r.None? <==> forall q :: q in pool ==> q.concept_id != c)
      && (r.Some? ==> r.value in pool && r.value.concept_id == c)
      && ((exists q :: q in pool && q.concept_id == c && BktService.Max0(student_elo - 50) <= q.elo_rating <= student_elo + 50)
          ==> BktService.Max0(student_elo - 50) <= r.value.elo_rating <= student_elo + 50)
  {
    var window := BktService.CalculateEloRange(student_elo, ELO_TOLERANCE);
    var inWindow := FirstIndex(pool, InWindow(c, window.0, window.1));
    var ofConcept := FirstIndex(pool, OfConcept(c));
    if exists q :: q in pool && q.concept_id == c && BktService.Max0(student_elo - 50) <= q.elo_rating <= student_elo + 50 {
      var q :| q in pool && q.concept_id == c && BktService.Max0(student_elo - 50) <= q.elo_rating <= student_elo + 50;
      var i :| 0 <= i < |pool| && pool[i] == q;
      assert InWindow(c, window.0, window.1)(pool[i]);
    }
    if ofConcept.None? {
      forall q | q in pool
        ensures q.concept_id != c
      {
        var i :| 0 <= i < |pool| && pool[i] == q;
        assert !OfConcept(c)(pool[i]);
      }
    } else {
      assert OfConcept(c)(pool[ofConcept.value]);
    }
  }

  // ================================================================ next question

  /** What `get_next_question` returns: the question, the reasoning, the target concept. */
  datatype Recommendation = Recommendation(question: Option<Question>, reasoning: string, concept: Option<string>)

  /** Without a mastery record or a graph the search never starts; otherwise its needs. */
  ghost predicate NextQuestionSafe(store: Store, user: string, subject: string, graph: Option<KnowledgeGraph>) {
    graph.Some? ==>
      && graph.value.nodes.Valid()
      && var i := FirstIndex(store.masteries, Owns(user, subject));
         i.Some? ==> WeakSearchSafe(store.masteries[i.value], graph.value)
  }

  /** `get_next_question` on a store and the subject's graph (`None`: no graph). */
  ghost function NextQuestionOf(store: Store, user: string, subject: string, graph: Option<KnowledgeGraph>)
    : Result<Recommendation, LookupError>
    requires NextQuestionSafe(store, user, subject, graph)
  {
    match FirstIndex(store.masteries, Owns(user, subject))
    case None => Ok(Recommendation(None, "Please initialize user mastery state first.", None))
    case Some(i) =>
      if graph.None? then Ok(Recommendation(None, "No knowledge graph found for this subject.", None))
      else
        var m := store.masteries[i];
        match TargetOf(m, graph.value)
        case Err(e) => Err(e)
        case Ok(t) =>
          var reasoning := t.reasoning.Text();
          if !Truthy(t.concept) then
            Ok(Recommendation(None, if reasoning != "" then reasoning else "No available concepts to practice.", None))
          else
            var c := t.concept.value;
            match FindQuestionForConcept(store.questions, c, m.elo_rating)
            case None => Ok(Recommendation(None, "No questions available for " + c + ".", Some(c)))
            case Some(q) => Ok(Recommendation(Some(q), reasoning, Some(c)))
  }

  /** `get_next_question`: load the learner's record and the graph, pick a concept, then a question. */
  method GetNextQuestion(store: Store, user: string, subject: string, graph: Option<KnowledgeGraph>)
    returns (r: Result<Recommendation, LookupError>)
    requires NextQuestionSafe(store, user, subject, graph)
    ensures r == NextQuestionOf(store, user, subject, graph)
  {
    var i := FirstIndex(store.masteries, Owns(user, subject));
    if i.None? {
      return Ok(Recommendation(None, "Please initialize user mastery state first.", None));
    }
    var m := store.masteries[i.value];
    if graph.None? {
      return Ok(Recommendation(None, "No knowledge graph found for this subject.", None));
    }
    var target := DetermineTargetConcept(m, graph.value);
    if target.Err? {
      return Err(target.error);
    }
    var reasoning := target.value.reasoning.Text();
    if !Truthy(target.value.concept) {
      return Ok(Recommendation(None, if reasoning != "" then reasoning else "No available concepts to practice.", None));
    }
    var c := target.value.concept.value;
    var question := FindQuestionForConcept(store.questions, c, m.elo_rating);
    if question.None? {
      return Ok(Recommendation(None, "No questions available for " + c + ".", Some(c)));
    }
    return Ok(Recommendation(question, reasoning, Some(c)));
  }

  /**
   * The outcomes of `get_next_question`: the two missing-record messages; a question only
   * together with its concept, which is the target and is known to the graph; no question for a
   * named concept only when the pool has none for it.
   */
  lemma NextQuestionCases(store: Store, user: string, subject: string, graph: Option<KnowledgeGraph>)
    requires NextQuestionSafe(store, user, subject, graph)
    ensures var r := NextQuestionOf(store, user, subject, graph);
      var i := FirstIndex(store.masteries, Owns(user, subject));
      && (i.None? ==> r == Ok(Recommendation(None, "Please initialize user mastery state first.", None)))
      && (i.Some? && graph.None? ==> r == Ok(Recommendation(None, "No knowledge graph found for this subject.", None)))
      && (r.Ok? && r.value.question.Some? ==>
            var q := r.value.question.value;
            && q in store.questions
            && r.value.concept == Some(q.concept_id)
            && i.Some? && graph.Some?
            && TargetOf(store.masteries[i.value], graph.value) == Ok(Target(Some(q.concept_id),
                 TargetOf(store.masteries[i.value], graph.value).value.reasoning))
            && q.concept_id in graph.value.nodes.at)
      && (r.Ok? && r.value.question.None? && r.value.concept.Some? ==>
            var c := r.value.concept.value;
            && r.value.reasoning == "No questions available for " + c + "."
            && forall q :: q in store.questions ==> q.concept_id != c)
      && (r.Err? ==> graph.Some? && r.error.key !in graph.value.nodes.at)
  {
    var i := FirstIndex(store.masteries, Owns(user, subject));
    if i.Some? && graph.Some? {
      var m := store.masteries[i.value];
      TargetKnown(m, graph.value);
      var t := TargetOf(m, graph.value);
      if t.Ok? && Truthy(t.value.concept) {
        FindQuestionSpec(store.questions, t.value.concept.value, m.elo_rating);
      }
    }
  }

  // ================================================================ feedback

  /**
   * The marks that open the feedback messages, as the characters the source file holds: the
   * party popper, check mark and cross emoji, each stored as its UTF-8 bytes read as
   * Windows-1252 text.
   */
  const MASTERED_MARK: string := "\U{00F0}\U{0178}\U{017D}\U{2030}"
  const CORRECT_MARK: string := "\U{00E2}\U{0153}\U{201C}"
  const INCORRECT_MARK: string := "\U{00E2}\U{0153}\U{2014}"

  /** The feedback message after an answer, with the numbers it quotes. */
  datatype Feedback =
    | MasteredFeedback(unlocked: nat)
    | CorrectProgress(pct: int)
    | CorrectKeepPracticing(pct: int)
    | IncorrectFoundational
    | IncorrectReview
  {
    function Text(): string {
      match this
      case MasteredFeedback(n) =>
        MASTERED_MARK + " Concept mastered! "
        + (if n > 0 then "You've unlocked " + NatToString(n) + " new concept(s)!" else "")
      case CorrectProgress(p) =>
        CORRECT_MARK + " Correct! You're making progress. (Mastery: " + IntToString(p) + "%)"
      case CorrectKeepPracticing(p) =>
        CORRECT_MARK + " Correct! Keep practicing to strengthen this concept. (Mastery: " + IntToString(p) + "%)"
      case IncorrectFoundational => INCORRECT_MARK + " Incorrect. This concept might need more foundational work."
      case IncorrectReview => INCORRECT_MARK + " Incorrect. Review the solution and try again."
    }
  }

  /** `str(i)` for an integer. */
  function IntToString(i: int): string {
    if i < 0 then "-" + NatToString(-i) else NatToString(i)
  }

  /** `_generate_feedback_message` */
  function GenerateFeedback(is_correct: bool, u: BktService.BktUpdate, concept_mastered: bool, unlocked: seq<string>): Feedback {
    if concept_mastered then MasteredFeedback(|unlocked|)
    else if is_correct then
      var pct := Trunc(u.P_L_new * 100.0);
      if u.mastery_status_new == Learning then CorrectProgress(pct) else CorrectKeepPracticing(pct)
    else if u.mastery_status_new == Locked then IncorrectFoundational
    else IncorrectReview
  }

  /**
   * The message opens with the party popper exactly for a newly mastered concept, with a check
   * mark exactly for another correct answer and with a cross exactly for a wrong one; a correct
   * answer quotes the new mastery as a whole percentage, rounded down, between 0 and 100.
   */
  lemma FeedbackSpec(is_correct: bool, u: BktService.BktUpdate, concept_mastered: bool, unlocked: seq<string>)
    requires BktService.InUnit(u.P_L_new)
    ensures var f := GenerateFeedback(is_correct, u, concept_mastered, unlocked);
      var t := f.Text();
      && |t| > |MASTERED_MARK|
      && (t[..|MASTERED_MARK|] == MASTERED_MARK <==> concept_mastered)
      && (t[..|CORRECT_MARK|] == CORRECT_MARK <==> !concept_mastered && is_correct)
      && (t[..|INCORRECT_MARK|] == INCORRECT_MARK <==> !concept_mastered && !is_correct)
      && (concept_mastered ==> f == MasteredFeedback(|unlocked|))
      && (f.CorrectProgress? || f.CorrectKeepPracticing? ==>
            && 0 <= f.pct <= 100
            && f.pct as real <= u.P_L_new * 100.0 < f.pct as real + 1.0
            && (f.CorrectProgress? <==> u.mastery_status_new == Learning))
      && (!concept_mastered && !is_correct ==> (f == IncorrectFoundational <==> u.mastery_status_new == Locked))
  {
    var f := GenerateFeedback(is_correct, u, concept_mastered, unlocked);
    var t := f.Text();
    match f
    case MasteredFeedback(n) =>
      MarkOpens(MASTERED_MARK, t[|MASTERED_MARK|..], t);
      assert t[0] != CORRECT_MARK[0] && t[0] != INCORRECT_MARK[0];
    case CorrectProgress(_) =>
      MarkOpens(CORRECT_MARK, t[|CORRECT_MARK|..], t);
      assert t[0] != MASTERED_MARK[0] && t[2] != INCORRECT_MARK[2];
    case CorrectKeepPracticing(_) =>
      MarkOpens(CORRECT_MARK, t[|CORRECT_MARK|..], t);
      assert t[0] != MASTERED_MARK[0] && t[2] != INCORRECT_MARK[2];
    case IncorrectFoundational =>
      MarkOpens(INCORRECT_MARK, t[|INCORRECT_MARK|..], t);
      assert t[0] != MASTERED_MARK[0] && t[2] != CORRECT_MARK[2];
    case IncorrectReview =>
      MarkOpens(INCORRECT_MARK, t[|INCORRECT_MARK|..], t);
      assert t[0] != MASTERED_MARK[0] && t[2] != CORRECT_MARK[2];
  }

  /** A message built as `mark + rest` opens with `mark`. */
  lemma MarkOpens(mark: string, rest: string, t: string)
    requires t == mark + rest
    ensures t[..|mark|] == mark
  {
  }

  /** The decimal digits of `s`, read back as a number. */
  function DigitsValue(s: string): int
    decreases |s|
  {
    if s == [] then 0 else DigitsValue(s[..|s| - 1]) * 10 + ((Last(s) as int) - ('0' as int))
  }

  /** `NatToString` writes decimal digits that read back as the number. */
  lemma {:induction false} NatToStringRoundTrip(n: nat)
    ensures DigitsValue(NatToString(n)) == n
    ensures forall i :: 0 <= i < |NatToString(n)| ==> '0' <= NatToString(n)[i] <= '9'
    decreases n
  {
    if n >= 10 {
      NatToStringRoundTrip(n / 10);
      var s := NatToString(n);
      assert s[..|s| - 1] == NatToString(n / 10);
    }
  }

  // ================================================================ answer submission

  /** Graphs with no prerequisite cycles: every weak-prerequisite search on them terminates. */
  ghost predicate GraphOk(graph: Option<KnowledgeGraph>) {
    graph.Some? ==> graph.value.nodes.Valid() && Acyclic(graph.value.nodes.at, Parents)
  }

  /** A stored graph document: a well-formed dict, with no assumption about cycles. */
  ghost predicate GraphWellFormed(graph: Option<KnowledgeGraph>) {
    graph.Some? ==> graph.value.nodes.Valid()
  }

  /**
   * The record an answer updates: the learner's own, else one seeded from the node's default
   * BKT parameters, else one seeded from the fixed defaults.
   */
  function ConceptBefore(m: UserMastery, c: string, graph: Option<KnowledgeGraph>): (r: ConceptMastery)
    ensures c in m.concepts ==> r == m.concepts[c]
    ensures c !in m.concepts ==> r.observations == 0 && r.correct_count == 0 && r.mastery_status == Locked
    ensures c !in m.concepts && graph.Some? && c in graph.value.nodes.at ==>
      var d := graph.value.nodes.at[c].default_params;
      r.P_L == d.P_L0 && r.P_T == d.P_T && r.P_G == d.P_G && r.P_S == d.P_S
    ensures c !in m.concepts && !(graph.Some? && c in graph.value.nodes.at) ==>
      r == DefaultConceptMastery()
  {
    if c in m.concepts then m.concepts[c]
    else if graph.Some? && c in graph.value.nodes.at then
      var d := graph.value.nodes.at[c].default_params;
      SeededConceptMastery(d.P_L0, d.P_T, d.P_G, d.P_S)
    else SeededConceptMastery(0.10, 0.10, 0.25, 0.10)
  }

  /** `full_bkt_update` on a record's own parameters; a record's fields always pass validation. */
  function BktOf(cm: ConceptMastery, is_correct: bool): (u: BktService.BktUpdate)
    ensures BktService.FullBktUpdate(cm.P_L, is_correct, cm.P_T, cm.P_G, cm.P_S) == Ok(u)
    ensures BktService.InUnit(u.P_L_new)
  {
    BktService.FullBktUpdate(cm.P_L, is_correct, cm.P_T, cm.P_G, cm.P_S).value
  }

  /** The record after the answer: new P_L and status, one more observation, one more correct if so. */
  function Recorded(cm: ConceptMastery, is_correct: bool): ConceptMastery {
    var u := BktOf(cm, is_correct);
    cm.(P_L := u.P_L_new as Prob,
        observations := cm.observations + 1,
        correct_count := cm.correct_count + (if is_correct then 1 else 0),
        mastery_status := u.mastery_status_new)
  }

  /** The question after the answer: its new rating, one more attempt, one more correct if so. */
  function Scored(q: Question, new_elo: nat, is_correct: bool): Question {
    q.(elo_rating := new_elo,
       times_attempted := q.times_attempted + 1,
       times_correct := q.times_correct + (if is_correct then 1 else 0))
  }

  /** `bkt_result["mastery_status_new"] == "mastered" and status_before != "mastered"` */
  predicate NewlyMastered(u: BktService.BktUpdate) {
    u.mastery_status_new == Mastered && u.mastery_status_old != Mastered
  }

  /** The mastered list after the answer: the concept appended once when newly mastered. */
  function MasteredAfter(mastered: seq<string>, c: string, newly: bool): seq<string> {
    if newly && c !in mastered then mastered + [c] else mastered
  }

  /** The concepts a newly mastered concept unlocks. */
  function UnlocksAfter(graph: Option<KnowledgeGraph>, mastered: seq<string>, unlocked: seq<string>, newly: bool)
    : seq<string>
    requires GraphWellFormed(graph)
  {
    if newly && graph.Some? then NextUnlockable(graph.value.nodes, SetOf(mastered), SetOf(unlocked)) else []
  }

  /** The response of `process_answer_submission`. */
  datatype Submission =
    | SubmissionError(error: string)
    | Submitted(
        is_correct: bool,
        mastery_change: real,
        elo_change: int,
        new_mastery_probability: real,
        new_mastery_status: MasteryStatus,
        new_student_elo: nat,
        unlocked_concepts: seq<string>,
        concept_mastered: bool,
        feedback_message: string,
        recommended_next_concept: Option<string>,
        next_question_id: Option<string>)
    /** The next-question step raised after both writes had been made. */
    | Raised(raised: LookupError)

  /** Everything the BKT and Elo updates write, before the next recommendation is looked up. */
  datatype Written = Written(
    question_index: nat,
    mastery_index: nat,
    update: BktService.BktUpdate,
    mastery: UserMastery,
    question: Question,
    unlocks: seq<string>,
    store: Store)

  /** The writes of an answer for the question at `qi` and the record at `mi`. */
  ghost function WritesOf(store: Store, graph: Option<KnowledgeGraph>, qi: nat, mi: nat, is_correct: bool,
                         pow10: real -> real): (w: Written)
    requires qi < |store.questions| && mi < |store.masteries|
    requires BktService.Pow10Laws(pow10) && GraphWellFormed(graph)
    ensures |w.store.questions| == |store.questions| && |w.store.masteries| == |store.masteries|
  {
    var q := store.questions[qi];
    var m := store.masteries[mi];
    var c := q.concept_id;
    var before := ConceptBefore(m, c, graph);
    var u := BktOf(before, is_correct);
    var elo := BktService.UpdateElo(pow10, m.elo_rating, q.elo_rating, is_correct, BktService.DEFAULT_K);
    var newly := NewlyMastered(u);
    var mastered := MasteredAfter(m.mastered_concepts, c, newly);
    var unlocks := UnlocksAfter(graph, mastered, m.unlocked_concepts, newly);
    var m' := m.(concepts := m.concepts[c := Recorded(before, is_correct)],
                 elo_rating := elo.0,
                 total_questions_answered := m.total_questions_answered + 1,
                 mastered_concepts := mastered,
                 unlocked_concepts := m.unlocked_concepts + unlocks);
    var q' := Scored(q, elo.1, is_correct);
    Written(qi, mi, u, m', q', unlocks, Store(store.masteries[mi := m'], store.questions[qi := q']))
  }

  /**
   * What a submission needs of the graph beyond a well-formed dict: the recommendation made on
   * the store as written must not run the weak-prerequisite search into a prerequisite cycle.
   */
  ghost predicate SubmitSafe(store: Store, user: string, subject: string, graph: Option<KnowledgeGraph>,
                             question_id: string, is_correct: bool, pow10: real -> real)
    requires BktService.Pow10Laws(pow10) && GraphWellFormed(graph)
  {
    var qi := FirstIndex(store.questions, HasId(question_id));
    var mi := FirstIndex(store.masteries, Owns(user, subject));
    qi.Some? && mi.Some? ==>
      NextQuestionSafe(WritesOf(store, graph, qi.value, mi.value, is_correct, pow10).store, user, subject, graph)
  }

  /** Every submission is safe on a graph without prerequisite cycles. */
  lemma SubmitSafeFromGraph(store: Store, user: string, subject: string, graph: Option<KnowledgeGraph>,
                            question_id: string, is_correct: bool, pow10: real -> real)
    requires BktService.Pow10Laws(pow10) && GraphOk(graph)
    ensures SubmitSafe(store, user, subject, graph, question_id, is_correct, pow10)
  {
  }

  /** `process_answer_submission`, intended behaviour: the response and the store afterwards. */
  ghost function SubmitOf(store: Store, user: string, subject: string, graph: Option<KnowledgeGraph>,
                          question_id: string, is_correct: bool, pow10: real -> real): (Submission, Store)
    requires BktService.Pow10Laws(pow10) && GraphWellFormed(graph)
    requires SubmitSafe(store, user, subject, graph, question_id, is_correct, pow10)
  {
    match FirstIndex(store.questions, HasId(question_id))
    case None => (SubmissionError("Question not found"), store)
    case Some(qi) =>
      match FirstIndex(store.masteries, Owns(user, subject))
      case None => (SubmissionError("User mastery state not found"), store)
      case Some(mi) =>
        var w := WritesOf(store, graph, qi, mi, is_correct, pow10);
        match NextQuestionOf(w.store, user, subject, graph)
        case Err(e) => (Raised(e), w.store)
        case Ok(next) => (Respond(is_correct, store.masteries[mi].elo_rating, w, next), w.store)
  }

  /** The response dict, once the writes are made and the next recommendation is known. */
  function Respond(is_correct: bool, elo_before: nat, w: Written, next: Recommendation): Submission {
    var u := w.update;
    Submitted(is_correct, u.mastery_change, w.mastery.elo_rating - elo_before, u.P_L_new, u.mastery_status_new,
              w.mastery.elo_rating, w.unlocks, NewlyMastered(u),
              GenerateFeedback(is_correct, u, NewlyMastered(u), w.unlocks).Text(),
              next.concept, if next.question.Some? then Some(next.question.value.id) else None)
  }

  /**
   * `process_answer_submission`: seed the record if needed, apply the BKT and Elo updates,
   * record a new mastery and the concepts it unlocks, write both documents, then recommend.
   */
  method ProcessAnswerSubmission(store: Store, user: string, subject: string, graph: Option<KnowledgeGraph>,
                                 question_id: string, is_correct: bool, pow10: real -> real)
    returns (result: Submission, store': Store)
    requires BktService.Pow10Laws(pow10) && GraphWellFormed(graph)
    requires SubmitSafe(store, user, subject, graph, question_id, is_correct, pow10)
    ensures (result, store') == SubmitOf(store, user, subject, graph, question_id, is_correct, pow10)
  {
    var qi := FirstIndex(store.questions, HasId(question_id));
    if qi.None? {
      return SubmissionError("Question not found"), store;
    }
    var question := store.questions[qi.value];
    var concept := question.concept_id;
    var mi := FirstIndex(store.masteries, Owns(user, subject));
    if mi.None? {
      return SubmissionError("User mastery state not found"), store;
    }
    var w := ApplyAnswer(store, graph, qi.value, mi.value, is_correct, pow10);
    store' := w.store;
    var next := GetNextQuestion(store', user, subject, graph);
    if next.Err? {
      return Raised(next.error), store';
    }
    result := Respond(is_correct, store.masteries[mi.value].elo_rating, w, next.value);
  }

  /** On an acyclic graph the weak-prerequisite search is safe for every learner. */
  lemma NextQuestionSafeFromGraph(store: Store, user: string, subject: string, graph: Option<KnowledgeGraph>)
    requires GraphOk(graph)
    ensures NextQuestionSafe(store, user, subject, graph)
  {
  }

  /**
   * Lines 250-343 of `process_answer_submission`: the concept record (seeded if new), the BKT
   * and Elo updates applied to the learner's snapshot, the achievements, and both writes.
   */
  method ApplyAnswer(store: Store, graph: Option<KnowledgeGraph>, qi: nat, mi: nat, is_correct: bool,
                     pow10: real -> real) returns (w: Written)
    requires qi < |store.questions| && mi < |store.masteries|
    requires BktService.Pow10Laws(pow10) && GraphWellFormed(graph)
    ensures w == WritesOf(store, graph, qi, mi, is_correct, pow10)
  {
    var question := store.questions[qi];
    var concept := question.concept_id;
    var state := store.masteries[mi];
    var record := ConceptBefore(state, concept, graph);
    var u := BktOf(record, is_correct);
    var elo := BktService.UpdateElo(pow10, state.elo_rating, question.elo_rating, is_correct, BktService.DEFAULT_K);

    record := record.(P_L := u.P_L_new as Prob, observations := record.observations + 1);
    if is_correct {
      record := record.(correct_count := record.correct_count + 1);
    }
    record := record.(mastery_status := u.mastery_status_new);
    assert record == Recorded(ConceptBefore(store.masteries[mi], concept, graph), is_correct);
    state := state.(concepts := state.concepts[concept := record], elo_rating := elo.0,
                    total_questions_answered := state.total_questions_answered + 1);

    var unlocked;
    state, unlocked := RecordAchievements(state, concept, u, graph);
    w := Written(qi, mi, u, state, Scored(question, elo.1, is_correct), unlocked,
                 Store(store.masteries[mi := state], store.questions[qi := Scored(question, elo.1, is_correct)]));
  }

  /** Lines 309-331: a newly mastered concept joins the mastered list, and what it unlocks is appended. */
  method RecordAchievements(state: UserMastery, concept: string, u: BktService.BktUpdate, graph: Option<KnowledgeGraph>)
    returns (state': UserMastery, unlocked: seq<string>)
    requires GraphWellFormed(graph)
    ensures var mastered := MasteredAfter(state.mastered_concepts, concept, NewlyMastered(u));
      && unlocked == UnlocksAfter(graph, mastered, state.unlocked_concepts, NewlyMastered(u))
      && state' == state.(mastered_concepts := mastered, unlocked_concepts := state.unlocked_concepts + unlocked)
  {
    state' := state;
    unlocked := [];
    if u.mastery_status_new == Mastered && u.mastery_status_old != Mastered {
      if concept !in state'.mastered_concepts {
        state' := state'.(mastered_concepts := state'.mastered_concepts + [concept]);
      }
      if graph.Some? {
        var newUnlocks := GetNextUnlockableConcepts(graph.value, SetOf(state'.mastered_concepts),
                                                    SetOf(state'.unlocked_concepts));
        unlocked := AppendUnlocks(state'.unlocked_concepts, newUnlocks, graph.value.nodes,
                                  SetOf(state'.mastered_concepts));
        state' := state'.(unlocked_concepts := state'.unlocked_concepts + unlocked);
      }
    }
  }

  /**
   * The `for unlock_id in new_unlocks` loop: each id not yet unlocked is appended to the
   * learner's list and to the response. On the output of `get_next_unlockable_concepts` the
   * membership test always passes, so everything is appended, in order.
   */
  method AppendUnlocks(unlocked: seq<string>, newUnlocks: seq<string>, nodes: ConceptMap, mastered: set<string>)
    returns (added: seq<string>)
    requires nodes.Valid() && newUnlocks == NextUnlockable(nodes, mastered, SetOf(unlocked))
    ensures added == newUnlocks
  {
    NextUnlockableSpec(nodes, mastered, SetOf(unlocked));
    var list := unlocked;
    added := [];
    var i := 0;
    while i < |newUnlocks|
      invariant 0 <= i <= |newUnlocks|
      invariant added == newUnlocks[..i] && list == unlocked + added
    {
      var id := newUnlocks[i];
      assert id in newUnlocks;
      assert id !in unlocked;
      assert id !in newUnlocks[..i] by {
        forall j | 0 <= j < i
          ensures newUnlocks[j] != id
        {
        }
      }
      if id !in list {
        list := list + [id];
        added := added + [id];
      }
      assert newUnlocks[..i + 1] == newUnlocks[..i] + [id];
      i := i + 1;
    }
    assert newUnlocks[..|newUnlocks|] == newUnlocks;
  }

  // ================================================================ what a submission does

  /** A missing question or learner record is reported and nothing is written; otherwise no error dict. */
  lemma SubmitErrors(store: Store, user: string, subject: string, graph: Option<KnowledgeGraph>,
                     question_id: string, is_correct: bool, pow10: real -> real)
    requires BktService.Pow10Laws(pow10) && GraphWellFormed(graph)
    requires SubmitSafe(store, user, subject, graph, question_id, is_correct, pow10)
    ensures var (result, store') := SubmitOf(store, user, subject, graph, question_id, is_correct, pow10);
      && ((forall q :: q in store.questions ==> q.id != question_id) ==>
            result == SubmissionError("Question not found") && store' == store)
      && ((exists q :: q in store.questions && q.id == question_id)
          && (forall m :: m in store.masteries ==> !(m.user_id == user && m.subject_id == subject)) ==>
            result == SubmissionError("User mastery state not found") && store' == store)
      && ((exists q :: q in store.questions && q.id == question_id)
          && (exists m :: m in store.masteries && m.user_id == user && m.subject_id == subject) ==>
            !result.SubmissionError?)
  {
    FirstIndexFinds(store.questions, HasId(question_id));
    FirstIndexFinds(store.masteries, Owns(user, subject));
    var qi := FirstIndex(store.questions, HasId(question_id));
    var mi := FirstIndex(store.masteries, Owns(user, subject));
    if qi.Some? && mi.Some? {
      SubmitFoundResponds(store, user, subject, graph, question_id, is_correct, pow10);
    }
  }

  lemma SubmitFoundResponds(store: Store, user: string, subject: string, graph: Option<KnowledgeGraph>,
                            question_id: string, is_correct: bool, pow10: real -> real)
    requires BktService.Pow10Laws(pow10) && GraphWellFormed(graph)
    requires SubmitSafe(store, user, subject, graph, question_id, is_correct, pow10)
    requires FirstIndex(store.questions, HasId(question_id)).Some?
    requires FirstIndex(store.masteries, Owns(user, subject)).Some?
    ensures !SubmitOf(store, user, subject, graph, question_id, is_correct, pow10).0.SubmissionError?
  {
  }

  /** `find_one` finds a document exactly when some document matches. */
  lemma FirstIndexFinds<T>(s: seq<T>, matches: T -> bool)
    ensures FirstIndex(s, matches).Some? <==> exists x :: x in s && matches(x)
  {
    if exists x :: x in s && matches(x) {
      var x :| x in s && matches(x);
      var i :| 0 <= i < |s| && s[i] == x;
      assert matches(s[i]);
    }
  }

  /**
   * The writes of an answer: only the answered question (the first with that id) and the
   * learner's record (the first for the pair) change. The question gains an attempt, and a
   * correct one if so; the learner's concept record gains an observation, takes the BKT posterior
   * followed by the learning step as its P_L and the status of that P_L; the total count rises
   * by one; a correct answer moves the learner's Elo up and the question's down, by at most K.
   */
  lemma WritesSpec(store: Store, graph: Option<KnowledgeGraph>, qi: nat, mi: nat, is_correct: bool,
                   pow10: real -> real)
    requires qi < |store.questions| && mi < |store.masteries|
    requires BktService.Pow10Laws(pow10) && GraphWellFormed(graph)
    ensures var w := WritesOf(store, graph, qi, mi, is_correct, pow10);
      var q, q' := store.questions[qi], w.store.questions[qi];
      var m, m' := store.masteries[mi], w.store.masteries[mi];
      var c := q.concept_id;
      var before := ConceptBefore(m, c, graph);
      var after := m'.concepts[c];
      && (forall j :: 0 <= j < |store.questions| && j != qi ==> w.store.questions[j] == store.questions[j])
      && (forall j :: 0 <= j < |store.masteries| && j != mi ==> w.store.masteries[j] == store.masteries[j])
      && q' == q.(elo_rating := q'.elo_rating, times_attempted := q'.times_attempted, times_correct := q'.times_correct)
      && q'.times_attempted == q.times_attempted + 1
      && q'.times_correct == q.times_correct + (if is_correct then 1 else 0)
      && m'.id == m.id && m'.user_id == m.user_id && m'.subject_id == m.subject_id
      && m'.current_focus == m.current_focus
      && m'.total_questions_answered == m.total_questions_answered + 1
      && m'.concepts.Keys == m.concepts.Keys + {c}
      && (forall k :: k in m.concepts && k != c ==> m'.concepts[k] == m.concepts[k])
      && after.observations == before.observations + 1
      && after.correct_count == before.correct_count + (if is_correct then 1 else 0)
      && after.P_T == before.P_T && after.P_G == before.P_G && after.P_S == before.P_S
      && after.P_L == BktService.Step(before.P_L, is_correct, before.P_T, before.P_G, before.P_S)
      && after.mastery_status == BktService.DetermineMasteryStatus(after.P_L)
      && (m'.elo_rating as int) - (m.elo_rating as int) <= BktService.DEFAULT_K
      && (m'.elo_rating as int) - (m.elo_rating as int) >= -BktService.DEFAULT_K
      && (is_correct ==> m'.elo_rating >= m.elo_rating && q'.elo_rating <= q.elo_rating)
      && (!is_correct ==> m'.elo_rating <= m.elo_rating && q'.elo_rating >= q.elo_rating)
  {
  }

  /**
   * A correct answer never lowers the concept's mastery, provided guess and slip sum to at most 1
   * and the evidence is not zero.
   */
  lemma CorrectAnswerRaisesRecord(before: ConceptMastery)
    requires before.P_G + before.P_S <= 1.0
    ensures BktService.Denominator(before.P_L, true, before.P_G, before.P_S) != 0.0 ==>
      Recorded(before, true).P_L >= before.P_L
  {
    BktService.CorrectAnswerNeverLowersMastery(before.P_L, before.P_T, before.P_G, before.P_S);
  }

  /**
   * The achievements of an answer: `concept_mastered` exactly when the concept crosses into
   * mastered; the concept then joins the mastered list unless it is there; the unlocked list only
   * grows, by the reported concepts, each a known concept not unlocked before and not mastered
   * now (so never the concept just mastered) whose prerequisites are all mastered now, shallowest
   * first; nothing is unlocked without a new mastery or without a graph.
   */
  lemma AchievementsSpec(store: Store, graph: Option<KnowledgeGraph>, qi: nat, mi: nat, is_correct: bool,
                         pow10: real -> real)
    requires qi < |store.questions| && mi < |store.masteries|
    requires BktService.Pow10Laws(pow10) && GraphWellFormed(graph)
    ensures var w := WritesOf(store, graph, qi, mi, is_correct, pow10);
      var m, m' := store.masteries[mi], w.store.masteries[mi];
      var c := store.questions[qi].concept_id;
      var newly := NewlyMastered(w.update);
      && (newly <==> w.update.mastery_status_new == Mastered
                     && BktService.DetermineMasteryStatus(ConceptBefore(m, c, graph).P_L) != Mastered)
      && (m'.mastered_concepts == if newly && c !in m.mastered_concepts then m.mastered_concepts + [c]
                                   else m.mastered_concepts)
      && m'.unlocked_concepts == m.unlocked_concepts + w.unlocks
      && ((!newly || graph.None?) ==> w.unlocks == [])
      && (graph.Some? ==>
            var nodes := graph.value.nodes.at;
            && SortedByDepth(nodes, w.unlocks)
            && forall k :: k in w.unlocks <==>
                 newly && k in nodes && k !in m.unlocked_concepts && k !in m'.mastered_concepts
                 && forall p :: p in nodes[k].parents ==> p in m'.mastered_concepts)
  {
    var w := WritesOf(store, graph, qi, mi, is_correct, pow10);
    var m, m' := store.masteries[mi], w.store.masteries[mi];
    if graph.Some? && NewlyMastered(w.update) {
      var ms, us := SetOf(m'.mastered_concepts), SetOf(m.unlocked_concepts);
      NextUnlockableSpec(graph.value.nodes, ms, us);
      forall k ensures k in us <==> k in m.unlocked_concepts {}
      forall k ensures k in ms <==> k in m'.mastered_concepts {}
    }
  }

  /** Answers keep the learner's mastered and unlocked lists free of repeats. */
  lemma {:induction false} SubmitKeepsListsDistinct(store: Store, graph: Option<KnowledgeGraph>, qi: nat, mi: nat,
                                                    is_correct: bool, pow10: real -> real)
    requires qi < |store.questions| && mi < |store.masteries|
    requires BktService.Pow10Laws(pow10) && GraphWellFormed(graph)
    requires NoDups(store.masteries[mi].mastered_concepts) && NoDups(store.masteries[mi].unlocked_concepts)
    ensures var m' := WritesOf(store, graph, qi, mi, is_correct, pow10).store.masteries[mi];
      NoDups(m'.mastered_concepts) && NoDups(m'.unlocked_concepts)
  {
    var w := WritesOf(store, graph, qi, mi, is_correct, pow10);
    var m, m' := store.masteries[mi], w.store.masteries[mi];
    var c := store.questions[qi].concept_id;
    if NewlyMastered(w.update) && c !in m.mastered_concepts {
      NoDupsAppend(m.mastered_concepts, c);
    }
    if NewlyMastered(w.update) && graph.Some? {
      var ms, us := SetOf(m'.mastered_concepts), SetOf(m.unlocked_concepts);
      NextUnlockableSpec(graph.value.nodes, ms, us);
      NoDupsConcat(m.unlocked_concepts, w.unlocks);
    }
  }

  lemma NoDupsConcat(a: seq<string>, b: seq<string>)
    requires NoDups(a) && NoDups(b) && forall x :: x in b ==> x !in a
    ensures NoDups(a + b)
  {
    forall i, j | 0 <= i < j < |a + b|
      ensures (a + b)[i] != (a + b)[j]
    {
      if j >= |a| && i < |a| {
        assert (a + b)[j] in b;
      }
    }
  }

  /**
   * The response reports the new mastery and Elo truthfully, an Elo change of at most K either
   * way, and a next question only when it is a question of the recommended concept in the store
   * as written.
   */
  lemma SubmitResponse(store: Store, user: string, subject: string, graph: Option<KnowledgeGraph>,
                       question_id: string, is_correct: bool, pow10: real -> real, qi: nat, mi: nat)
    requires BktService.Pow10Laws(pow10) && GraphWellFormed(graph)
    requires SubmitSafe(store, user, subject, graph, question_id, is_correct, pow10)
    requires FirstIndex(store.questions, HasId(question_id)) == Some(qi)
    requires FirstIndex(store.masteries, Owns(user, subject)) == Some(mi)
    ensures var (result, store') := SubmitOf(store, user, subject, graph, question_id, is_correct, pow10);
      var c := store.questions[qi].concept_id;
      result.Submitted? ==>
        && result.is_correct == is_correct
        && result.new_student_elo == store'.masteries[mi].elo_rating
        && result.elo_change == store'.masteries[mi].elo_rating - store.masteries[mi].elo_rating
        && -BktService.DEFAULT_K <= result.elo_change <= BktService.DEFAULT_K
        && result.new_mastery_probability == store'.masteries[mi].concepts[c].P_L
        && result.new_mastery_status == store'.masteries[mi].concepts[c].mastery_status
        && result.mastery_change == result.new_mastery_probability - ConceptBefore(store.masteries[mi], c, graph).P_L
        && (result.next_question_id.Some? ==>
              exists q :: q in store'.questions && q.id == result.next_question_id.value
                && result.recommended_next_concept == Some(q.concept_id))
  {
    var w := WritesOf(store, graph, qi, mi, is_correct, pow10);
    var next := NextQuestionOf(w.store, user, subject, graph);
    SubmitShape(store, user, subject, graph, question_id, is_correct, pow10, qi, mi);
    if next.Ok? {
      RespondSpec(store, graph, qi, mi, is_correct, pow10, next.value);
      NextQuestionCases(w.store, user, subject, graph);
    }
  }

  lemma SubmitShape(store: Store, user: string, subject: string, graph: Option<KnowledgeGraph>,
                    question_id: string, is_correct: bool, pow10: real -> real, qi: nat, mi: nat)
    requires BktService.Pow10Laws(pow10) && GraphWellFormed(graph)
    requires SubmitSafe(store, user, subject, graph, question_id, is_correct, pow10)
    requires FirstIndex(store.questions, HasId(question_id)) == Some(qi)
    requires FirstIndex(store.masteries, Owns(user, subject)) == Some(mi)
    ensures var w := WritesOf(store, graph, qi, mi, is_correct, pow10);
      NextQuestionSafe(w.store, user, subject, graph)
      && var next := NextQuestionOf(w.store, user, subject, graph);
         SubmitOf(store, user, subject, graph, question_id, is_correct, pow10)
           == (if next.Err? then Raised(next.error)
               else Respond(is_correct, store.masteries[mi].elo_rating, w, next.value), w.store)
  {
  }

  lemma RespondSpec(store: Store, graph: Option<KnowledgeGraph>, qi: nat, mi: nat, is_correct: bool,
                    pow10: real -> real, next: Recommendation)
    requires qi < |store.questions| && mi < |store.masteries|
    requires BktService.Pow10Laws(pow10) && GraphWellFormed(graph)
    ensures var w := WritesOf(store, graph, qi, mi, is_correct, pow10);
      var r := Respond(is_correct, store.masteries[mi].elo_rating, w, next);
      var m' := w.store.masteries[mi];
      var c := store.questions[qi].concept_id;
      && r.is_correct == is_correct
      && r.new_student_elo == m'.elo_rating
      && r.elo_change == m'.elo_rating - store.masteries[mi].elo_rating
      && -BktService.DEFAULT_K <= r.elo_change <= BktService.DEFAULT_K
      && r.new_mastery_probability == m'.concepts[c].P_L
      && r.new_mastery_status == m'.concepts[c].mastery_status
      && r.mastery_change == r.new_mastery_probability - ConceptBefore(store.masteries[mi], c, graph).P_L
      && r.recommended_next_concept == next.concept
      && (r.next_question_id.Some? ==> next.question.Some? && r.next_question_id.value == next.question.value.id)
  {
    WritesSpec(store, graph, qi, mi, is_correct, pow10);
  }

  // ================================================================ the source as written

  /** What an as-written call can end in besides a response: the two exceptions it raises. */
  datatype AsWrittenOutcome =
    | Responded(response: Submission)
    | UnboundLocalError(variable: string)
    | TypeError(message: string)

  /**
   * `process_answer_submission` as written: the seeding reads the local `graph` before it is
   * first assigned, and `full_bkt_update` is called with a `mistake_count` keyword it does not
   * declare. Neither depends on the graph, the answer or the Elo function.
   */
  function ProcessAnswerAsWritten(store: Store, user: string, subject: string, question_id: string): AsWrittenOutcome {
    match FirstIndex(store.questions, HasId(question_id))
    case None => Responded(SubmissionError("Question not found"))
    case Some(qi) =>
      match FirstIndex(store.masteries, Owns(user, subject))
      case None => Responded(SubmissionError("User mastery state not found"))
      case Some(mi) =>
        if store.questions[qi].concept_id !in store.masteries[mi].concepts then UnboundLocalError("graph")
        else TypeError("BKTService.full_bkt_update() got an unexpected keyword argument 'mistake_count'")
  }

  /**
   * As written, no submission whose question and learner record exist ever completes: the first
   * answer on a concept raises the unbound-local error, every later one the keyword error. The
   * intended operation completes on the same inputs, with its writes.
   */
  lemma AsWrittenNeverCompletes(store: Store, user: string, subject: string, graph: Option<KnowledgeGraph>,
                                question_id: string, is_correct: bool, pow10: real -> real)
    requires BktService.Pow10Laws(pow10) && GraphWellFormed(graph)
    requires SubmitSafe(store, user, subject, graph, question_id, is_correct, pow10)
    requires exists q :: q in store.questions && q.id == question_id
    requires exists m :: m in store.masteries && m.user_id == user && m.subject_id == subject
    ensures var r := ProcessAnswerAsWritten(store, user, subject, question_id);
      var qi := FirstIndex(store.questions, HasId(question_id)).value;
      var mi := FirstIndex(store.masteries, Owns(user, subject)).value;
      && !r.Responded?
      && (r.UnboundLocalError? <==> store.questions[qi].concept_id !in store.masteries[mi].concepts)
    ensures !SubmitOf(store, user, subject, graph, question_id, is_correct, pow10).0.SubmissionError?
  {
    FirstIndexFinds(store.questions, HasId(question_id));
    FirstIndexFinds(store.masteries, Owns(user, subject));
    SubmitFoundResponds(store, user, subject, graph, question_id, is_correct, pow10);
  }

  // ================================================================ initialisation

  /**
   * `initialize_user_mastery`, with `fresh_id` standing for the generated ObjectId: the existing
   * record's id, the missing-graph error, or a new record whose unlocked list is the graph's
   * roots and whose focus is the first root.
   */
  function InitializeUserMastery(store: Store, user: string, subject: string, graph: Option<KnowledgeGraph>,
                                 fresh_id: string): (Result<string, string>, Store)
  {
    match FirstIndex(store.masteries, Owns(user, subject))
    case Some(i) => (Ok(store.masteries[i].id), store)
    case None =>
      if graph.None? then (Err("No knowledge graph found for this subject"), store)
      else
        var roots := graph.value.root_concepts;
        var m := UserMastery(fresh_id, user, subject, 1200, map[], roots, [],
                             if roots != [] then Some(roots[0]) else None, 0);
        (Ok(fresh_id), Store(store.masteries + [m], store.questions))
  }

  /**
   * Initialisation leaves the store alone when a record exists or the graph is missing;
   * otherwise it appends one record, which is then the record found for the pair: Elo 1200,
   * nothing tried or mastered, the roots unlocked, the first root in focus.
   */
  lemma InitializeSpec(store: Store, user: string, subject: string, graph: Option<KnowledgeGraph>, fresh_id: string)
    ensures var (r, store') := InitializeUserMastery(store, user, subject, graph, fresh_id);
      var i := FirstIndex(store.masteries, Owns(user, subject));
      && (i.Some? ==> r == Ok(store.masteries[i.value].id) && store' == store)
      && (i.None? && graph.None? ==> r == Err("No knowledge graph found for this subject") && store' == store)
      && (i.None? && graph.Some? ==>
            && r == Ok(fresh_id)
            && store'.questions == store.questions
            && store'.masteries[..|store.masteries|] == store.masteries
            && |store'.masteries| == |store.masteries| + 1
            && FirstIndex(store'.masteries, Owns(user, subject)) == Some(|store.masteries|)
            && var m := store'.masteries[|store.masteries|];
               && m.id == fresh_id && m.user_id == user && m.subject_id == subject
               && m.elo_rating == DEFAULT_ELO && m.concepts == map[] && m.mastered_concepts == []
               && m.unlocked_concepts == graph.value.root_concepts && m.total_questions_answered == 0
               && (m.current_focus.Some? <==> graph.value.root_concepts != [])
               && (m.current_focus.Some? ==> m.current_focus.value == graph.value.root_concepts[0]))
  {
    var i := FirstIndex(store.masteries, Owns(user, subject));
    if i.None? && graph.Some? {
      var store' := InitializeUserMastery(store, user, subject, graph, fresh_id).1;
      FirstIndexAppend(store.masteries, store'.masteries[|store.masteries|], Owns(user, subject));
      assert store'.masteries == store.masteries + [store'.masteries[|store.masteries|]];
    }
  }

  lemma {:induction false} FirstIndexAppend<T>(s: seq<T>, x: T, matches: T -> bool)
    requires FirstIndex(s, matches).None? && matches(x)
    ensures FirstIndex(s + [x], matches) == Some(|s|)
    decreases |s|
  {
    if s != [] {
      assert (s + [x])[1..] == s[1..] + [x];
      FirstIndexAppend(s[1..], x, matches);
    }
  }

  /** Initialising twice is initialising once: the second call returns the same id and writes nothing. */
  lemma InitializeIdempotent(store: Store, user: string, subject: string, graph: Option<KnowledgeGraph>,
                             id1: string, id2: string)
    ensures var (r1, s1) := InitializeUserMastery(store, user, subject, graph, id1);
      var (r2, s2) := InitializeUserMastery(s1, user, subject, graph, id2);
      r1.Ok? ==> r2 == r1 && s2 == s1
  {
    InitializeSpec(store, user, subject, graph, id1);
  }

  /**
   * Right after initialisation on a graph whose first root is a known, non-empty id, the learner
   * is sent to that root with "Continuing work on" its name, and is served a question of it
   * when the pool has one.
   */
  lemma FirstRecommendationAfterInitialize(store: Store, user: string, subject: string, graph: KnowledgeGraph,
                                           fresh_id: string)
    requires graph.nodes.Valid()
    requires FirstIndex(store.masteries, Owns(user, subject)).None?
    requires graph.root_concepts != [] && graph.root_concepts[0] != "" && graph.root_concepts[0] in graph.nodes.at
    ensures var store' := InitializeUserMastery(store, user, subject, Some(graph), fresh_id).1;
      var root := graph.root_concepts[0];
      NextQuestionSafe(store', user, subject, Some(graph))
      && var r := NextQuestionOf(store', user, subject, Some(graph));
         && r.Ok? && r.value.concept == Some(root)
         && (r.value.question.Some? ==> r.value.reasoning == ContinuingWork(graph.nodes.at[root].name).Text())
         && (r.value.question.Some? <==> exists q :: q in store.questions && q.concept_id == root)
  {
    var store' := InitializeUserMastery(store, user, subject, Some(graph), fresh_id).1;
    InitializeSpec(store, user, subject, Some(graph), fresh_id);
    FindQuestionSpec(store.questions, graph.root_concepts[0], DEFAULT_ELO);
  }
}
