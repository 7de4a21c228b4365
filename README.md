# Adaptive practice core: BKT mastery, the concept graph, and recommendations

This project models the core of an adaptive maths-practice backend in Dafny and proves properties
of the model. Each learner has a mastery record per subject, with one Bayesian Knowledge Tracing
(BKT) record per concept and an Elo rating. The concepts of a subject form a prerequisite graph.
The core consists of:

- **BKT and Elo** (`bkt_service.dfy`). The BKT posterior, the learning step, the three mastery
  bands, the full update, the Elo update and the Elo matching window.
- **Graph service** (`graph_service.dfy`, with walks and acyclicity in `graph_paths.dfy`).
  - Depth computation by memoised depth-first search.
  - Direct and transitive prerequisites and dependents.
  - The regression search for a weak prerequisite.
  - The cascade-unlock rule, with its stable sort by depth.
  - Cycle detection.
- **Recommendation engine** (`recommendation_engine.dfy`).
  - Choosing the target concept and a question within the Elo window.
  - Processing an answer, including achievements and the response.
  - The feedback message and initialising a learner.
- **Knowledge-graph generator** (`knowledge_graph_generator.dfy`). The deterministic part of
  graph generation:
  - turning the generated concept list into nodes;
  - deriving children from parents;
  - picking the roots;
  - normalising batch tagging answers.
- **PDF extractor** (`pdf_extractor.dfy`). The box arithmetic of question extraction:
  - the position estimate;
  - the crop clamp;
  - the grounded box with padding;
  - the fallback strip.
- **Shared code.**
  - `text.dfy` cleans the model's replies by removing markdown fences.
  - `py_numbers.dfy` models Python's `int()` on floats.
  - The records are in `knowledge_graph.dfy`, `user_mastery.dfy` and `question.dfy`.
  - `wrappers.dfy` and `seqs.dfy` hold small utilities.

**Modelling choices.**

- **Functions and methods.** Pure computations are functions. The source's loops are methods
  with loop invariants, and each method is proved equal to a specification function. Properties
  of those functions are lemmas.
- **Dicts.** A Python dict is an ordered map, `ConceptMap(order, at)`. This keeps insertion
  order, which decides the ties of the stable sort, the root order and the concept named in a
  cycle message.
- **Database.** The database is a `Store` value: the mastery records and the questions, each in
  insertion order. `find_one` is the first matching document. An operation that writes returns
  the new store.
- **Exceptions.** The exceptions the code raises are modelled as results:
  - `ValueError` for an invalid probability;
  - `KeyError` for an unknown id;
  - the two errors described under Findings.
- **Numbers.** Floats are reals. `10 ** x` is a parameter that obeys the exponent laws.

## Model

| member | source | states |
|---|---|---|
| BktService.PosteriorOf | backend/app/services/bkt_service.py:57-70 | The posterior is numerator over denominator when the denominator is non-zero, and 0 when it is zero; it is always a probability |
| BktService.CalculatePosterior | backend/app/services/bkt_service.py:20-70 | Succeeds exactly when P_L, P_G and P_S are all in [0, 1]; otherwise reports the first invalid one by name and value, in the order checked; on success returns the posterior, which lies in [0, 1] |
| BktService.PosteriorIsBayes | backend/app/services/bkt_service.py:41-47 | The posterior equals Bayes' rule over the two hidden states (knew / did not know), with guess and slip as the likelihoods |
| BktService.PosteriorExtremes | backend/app/services/bkt_service.py:57-70 | P_L = 0 gives posterior 0; P_L = 1 gives posterior 1 unless the evidence is zero, in which case it gives 0 |
| BktService.PosteriorDirection | backend/app/services/bkt_service.py:57-64 | With P_G + P_S <= 1, a correct answer never lowers the posterior below P_L (non-zero evidence) and an incorrect one never raises it |
| BktService.CorrectRaises | backend/app/services/bkt_service.py:57-60 | With P_G + P_S <= 1 and non-zero evidence, the posterior after a correct answer is at least P_L |
| BktService.IncorrectLowers | backend/app/services/bkt_service.py:61-64 | With P_G + P_S <= 1 and non-zero evidence, the posterior after an incorrect answer is at most P_L |
| BktService.MasteryAfterProperties | backend/app/services/bkt_service.py:104-107 | The learning step is P_knew + (1 - P_knew) * P_T, which is at least both P_knew and P_T; certainty stays certain; from 0 it is P_T |
| BktService.UpdateMastery | backend/app/services/bkt_service.py:73-107 | Succeeds exactly when all three inputs are in [0, 1], naming the first invalid one otherwise; on success the result is the learning step and lies in [0, 1] |
| BktService.StatusBands | backend/app/services/bkt_service.py:109-127 | Mastered exactly when P_L >= 0.90, learning exactly in [0.40, 0.90), locked exactly below 0.40; the status is monotone in P_L; the boundary values fall on the upper side |
| BktService.FullBktUpdate | backend/app/services/bkt_service.py:191-240 | Succeeds exactly when all four probabilities are valid, with the error from the posterior first, then P_T; on success every field of the result is the posterior, the learning step, the two statuses, the change and the answer |
| BktService.CorrectAnswerNeverLowersMastery | backend/app/services/bkt_service.py:222-230 | With P_G + P_S <= 1 and non-zero evidence, a full BKT step on a correct answer never lowers P_L |
| BktService.FirstCorrectAnswerFromDefaults | backend/app/services/bkt_service.py:222-239 | From the default parameters, one correct answer moves P_L from 0.10 to 5/14, and the status stays locked |
| BktService.StreakStepBound | backend/app/services/bkt_service.py:57-107 | With P_T 0.10, P_G 0.25 and P_S 0.05, one correct step lifts P_L to at least 0.9 * lo + 0.1 whenever the posterior reaches lo |
| BktService.StreakNeverDrops | backend/tests/test_bkt_service.py:368-384 | Any run of correct answers with P_T 0.10, P_G 0.25, P_S 0.05 never ends below its starting P_L |
| BktService.CorrectStreakConverges | backend/tests/test_bkt_service.py:368-384 | A hundred correct answers from P_L 0.10 with P_T 0.10, P_G 0.25, P_S 0.05 end above 0.95 |
| BktService.ExpectedScoreLaws | backend/app/services/bkt_service.py:159-161 | The expected score is strictly between 0 and 1; the two players' expectations sum to 1; equal ratings give 0.5 |
| BktService.RoundHalfEven | backend/app/services/bkt_service.py:172-173 | Python `round`: the nearest integer, with exact halves going to the even neighbour |
| BktService.EloZeroSum | backend/app/services/bkt_service.py:160-169 | Before rounding, the learner's and the question's rating changes cancel out, and the question's expectation is one minus the learner's |
| BktService.UpdateElo | backend/app/services/bkt_service.py:129-175 | With K >= 0: a correct answer never lowers the learner's rating and never raises the question's, an incorrect one the reverse; each new rating is non-negative and within K of the old one (after clipping at 0) |
| BktService.EloDeltaBounds | backend/app/services/bkt_service.py:159-169 | The two unrounded changes are opposite. With K >= 0, each is at most K in size. With K > 0, the student's change is positive exactly when the answer is correct. With K = 0, both are 0 |
| BktService.EloEqualRatingsExample | backend/tests/test_bkt_service.py:220-230 | Equal ratings of 1200 with K = 32 and a correct answer give 1216 and 1184, for any exponential obeying the laws |
| BktService.CalculateEloRange | backend/app/services/bkt_service.py:177-189 | The window is [max(0, elo - tolerance), elo + tolerance]; it contains the learner's rating when both are non-negative |
| GraphPaths.PathExtend | backend/app/services/graph_service.py:129-150 | A walk extended by one edge from its last concept is still a walk |
| GraphPaths.ReachesStep | backend/app/services/graph_service.py:188-204 | Reaching a concept (or starting at it) and following one more edge reaches the edge's target |
| GraphPaths.ReachesPrepend | backend/app/services/graph_service.py:302-308 | One edge followed by a reachable concept gives reachability from the edge's source |
| GraphPaths.CycleOnWalk | backend/app/services/graph_service.py:373-375 | Stepping back onto a concept of the current walk closes a cycle, so the graph is not acyclic |
| GraphPaths.AcyclicFromKeys | backend/app/services/graph_service.py:393-399 | A graph is acyclic exactly when no cycle can be reached from any of its concepts |
| GraphPaths.SelfLoopCycle | backend/tests/test_graph_service.py:388-398 | A concept listed as its own child (or parent) is a cycle |
| GraphService.MaxPresentBound | backend/app/services/graph_service.py:145-146 | The maximum over the known parents' depths is at least the depth of each known parent |
| GraphService.RankedImpliesAcyclic | backend/app/services/graph_service.py:119-125 | If some depth table satisfies the depth equations, the prerequisite graph has no cycle |
| GraphService.DepthFallsAlongWalk | backend/app/services/graph_service.py:119-125 | Under depths in which every parent is shallower than its child, depth strictly falls along every prerequisite walk |
| GraphService.NoSelfParent | backend/app/services/graph_service.py:133-135 | In an acyclic graph no concept lists itself as a parent |
| GraphService.DepthDfs | backend/app/services/graph_service.py:129-150 | The memoised `dfs`: it only adds entries, never for concepts on the current walk; on an acyclic graph it records and returns the concept's depth, keeping every memo entry consistent with the depth rule |
| GraphService.MaxParentDepth | backend/app/services/graph_service.py:145-146 | The list comprehension over the known parents: afterwards every known parent has its depth and the running maximum is the maximum of those depths |
| GraphService.ScanParent | backend/app/services/graph_service.py:145 | One step of that comprehension: a known parent is searched, and the memo and the maximum are extended |
| GraphService.MemoiseAll | backend/app/services/graph_service.py:152-154 | After `dfs` is called on every key, every key has a depth; on an acyclic graph every depth satisfies the depth rule |
| GraphService.WithDepths | backend/app/services/graph_service.py:156-163 | The result has the same keys in the same order, and each node equals the input node with only its depth replaced |
| GraphService.CalculateDepths | backend/app/services/graph_service.py:119-163 | Same keys and order; only depths change; the graph is acyclic exactly when the computed depths satisfy the rule "0 without parents, otherwise 1 + the deepest known parent" |
| GraphService.ShapedDepths | backend/tests/test_graph_service.py:46-61 | For any diamond-shaped graph A -> B, C -> D, the depths satisfy the depth rule exactly when they are 0, 1, 1 and 2 |
| GraphService.DiamondDepths | backend/tests/test_graph_service.py:46-61 | The concrete diamond is well formed and acyclic, and its only depths are A 0, B 1, C 1, D 2 |
| GraphService.DanglingParentDepth | backend/tests/test_graph_service.py:471-484 | A node whose only parent is missing from the graph gets depth 1 |
| GraphService.Closure | backend/app/services/graph_service.py:188-204 | The breadth-first search finds exactly the concepts reachable from the start in one or more steps |
| GraphService.SetToList | backend/app/services/graph_service.py:204 | `list(set)` holds each element of the set exactly once |
| GraphService.Related | backend/app/services/graph_service.py:165-245 | An unknown concept gives the empty list; a non-recursive call gives the node's own edge list; a recursive call gives every reachable concept once |
| GraphService.GetPrerequisites | backend/app/services/graph_service.py:165-204 | An unknown concept gives []; a non-recursive call gives the node's parents; a recursive call gives every ancestor exactly once |
| GraphService.GetDependents | backend/app/services/graph_service.py:206-245 | An unknown concept gives []; a non-recursive call gives the node's children; a recursive call gives every descendant exactly once |
| GraphService.FirstUnattempted | backend/app/services/graph_service.py:288-291 | The first prerequisite with no mastery record, if any: it has no record and every prerequisite before it has one; none exactly when all have records |
| GraphService.Weakest | backend/app/services/graph_service.py:284-296 | The running minimum over the prerequisites returns one of them |
| GraphService.WeakestIsFirstMinimum | backend/app/services/graph_service.py:293-296 | The weakest prerequisite has the least P_L, and every prerequisite listed before it has a strictly greater P_L (the strict `<` keeps the first) |
| GraphService.FindWeakFrom | backend/app/services/graph_service.py:275-311 | The recursive search returns exactly the regression function on an acyclic graph |
| GraphService.ScanPrerequisites | backend/app/services/graph_service.py:285-296 | The loop returns the first unattempted prerequisite if there is one, and otherwise the weakest prerequisite and its P_L |
| GraphService.FirstUnattemptedAt | backend/app/services/graph_service.py:288-291 | An unattempted prerequisite at position i with every earlier one attempted is the one returned |
| GraphService.FindWeakPrerequisite | backend/app/services/graph_service.py:247-311 | An unknown or parentless concept gives None; the first unattempted prerequisite is returned when there is one; otherwise the result is the regression function |
| GraphService.WeakIsWeakAncestor | backend/app/services/graph_service.py:247-311 | Whatever the search returns is an ancestor of the failed concept that is either untried or below the threshold |
| GraphService.CalculusAcyclic | backend/tests/test_graph_service.py:186-208 | The calculus chain limits <- derivatives <- chain_rule <- related_rates is acyclic |
| GraphService.CalculusRegression | backend/tests/test_graph_service.py:210-286 | On the calculus chain, the regression returns derivatives, limits, None, derivatives (a missing record) and None (a root) for the five mastery states |
| GraphService.InsertByDepth | backend/app/services/graph_service.py:359 | Inserting after every element of equal or smaller depth adds exactly that element |
| GraphService.SortByDepth | backend/app/services/graph_service.py:359 | The sort by depth is a permutation of its input |
| GraphService.InsertSorted | backend/app/services/graph_service.py:359 | Inserting into a list sorted by depth keeps it sorted |
| GraphService.InsertAtDepth | backend/app/services/graph_service.py:359 | Inserting x keeps the relative order of the elements of each depth, with x after the others of its depth |
| GraphService.SortByDepthCorrect | backend/app/services/graph_service.py:359 | `list.sort(key=depth)` is stable: the result is sorted by depth, is a permutation, and keeps each depth's elements in their original order |
| GraphService.SortNoDups | backend/app/services/graph_service.py:359 | Sorting a list without repeats gives a list without repeats |
| GraphService.CandidatesExact | backend/app/services/graph_service.py:338-356 | The loop keeps exactly the known concepts that are neither unlocked nor mastered and whose parents are all mastered, without repeats |
| GraphService.NextUnlockableSpec | backend/app/services/graph_service.py:313-361 | The result holds exactly the unlockable concepts, once each, sorted by depth, with each depth's concepts in dict order |
| GraphService.NextUnlockableHead | backend/app/services/graph_service.py:313-361 | The result is empty exactly when nothing is unlockable; otherwise its head is an unlockable concept of least depth |
| GraphService.SortedHeadLeast | backend/app/services/graph_service.py:359 | The head of a list sorted by depth has depth at most that of every element |
| GraphService.GetNextUnlockableConcepts | backend/app/services/graph_service.py:313-361 | The method (loop, then sort) returns exactly the unlock function |
| GraphService.InsertAtEnd | backend/app/services/graph_service.py:359 | An element no shallower than every element of the list is inserted at the end |
| GraphService.SortFixesSorted | backend/app/services/graph_service.py:359 | Sorting a list already sorted by depth leaves it unchanged |
| GraphService.SortIdempotent | backend/app/services/graph_service.py:359 | Sorting twice is sorting once |
| GraphService.ShapedUnlockRule | backend/app/services/graph_service.py:338-361 | On any diamond-shaped graph the unlockable list follows the rule for each of its four concepts in depth order |
| GraphService.DiamondRule | backend/tests/test_graph_service.py:292-313 | The same rule on the concrete diamond A, B, C, D |
| GraphService.DiamondCascadeRoot | backend/tests/test_graph_service.py:315-324 | With nothing mastered or unlocked, only A is unlockable |
| GraphService.DiamondCascadeAfterRoot | backend/tests/test_graph_service.py:326-335 | With A mastered and unlocked, the result is exactly [B, C] |
| GraphService.DiamondCascadeWaits | backend/tests/test_graph_service.py:337-347 | With only B of D's parents mastered, nothing is unlockable |
| GraphService.DiamondCascadeJoin | backend/tests/test_graph_service.py:349-355 | With A, B and C mastered, exactly D unlocks |
| GraphService.DiamondCascadeSkipsUnlocked | backend/tests/test_graph_service.py:357-368 | An already unlocked B is not returned again; only C is |
| GraphService.WalkDescends | backend/app/services/graph_service.py:373-391 | Every child of a finished concept finished earlier, so a walk from a finished concept visits ever-earlier finished concepts |
| GraphService.RankFalls | backend/app/services/graph_service.py:373-391 | Along a dependent walk from a finished concept, the finishing position strictly falls |
| GraphService.FinishedNoCycle | backend/app/services/graph_service.py:377-378 | No cycle can be reached from a concept whose search finished without one, which is why skipping visited concepts is sound |
| GraphService.DoneFinish | backend/app/services/graph_service.py:390-391 | A concept whose known children have all finished can be appended to the finished list |
| GraphService.HasCycle | backend/app/services/graph_service.py:373-391 | `has_cycle`: a true result means a dependent cycle can be reached from the root of the search; otherwise the stack is restored and the concept has finished |
| GraphService.SearchChildren | backend/app/services/graph_service.py:383-388 | The loop over the known children: it stops at a reachable cycle, or leaves every known child finished |
| GraphService.ChildAdvance | backend/app/services/graph_service.py:386-388 | One child searched without a cycle extends the loop invariant by one |
| GraphService.ValidateGraphIsDag | backend/app/services/graph_service.py:363-399 | Valid exactly when the dependent edges have no cycle, with no message then; otherwise the message names the first concept in dict order from which a cycle can be reached |
| GraphService.ChainAcyclic | backend/tests/test_graph_service.py:374-386 | The chain A -> B -> C is acyclic |
| GraphService.SelfLoopRejected | backend/tests/test_graph_service.py:388-398 | A self-loop is a cycle, reported at A |
| GraphService.RingRejected | backend/tests/test_graph_service.py:413-425 | The ring A -> B -> C -> A is a cycle, reported at A, the first concept in dict order |
| KnowledgeGraphModel.NodeAndGraphDefaults | backend/app/models/knowledge_graph.py:6-80 | A fresh node has no parents, no children, depth 0, no description and the default BKT parameters 0.10, 0.10, 0.25, 0.10; a fresh graph has no nodes and no roots |
| UserMasteryModel.MasteryDefaults | backend/app/models/user_mastery.py:6-92 | A fresh concept record has the default BKT probabilities, no observations and status locked; a fresh learner record has Elo 1200 and empty concept, unlocked and mastered lists, no focus and no answers |
| QuestionModel.Question.SuccessRate | backend/app/models/question.py:156-161 | 0 before the first attempt, otherwise correct over attempted; never negative, at most 1 when correct <= attempted |
| QuestionModel.QuestionDefaults | backend/app/models/question.py:101-151 | A fresh question is rated 1200, unattempted, medium, without text or image, with success rate 0 |
| PyNumbers.Trunc | backend/app/services/pdf_extractor.py:360-363 | `int()` on a float truncates toward zero: the result is within one of the input, on the side of zero |
| Text.ContainsAt | backend/app/services/pdf_extractor.py:576 | A substring found at some position is contained (`in` on strings) |
| Text.ContainsIffInfix | backend/app/services/pdf_extractor.py:576-586 | `sub in s` holds exactly when `sub` occurs at some index of `s`, in both directions |
| Text.Lower | backend/app/services/pdf_extractor.py:570 | `lower()` keeps the length and lowers each character |
| Text.StripLeft | backend/app/services/knowledge_graph_generator.py:114 | Removes exactly the leading whitespace: what remains is a suffix that does not start with whitespace |
| Text.StripRight | backend/app/services/knowledge_graph_generator.py:114 | Removes exactly the trailing whitespace: what remains is a prefix that does not end with whitespace |
| Text.Strip | backend/app/services/knowledge_graph_generator.py:114 | `strip()` returns an occurrence within its input that has only whitespace before and after it in the input and no whitespace at its own ends, so exactly the surrounding whitespace is removed |
| Text.StripNoop | backend/app/services/pdf_extractor.py:227 | Text with no whitespace at either end is left unchanged |
| Text.StripFence | backend/app/services/knowledge_graph_generator.py:116-122 | The three fence checks: a leading "```json", then a leading "```", then a trailing "```", each removed when present |
| Text.StripFenced | backend/app/services/knowledge_graph_generator.py:114-117 | A reply wrapped in a fence has backticks at both ends, so trimming it leaves it unchanged |
| Text.UnfencedInfix | backend/app/services/knowledge_graph_generator.py:116-122 | The fence clean-up only cuts text off the two ends |
| Text.UnfencedPlain | backend/app/services/knowledge_graph_generator.py:116-122 | Text that neither starts nor ends with a fence marker is untouched |
| Text.UnfencedRoundTrip | backend/app/services/knowledge_graph_generator.py:116-122 | A body wrapped in a "```json" or a bare "```" fence comes back exactly |
| KnowledgeGraphGenerator.NodeDefaults | backend/app/services/knowledge_graph_generator.py:133-148 | A concept with only an id and a name gives description "", no parents, no children, the default BKT parameters and depth 0 |
| KnowledgeGraphGenerator.Ids | backend/app/services/knowledge_graph_generator.py:134 | The ids of the concepts, one per concept, in order |
| KnowledgeGraphGenerator.BuiltValid | backend/app/services/knowledge_graph_generator.py:132-148 | The built dict is well formed and its keys are exactly the concept ids |
| KnowledgeGraphGenerator.BuiltLastWins | backend/app/services/knowledge_graph_generator.py:133-148 | Each key holds the node of the last concept with that id: later duplicates overwrite earlier ones |
| KnowledgeGraphGenerator.BuiltOrder | backend/app/services/knowledge_graph_generator.py:132-148 | The keys are listed in the order in which their ids first appear, since overwriting keeps a key's place |
| KnowledgeGraphGenerator.BuildNodes | backend/app/services/knowledge_graph_generator.py:132-148 | The first loop builds exactly the dict specified by putting each concept's node in turn |
| KnowledgeGraphGenerator.ChildrenStartEmpty | backend/app/services/knowledge_graph_generator.py:140 | Every built node starts with no children |
| KnowledgeGraphGenerator.CountPositive | backend/app/services/knowledge_graph_generator.py:152-154 | An id is listed a positive number of times exactly when it is listed |
| KnowledgeGraphGenerator.ChildrenFromSpec | backend/app/services/knowledge_graph_generator.py:150-154 | A node is among the children appended to p exactly when it lists p among its parents |
| KnowledgeGraphGenerator.DeriveChildren | backend/app/services/knowledge_graph_generator.py:150-154 | Same keys and order; each node's children are extended by every node, in dict order, once for each time that node lists it as a parent |
| KnowledgeGraphGenerator.AppendChild | backend/app/services/knowledge_graph_generator.py:152-154 | The inner loop for one node extends the outer loop's invariant by that node |
| KnowledgeGraphGenerator.AddToParent | backend/app/services/knowledge_graph_generator.py:153-154 | One pass of the inner loop: the node joins the children of a known parent and nothing else changes |
| KnowledgeGraphGenerator.RootsSpec | backend/app/services/knowledge_graph_generator.py:157 | The roots are exactly the nodes without parents, each once when the keys are distinct |
| KnowledgeGraphGenerator.RootsOrdered | backend/app/services/knowledge_graph_generator.py:157 | The roots keep dict order: a root listed before another also comes before it among the keys |
| KnowledgeGraphGenerator.CleanGraphReply | backend/app/services/knowledge_graph_generator.py:114-122 | The reply is trimmed and then unfenced, with no trimming afterwards |
| KnowledgeGraphGenerator.GraphReplyRoundTrip | backend/app/services/knowledge_graph_generator.py:114-122 | A fenced reply yields its body exactly, untrimmed |
| KnowledgeGraphGenerator.GenerateGraph | backend/app/services/knowledge_graph_generator.py:127-169 | No graph for an empty concept list. Otherwise `graph_<subject>`: its keys are the concept ids, and each node comes from the last concept with that id. Between known nodes, c is a child of p exactly when p is a parent of c, and every child is a known node. Its keys are listed in the order in which the ids first appear among the concepts. Each node's children are the nodes, in dict order, that list it as a parent, once per listing. Its roots are exactly the parentless nodes, each once, taken in dict order by the roots function |
| KnowledgeGraphGenerator.NormaliseTags | backend/app/services/knowledge_graph_generator.py:366-380 | One tag per question. Tag i is answer i when i is within the answer and answer i is a known id, and the fallback otherwise, so every tag is known or the fallback |
| KnowledgeGraphGenerator.TagQuestionsBatch | backend/app/services/knowledge_graph_generator.py:287-384 | One tag per question. Every tag is None when there is no model or no graph, or when the call or its parsing fails. Otherwise each tag is the answer's entry if it is known, and the first root if not |
| PdfExtractor.EstimateBboxFromPosition | backend/app/services/pdf_extractor.py:565-593 | On the lower-cased text: the top third if it contains "top", else the bottom third if it contains "bottom", else the middle third. The left half if it contains "left", else the right half if it contains "right", else the full width. With non-negative page sizes, the box lies on the page with non-negative sizes |
| PdfExtractor.CropBounds | backend/app/services/pdf_extractor.py:613-623 | Missing keys default to 0, 0, 100, 50. A corner before the page moves to 0, one past it to the last pixel (0 on an empty page), and one on the page stays where it is. The far edge is the corner plus the size when that fits, and the border otherwise. The same holds vertically. On a non-empty page the corner lies on it, the far edge is at most the border, and left <= right for a non-negative width. An in-bounds box crops exactly as given |
| PdfExtractor.ScaleWithin | backend/app/services/pdf_extractor.py:360-361 | A normalised coordinate in [0, 1000] scales to a pixel offset in [0, size] |
| PdfExtractor.PixelBoxWithin | backend/app/services/pdf_extractor.py:359-364 | A box that passes both validity checks converts to pixels that start on the page and have non-negative sizes |
| PdfExtractor.StripsFit | backend/app/services/pdf_extractor.py:398 | n fallback strips of height h // n fit on a page of height h |
| PdfExtractor.PadAndClamp | backend/app/services/pdf_extractor.py:366-380 | The padded box is clamped onto the page and still covers the on-page part of the raw box. When there is room, the padding is exact: 10 at the sides, 15 at the top, 10 at the bottom. It has non-negative sizes when the raw box starts on the page |
| PdfExtractor.QuestionBox | backend/app/services/pdf_extractor.py:343-399 | A `box_2d` that does not have four entries gives the full-width strip of height H // n (H with no questions), and the strips fit on the page. Four entries give a box on the page that covers the raw box, with non-negative sizes when both validity checks pass |
| PdfExtractor.CleanExtractionReply | backend/app/services/pdf_extractor.py:217-227 | The reply is trimmed, unfenced and trimmed again |
| PdfExtractor.ExtractionReplyRoundTrip | backend/app/services/pdf_extractor.py:217-227 | A fenced reply yields its body with the surrounding whitespace removed |
| RecommendationEngine.Reasoning.Text | backend/app/services/recommendation_engine.py:101-169 | Every reasoning message is non-empty, so the `reasoning or ...` default at line 77 never applies |
| RecommendationEngine.NatToStringRoundTrip | backend/app/services/recommendation_engine.py:398-402 | `str(n)` writes decimal digits that read back as n |
| RecommendationEngine.LeastPracticed | backend/app/services/recommendation_engine.py:152-159 | The running minimum over the unlocked list finds an id exactly when the list is non-empty |
| RecommendationEngine.LeastPracticedIsFirstMinimum | backend/app/services/recommendation_engine.py:152-159 | The pick has the fewest observations (0 without a record), and every id listed before it has strictly more |
| RecommendationEngine.FindLeastPracticed | backend/app/services/recommendation_engine.py:152-159 | The loop, starting from an infinite minimum, returns exactly the running-minimum function |
| RecommendationEngine.DetermineTargetConcept | backend/app/services/recommendation_engine.py:89-169 | The method returns exactly the target-decision function |
| RecommendationEngine.TargetKnown | backend/app/services/recommendation_engine.py:89-169 | Every concept the decision names is in the graph, and a KeyError is for an id that is not |
| RecommendationEngine.TargetUnattemptedFocus | backend/app/services/recommendation_engine.py:101-106 | A focus with no record yet stays the target ("Continuing work on"), or raises a KeyError when it is not in the graph |
| RecommendationEngine.TargetMasteredFocus | backend/app/services/recommendation_engine.py:112-126 | With a mastered focus the target is an unlockable concept of least depth. The learner is congratulated exactly when nothing is unlockable |
| RecommendationEngine.TargetLockedFocus | backend/app/services/recommendation_engine.py:129-142 | With a locked focus the target is the focus itself, or a prerequisite ancestor of it that is untried or below 0.40 |
| RecommendationEngine.TargetLearningFocus | backend/app/services/recommendation_engine.py:144-146 | With a learning focus the learner keeps practising it ("Making progress on") |
| RecommendationEngine.TargetWithoutFocus | backend/app/services/recommendation_engine.py:148-169 | Without a focus, the target is the least-practised unlocked concept, the first such in list order. Failing that it is the first root, and failing that nothing ("No concepts available.") |
| RecommendationEngine.FirstIndex | backend/app/services/recommendation_engine.py:194-197 | `find_one`: none exactly when no document matches; otherwise the position of a match with no match before it |
| RecommendationEngine.FirstIndexFinds | backend/app/services/recommendation_engine.py:234-236 | `find_one` finds a document exactly when some document matches |
| RecommendationEngine.FindQuestionSpec | backend/app/services/recommendation_engine.py:171-208 | A question is found exactly when the concept has one, and it is a question of that concept from the pool. When some question of the concept is rated within 50 of the learner (lower end clipped at 0), the one found is rated within that window too |
| RecommendationEngine.GetNextQuestion | backend/app/services/recommendation_engine.py:28-87 | The method returns exactly the next-question function |
| RecommendationEngine.NextQuestionCases | backend/app/services/recommendation_engine.py:28-87 | The two missing-record messages. A question is returned only together with its concept, which is the decided target and a known concept. "No questions available for c." is given only when the pool has no question of c. A KeyError is for an unknown id |
| RecommendationEngine.FeedbackSpec | backend/app/services/recommendation_engine.py:383-407 | The message opens with the party-popper mark exactly for a new mastery, with the check-mark mark exactly for another correct answer, and with the cross mark exactly for a wrong one. Each mark is written as the characters the source file holds: the emoji's UTF-8 bytes read as Windows-1252 ("ðŸŽ‰", "âœ“", "âœ—"). A correct answer quotes the mastery as a whole percentage in [0, 100], rounded down. The foundational-work message is used exactly when the new status is locked |
| RecommendationEngine.ConceptBefore | backend/app/services/recommendation_engine.py:252-274 | The concept's existing record if there is one. Otherwise a new record, seeded from the graph node's default parameters when the node exists and from 0.10, 0.10, 0.25, 0.10 when it does not |
| RecommendationEngine.BktOf | backend/app/services/recommendation_engine.py:283-290 | `full_bkt_update` on a record's own parameters always succeeds, and its new P_L is a probability |
| RecommendationEngine.ApplyAnswer | backend/app/services/recommendation_engine.py:250-343 | The method computes exactly the writes function: the seeded record, the BKT and Elo updates, the achievements and both documents |
| RecommendationEngine.RecordAchievements | backend/app/services/recommendation_engine.py:309-331 | A newly mastered concept joins the mastered list once, and the concepts it unlocks are appended to the unlocked list and reported |
| RecommendationEngine.AppendUnlocks | backend/app/services/recommendation_engine.py:328-331 | On the output of the unlock rule, every id passes the not-yet-unlocked test, so all are appended in order |
| RecommendationEngine.ProcessAnswerSubmission | backend/app/services/recommendation_engine.py:210-381 | The method returns the intended response and new store, as specified by the submission function. It needs only a well-formed graph, plus a recommendation on the written store that does not run the weak-prerequisite search on a cycle |
| RecommendationEngine.SubmitSafeFromGraph | backend/app/services/recommendation_engine.py:365-367 | On a graph without prerequisite cycles every submission meets that last requirement |
| RecommendationEngine.NextQuestionSafeFromGraph | backend/app/services/recommendation_engine.py:365-367 | On an acyclic graph the recommendation after an answer is defined for every learner |
| RecommendationEngine.SubmitErrors | backend/app/services/recommendation_engine.py:233-248 | An unknown question or a missing learner record is reported by its message and nothing is written; when both exist there is no error message |
| RecommendationEngine.SubmitFoundResponds | backend/app/services/recommendation_engine.py:233-250 | When both lookups succeed the result is not an error message |
| RecommendationEngine.WritesSpec | backend/app/services/recommendation_engine.py:274-357 | Only the answered question and the learner's record change. The question gains an attempt, and a correct one if so. The concept record gains an observation and takes the full BKT step as P_L, with that P_L's band as status. The total rises by one. A correct answer raises the learner's Elo and lowers the question's, each change at most K = 32 |
| RecommendationEngine.CorrectAnswerRaisesRecord | backend/app/services/recommendation_engine.py:300-304 | A correct answer never lowers the concept's P_L, provided guess and slip sum to at most 1 and the evidence is not zero |
| RecommendationEngine.AchievementsSpec | backend/app/services/recommendation_engine.py:309-331 | `concept_mastered` holds exactly when the concept crosses into mastered. The unlocked list grows by exactly the reported concepts, sorted by depth. Those are the known concepts not unlocked before and not mastered now (so never the concept just mastered), whose parents are all mastered now. Nothing unlocks without a new mastery or a graph |
| RecommendationEngine.SubmitKeepsListsDistinct | backend/app/services/recommendation_engine.py:316-331 | An answer keeps the mastered and unlocked lists free of repeats |
| RecommendationEngine.RespondSpec | backend/app/services/recommendation_engine.py:369-381 | The response reports the answer, the new Elo and its change (at most K either way), the new P_L and status, the mastery change, the recommended concept and the next question's id |
| RecommendationEngine.SubmitResponse | backend/app/services/recommendation_engine.py:210-381 | The full response is truthful, with the same fields as RespondSpec. Its next question, if any, is a question in the store of the recommended concept |
| RecommendationEngine.AsWrittenNeverCompletes | backend/app/services/recommendation_engine.py:253-290 | As written, no submission whose question and learner record exist completes: UnboundLocalError exactly when the concept has no record, and TypeError otherwise. The intended operation completes on the same inputs |
| RecommendationEngine.InitializeSpec | backend/app/services/recommendation_engine.py:409-452 | An existing record's id is returned and nothing is written; a missing graph is an error; otherwise exactly one record is appended. It is then the record found for the pair: Elo 1200, nothing tried or mastered, the roots unlocked, the first root in focus |
| RecommendationEngine.FirstIndexAppend | backend/app/services/recommendation_engine.py:451 | A matching document appended after none matched is the one `find_one` finds |
| RecommendationEngine.InitializeIdempotent | backend/app/services/recommendation_engine.py:422-429 | Initialising twice is initialising once: the same id, and the second call writes nothing |
| RecommendationEngine.FirstRecommendationAfterInitialize | backend/app/services/recommendation_engine.py:101-106 | Right after initialisation, if the first root is a known non-empty id, the recommendation is defined and targets that root; a question comes back exactly when the pool has one for it, and then with the reasoning "Continuing work on" its name |

## Left out

- **Persistence.** MongoDB is not modelled. The collections are a `Store` value or inputs, and
  `find_one` returns the first match in insertion order. The graph CRUD operations
  (`create_graph`, `get_graph`, `update_graph`, `delete_graph`) are left out because they only
  move documents. Their depth and root computations are modelled as `CalculateDepths` and
  `Roots`.
- **Asynchrony, timestamps and generated ids.** These are not modelled. A generated ObjectId is a
  `fresh_id` parameter.
- **External calls.** The Gemini model calls, the prompt texts, JSON parsing, base64, PIL image
  decoding and the crop itself are left out. A parsed reply is an input. For the crop, only the
  rectangle handed to `image.crop` is modelled.
- GraphService.FindWeakPrerequisite: requires an acyclic prerequisite graph. When the regression
  reaches a prerequisite cycle, Python hits its recursion limit and raises RecursionError; that
  outcome is not modelled. Searches on a cyclic graph that never enter a cycle are excluded as
  well. `DetermineTargetConcept` and `GetNextQuestion` carry the requirement only for a locked
  focus, the one branch that searches.
- GraphService.CalculateDepths: on a cyclic graph the depths are computed but only their domain
  is specified. The cycle guard's value of 0 is not stated further.
- **Unlock sort key.** The model uses a total key: the node's depth, or 0 for an id outside the
  graph. The source would raise `KeyError` for such an id, but the unlock loop only feeds graph
  keys to the sort, so this never happens.
- GraphService.GetPrerequisites: `list(set)` has an unspecified order in Python. The model
  promises each element exactly once and fixes no order.
- **Floats.** Floats are exact reals. Rounding error and the `max(0, min(1, ...))` guard are not
  modelled (the guard is kept, but it never changes an exact value). `10 ** x` is a function
  parameter constrained by the exponent laws.
- BktService.UpdateElo: does not state the exact rounded values beyond the bounds and the one
  example, because `10 ** x` is a parameter.
- KnowledgeGraphGenerator.TagQuestionsBatch: the safety-filter fallback to tagging each question
  separately (`tag_question_concept`) is not modelled, because that function lies outside this
  model. Neither is the `"nodes" not in graph` check on a raw document, because the graph here
  is always typed.
- KnowledgeGraphGenerator.NormaliseTags: a JSON entry that is not a string is modelled as `None`.
  An unhashable entry, which would raise and produce all-`None` tags, is not modelled.
- KnowledgeGraphGenerator.GenerateGraph: every generated concept is taken to carry a
  `concept_id` and a `name`. In the source, a concept without either key raises `KeyError` at
  lines 134 and 137, which the handler at lines 197-199 turns into `None`; that failure path is
  not modelled, so the contract's "none exactly for an empty list" covers only complete concepts.
  BKT numbers outside [0, 1], which the source stores unchecked, are outside the model too,
  because the node's parameters are typed as probabilities.
- KnowledgeGraphGenerator.NodeOf: a key missing from a generated concept is `None` and takes the
  default. An explicit JSON `null` is not distinguished from a missing key. A `depth` is taken
  to be non-negative.
- **Non-numeric `box_2d` entries.** These would raise in Python and are not modelled. The two
  debug checks are modelled only as the predicate `WellFormed`, which the source prints warnings
  about. The `text_content` copy at lines 401-403 is not modelled.
- **Text functions.** `str.lower()` and `str.isspace()` are modelled on ASCII only.
- RecommendationEngine.ProcessAnswerSubmission: models the evidently intended operation. The
  graph is read once, as if loaded before line 257. `mistake_count` is ignored because
  `full_bkt_update` takes no such parameter. The code as written is modelled separately (see
  Findings).
- RecommendationEngine.ProcessAnswerSubmission: for the same reason, a submission is covered only
  when either the graph is acyclic (`SubmitSafeFromGraph`) or the recommendation on the written
  store does not reach the search with a locked focus. The writes themselves need only a
  well-formed graph, as in the source.
- **Approximate parameters.** `CorrectStreakConverges` and `StreakStepBound` use the parameters
  of the repository's convergence scenario; other parameter sets are not covered.

## Findings

| source | as written | input that shows it | evidently intended | confidence | as-written member | corrected member |
|---|---|---|---|---|---|---|
| backend/app/services/recommendation_engine.py:257 | The seeding reads the local `graph`, which is first assigned at line 320, so Python raises UnboundLocalError | Any submission whose question and learner record exist and whose concept has no record yet, for example the learner's first answer on a concept (`AsWrittenNeverCompletes`) | Load the subject's graph before seeding the record from its node's default parameters | not executed | RecommendationEngine.ProcessAnswerAsWritten | RecommendationEngine.ProcessAnswerSubmission |
| backend/app/services/recommendation_engine.py:283-290 | `full_bkt_update` is called with the keyword `mistake_count`, which its signature at bkt_service.py lines 191-198 does not declare, so Python raises TypeError | Any submission whose question and learner record exist and whose concept already has a record (`AsWrittenNeverCompletes`) | Call `full_bkt_update` with the five parameters it declares | not executed | RecommendationEngine.ProcessAnswerAsWritten | RecommendationEngine.ProcessAnswerSubmission |
