/** A practice question with its Elo rating and attempt statistics. */
module QuestionModel {
  import opened Wrappers

  datatype Difficulty = Easy | Medium | Hard

  datatype Question = Question(
    id: string,
    subject_id: string,
    concept_id: string,
    related_concepts: seq<string>,
    question_text: Option<string>,
    question_image: Option<string>,
    answer_key: Option<string>,
    solution_steps: Option<seq<string>>,
    elo_rating: nat,
    times_attempted: nat,
    times_correct: nat,
    difficulty_label: Difficulty,
    created_by: string)
  {
    /** Fraction of attempts answered correctly; 0 before the first attempt. */
    function SuccessRate(): (r: real)
      ensures times_attempted == 0 ==> r == 0.0
      ensures times_attempted > 0 ==> r * times_attempted as real == times_correct as real
      ensures 0.0 <= r
      ensures times_correct <= times_attempted ==> r <= 1.0
    {
      if times_attempted == 0 then 0.0 else times_correct as real / times_attempted as real
    }
  }

  /** A question with only its required fields given. */
  function NewQuestion(id: string, subject_id: string, concept_id: string, created_by: string): Question {
    Question(id, subject_id, concept_id, [], None, None, None, None, 1200, 0, 0, Medium, created_by)
  }

  lemma QuestionDefaults(id: string, subject: string, concept: string, owner: string)
    ensures var q := NewQuestion(id, subject, concept, owner);
      q.elo_rating == 1200 && q.times_attempted == 0 && q.times_correct == 0
      && q.difficulty_label == Medium && q.question_text == None && q.question_image == None
      && q.SuccessRate() == 0.0
  {
  }
}
