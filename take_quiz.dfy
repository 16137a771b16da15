/**
 * The student's view of a video's quiz: each question with its options and
 * never its answer.
 */
module TakeQuiz {
  import opened Wrappers
  import opened Http
  import opened JsonValue
  import opened Tables

  /** `QuizQuestionSchema` */
  datatype QuizQuestion = QuizQuestion(question: Json, options: Json)

  /** The options offered to a true/false question. */
  const TrueFalseOptions := JArr([JStr("True"), JStr("False")])

  const NoQuizDetail := "No quiz found for this video."

  /** One stored row as shown to a student: its stored options when non-empty, else `["True", "False"]`. */
  function AsQuestion(m: Mcq): (q: QuizQuestion)
    ensures q.question == m.question
    ensures Truthy(q.options)
    ensures Truthy(m.options) ==> q.options == m.options
    ensures !Truthy(m.options) ==> q.options == TrueFalseOptions
  {
    QuizQuestion(m.question, if Truthy(m.options) then m.options else TrueFalseOptions)
  }

  /** The questions for a list of rows, in order. */
  function Questions(rows: seq<Mcq>): (qs: seq<QuizQuestion>)
    ensures |qs| == |rows|
    ensures forall i :: 0 <= i < |rows| ==> qs[i] == AsQuestion(rows[i])
  {
    if rows == [] then [] else [AsQuestion(rows[0])] + Questions(rows[1..])
  }

  /** `get_quiz_questions` */
  function GetQuizQuestions(mcqs: seq<Mcq>, videoTitle: string): (r: Result<seq<QuizQuestion>, HttpError>)
    ensures r.Err? <==> forall i :: 0 <= i < |mcqs| ==> mcqs[i].videoTitle != videoTitle
    ensures r.Err? ==> r.error == HttpError(NotFound, NoQuizDetail)
    ensures r.Ok? ==> r.value == Questions(FilterBy(mcqs, McqVideoTitle, videoTitle))
  {
    var rows := FilterBy(mcqs, McqVideoTitle, videoTitle);
    if rows == [] then Err(HttpError(NotFound, NoQuizDetail)) else Ok(Questions(rows))
  }

  /** Every question offered has a non-empty set of options. */
  lemma OptionsNeverEmpty(mcqs: seq<Mcq>, videoTitle: string)
    requires GetQuizQuestions(mcqs, videoTitle).Ok?
    ensures forall q :: q in GetQuizQuestions(mcqs, videoTitle).value ==> Truthy(q.options)
  {
    var qs := GetQuizQuestions(mcqs, videoTitle).value;
    forall q | q in qs ensures Truthy(q.options) {
      var i :| 0 <= i < |qs| && qs[i] == q;
    }
  }

  /** The row with its answer forgotten. */
  function WithoutAnswer(m: Mcq): Mcq {
    m.(answer := JNull)
  }

  function WithoutAnswers(rows: seq<Mcq>): (r: seq<Mcq>)
    ensures |r| == |rows|
    ensures forall i :: 0 <= i < |rows| ==> r[i] == WithoutAnswer(rows[i])
  {
    if rows == [] then [] else [WithoutAnswer(rows[0])] + WithoutAnswers(rows[1..])
  }

  lemma {:induction false} FilterWithoutAnswers(rows: seq<Mcq>, videoTitle: string)
    ensures FilterBy(WithoutAnswers(rows), McqVideoTitle, videoTitle)
         == WithoutAnswers(FilterBy(rows, McqVideoTitle, videoTitle))
  {
    if rows != [] {
      FilterWithoutAnswers(rows[1..], videoTitle);
      assert WithoutAnswers(rows)[1..] == WithoutAnswers(rows[1..]);
    }
  }

  lemma {:induction false} QuestionsWithoutAnswers(rows: seq<Mcq>)
    ensures Questions(WithoutAnswers(rows)) == Questions(rows)
  {
    if rows != [] {
      QuestionsWithoutAnswers(rows[1..]);
      assert WithoutAnswers(rows)[1..] == WithoutAnswers(rows[1..]);
    }
  }

  /**
   * The answers never reach the student: erasing every stored answer leaves
   * the response exactly as it was.
   */
  lemma AnswersHidden(mcqs: seq<Mcq>, videoTitle: string)
    ensures GetQuizQuestions(WithoutAnswers(mcqs), videoTitle) == GetQuizQuestions(mcqs, videoTitle)
  {
    FilterWithoutAnswers(mcqs, videoTitle);
    QuestionsWithoutAnswers(FilterBy(mcqs, McqVideoTitle, videoTitle));
  }

  /** Two tables that differ only in their answers give the student the same quiz. */
  lemma AnswersDoNotMatter(a: seq<Mcq>, b: seq<Mcq>, videoTitle: string)
    requires WithoutAnswers(a) == WithoutAnswers(b)
    ensures GetQuizQuestions(a, videoTitle) == GetQuizQuestions(b, videoTitle)
  {
    AnswersHidden(a, videoTitle);
    AnswersHidden(b, videoTitle);
  }
}
