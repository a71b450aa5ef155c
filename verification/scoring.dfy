/** Recording an attempt (the POST branch of the quiz route, app.py lines
    111-130) and listing the scores of a quiz (app.py lines 143-146). */
module Scoring {
  import opened Wrappers
  import opened Records
  import opened Grading

  /** The HTTP answer to a submission: 404 for an unknown quiz, 400 without a
      pseudo, otherwise the redirect to the result page carrying the score. */
  datatype SubmitResponse = QuizNotFound | MissingPseudo | ShowResult(quizId: nat, score: nat, pseudo: string)

  datatype SubmitOutcome = SubmitOutcome(db: Db, response: SubmitResponse)

  /** The POST branch of the quiz route. The quiz must exist (checked first),
      the pseudo must be present and non-empty; then the questions of the
      quiz are graded and exactly one score row is appended. */
  function Submit(db: Db, quizId: nat, pseudo: Option<string>, answers: Answers): (o: SubmitOutcome)
    ensures FindQuiz(db.quizzes, quizId).None? ==> o == SubmitOutcome(db, QuizNotFound)
    ensures FindQuiz(db.quizzes, quizId).Some? && (pseudo.None? || pseudo.value == "") ==>
      o == SubmitOutcome(db, MissingPseudo)
    ensures o.response.ShowResult? <==>
      FindQuiz(db.quizzes, quizId).Some? && pseudo.Some? && pseudo.value != ""
    ensures o.response.ShowResult? ==>
      && o.response.quizId == quizId
      && o.response.pseudo == pseudo.value
      && o.response.score <= |QuestionsOf(db.questions, quizId)|
      && o.db == db.(scores := db.scores + [Score(db.nextScoreId, quizId, pseudo.value, o.response.score)],
                     nextScoreId := db.nextScoreId + 1)
  {
    if FindQuiz(db.quizzes, quizId).None? then SubmitOutcome(db, QuizNotFound)
    else if pseudo.None? || pseudo.value == "" then SubmitOutcome(db, MissingPseudo)
    else
      var score := Grade(QuestionsOf(db.questions, quizId), answers);
      var row := Score(db.nextScoreId, quizId, pseudo.value, score);
      SubmitOutcome(db.(scores := db.scores + [row], nextScoreId := db.nextScoreId + 1),
                    ShowResult(quizId, score, pseudo.value))
  }

  /** The scores route: `None` is the 404 for an unknown quiz; otherwise the
      score rows of that quiz in the order they were recorded. */
  function ListScores(db: Db, quizId: nat): (r: Option<seq<Score>>)
    ensures r.None? <==> FindQuiz(db.quizzes, quizId).None?
    ensures r.Some? ==> forall s :: s in r.value <==> s in db.scores && s.quizId == quizId
  {
    if FindQuiz(db.quizzes, quizId).None? then None
    else
      RowsOfSpec(db.scores, ScoreQuiz, quizId);
      Some(ScoresOf(db.scores, quizId))
  }

  /** The recorded score is the number of questions of the quiz the
      submission earns, and it does not depend on the order in which the
      database returns those questions. */
  lemma SubmitScoreIsGrade(db: Db, quizId: nat, pseudo: Option<string>, answers: Answers, fetched: seq<Question>)
    requires Submit(db, quizId, pseudo, answers).response.ShowResult?
    requires multiset(fetched) == multiset(QuestionsOf(db.questions, quizId))
    ensures Submit(db, quizId, pseudo, answers).response.score == Grade(fetched, answers)
  {
    GradePermutation(fetched, QuestionsOf(db.questions, quizId), answers);
  }

  /** A quiz without questions scores zero for every pseudo and every submission. */
  lemma EmptyQuizScoresZero(db: Db, quizId: nat, pseudo: Option<string>, answers: Answers)
    requires Submit(db, quizId, pseudo, answers).response.ShowResult?
    requires forall i :: 0 <= i < |db.questions| ==> db.questions[i].quizId != quizId
    ensures Submit(db, quizId, pseudo, answers).response.score == 0
  {
    RowsOfNone(db.questions, QuestionQuiz, quizId);
  }

  /** Appending a score row extends its quiz's list by that row and leaves
      every other quiz's list as it was. */
  lemma RecordThenList(db: Db, row: Score, other: nat)
    ensures var after := db.(scores := db.scores + [row], nextScoreId := db.nextScoreId + 1);
      && ScoresOf(after.scores, row.quizId) == ScoresOf(db.scores, row.quizId) + [row]
      && (other != row.quizId ==> ScoresOf(after.scores, other) == ScoresOf(db.scores, other))
  {
    RowsOfAppend(db.scores, [row], ScoreQuiz, row.quizId);
    RowsOfAppend(db.scores, [row], ScoreQuiz, other);
    assert [row][..0] == [];
    assert ScoresOf([row], row.quizId) == [row];
    if other != row.quizId {
      assert ScoresOf([row], other) == [];
    }
  }

  /** After a recorded attempt, listing the quiz's scores gives the earlier
      list followed by the new row; other quizzes' lists are unchanged. */
  lemma SubmitThenList(db: Db, quizId: nat, pseudo: Option<string>, answers: Answers, other: nat)
    requires Submit(db, quizId, pseudo, answers).response.ShowResult?
    ensures var o := Submit(db, quizId, pseudo, answers);
      var row := Score(db.nextScoreId, quizId, pseudo.value, o.response.score);
      && ListScores(o.db, quizId) == Some(ListScores(db, quizId).value + [row])
      && (other != quizId ==> ListScores(o.db, other) == ListScores(db, other))
  {
    var o := Submit(db, quizId, pseudo, answers);
    var row := Score(db.nextScoreId, quizId, pseudo.value, o.response.score);
    assert o.db == db.(scores := db.scores + [row], nextScoreId := db.nextScoreId + 1);
    RecordThenList(db, row, other);
  }
}
