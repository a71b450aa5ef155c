/** The three tables of the application (app.py lines 40-57) and the
    queries the routes run against them. Tables are append-only sequences in
    insertion order; the database's autoincrement counters are explicit. */
module Records {
  import opened Wrappers

  datatype Quiz = Quiz(id: nat, title: string)

  datatype Question = Question(
    id: nat,
    quizId: nat,
    text: string,
    correctAnswer: string,
    imageFilename: Option<string>)

  datatype Score = Score(id: nat, quizId: nat, pseudo: string, userScore: nat)

  /** A question built by the creation route before the database gives it an id. */
  datatype QuestionDraft = QuestionDraft(
    quizId: nat,
    text: string,
    correctAnswer: string,
    imageFilename: Option<string>)

  /** The database: three tables and the next value of each autoincrement key. */
  datatype Db = Db(
    quizzes: seq<Quiz>,
    questions: seq<Question>,
    scores: seq<Score>,
    nextQuizId: nat,
    nextQuestionId: nat,
    nextScoreId: nat)

  /** `Quiz.query.get(id)`: the quiz row with that id, if there is one. */
  function FindQuiz(quizzes: seq<Quiz>, id: nat): (r: Option<Quiz>)
    ensures r.Some? ==> r.value in quizzes && r.value.id == id
    ensures r.None? <==> forall i :: 0 <= i < |quizzes| ==> quizzes[i].id != id
  {
    if |quizzes| == 0 then None
    else if quizzes[0].id == id then Some(quizzes[0])
    else FindQuiz(quizzes[1..], id)
  }

  /** `filter_by(quiz_id=id).all()` on a table whose rows name their quiz
      through `quizOf`: the rows of quiz `quizId`, in table order. */
  function RowsOf<T>(rows: seq<T>, quizOf: T -> nat, quizId: nat): (r: seq<T>)
    ensures |r| <= |rows|
  {
    if |rows| == 0 then []
    else
      var last := rows[|rows| - 1];
      RowsOf(rows[..|rows| - 1], quizOf, quizId) + (if quizOf(last) == quizId then [last] else [])
  }

  function QuestionQuiz(q: Question): nat { q.quizId }

  function ScoreQuiz(s: Score): nat { s.quizId }

  /** `Question.query.filter_by(quiz_id=id).all()`. */
  function QuestionsOf(questions: seq<Question>, quizId: nat): seq<Question> {
    RowsOf(questions, QuestionQuiz, quizId)
  }

  /** `Score.query.filter_by(quiz_id=id).all()`. */
  function ScoresOf(scores: seq<Score>, quizId: nat): seq<Score> {
    RowsOf(scores, ScoreQuiz, quizId)
  }

  /** The query returns exactly the rows of the table that belong to the quiz. */
  lemma {:induction false} RowsOfSpec<T>(rows: seq<T>, quizOf: T -> nat, quizId: nat)
    ensures forall x :: x in RowsOf(rows, quizOf, quizId) <==> x in rows && quizOf(x) == quizId
  {
    if |rows| > 0 {
      var n := |rows| - 1;
      RowsOfSpec(rows[..n], quizOf, quizId);
      assert rows == rows[..n] + [rows[n]];
    }
  }

  /** A table none of whose rows belong to the quiz yields nothing. */
  lemma {:induction false} RowsOfNone<T>(rows: seq<T>, quizOf: T -> nat, quizId: nat)
    requires forall i :: 0 <= i < |rows| ==> quizOf(rows[i]) != quizId
    ensures RowsOf(rows, quizOf, quizId) == []
  {
    if |rows| > 0 {
      RowsOfNone(rows[..|rows| - 1], quizOf, quizId);
    }
  }

  /** Rows that all belong to the quiz are all returned, in order. */
  lemma {:induction false} RowsOfAll<T>(rows: seq<T>, quizOf: T -> nat, quizId: nat)
    requires forall i :: 0 <= i < |rows| ==> quizOf(rows[i]) == quizId
    ensures RowsOf(rows, quizOf, quizId) == rows
  {
    if |rows| > 0 {
      var n := |rows| - 1;
      RowsOfAll(rows[..n], quizOf, quizId);
      assert rows == rows[..n] + [rows[n]];
    }
  }

  /** Filtering distributes over appending rows: earlier rows keep their place,
      new matching rows come after them in insertion order. */
  lemma {:induction false} RowsOfAppend<T>(a: seq<T>, b: seq<T>, quizOf: T -> nat, quizId: nat)
    ensures RowsOf(a + b, quizOf, quizId) == RowsOf(a, quizOf, quizId) + RowsOf(b, quizOf, quizId)
  {
    if |b| == 0 {
      assert a + b == a;
    } else {
      assert (a + b)[..|a + b| - 1] == a + b[..|b| - 1];
      RowsOfAppend(a, b[..|b| - 1], quizOf, quizId);
    }
  }

  /** Inserting drafts in order: the database hands out consecutive ids from `firstId`. */
  function Insert(drafts: seq<QuestionDraft>, firstId: nat): (r: seq<Question>)
    ensures |r| == |drafts|
    ensures forall k :: 0 <= k < |drafts| ==>
      r[k] == Question(firstId + k, drafts[k].quizId, drafts[k].text,
                       drafts[k].correctAnswer, drafts[k].imageFilename)
  {
    if |drafts| == 0 then []
    else
      var d := drafts[0];
      [Question(firstId, d.quizId, d.text, d.correctAnswer, d.imageFilename)]
        + Insert(drafts[1..], firstId + 1)
  }

  /** Ids in a table are below the next autoincrement value and strictly increase. */
  ghost predicate QuizIdsFresh(db: Db) {
    && (forall i :: 0 <= i < |db.quizzes| ==> db.quizzes[i].id < db.nextQuizId)
    && (forall i, j :: 0 <= i < j < |db.quizzes| ==> db.quizzes[i].id < db.quizzes[j].id)
  }

  ghost predicate QuestionIdsFresh(db: Db) {
    && (forall i :: 0 <= i < |db.questions| ==> db.questions[i].id < db.nextQuestionId)
    && (forall i, j :: 0 <= i < j < |db.questions| ==> db.questions[i].id < db.questions[j].id)
  }

  ghost predicate ScoreIdsFresh(db: Db) {
    && (forall i :: 0 <= i < |db.scores| ==> db.scores[i].id < db.nextScoreId)
    && (forall i, j :: 0 <= i < j < |db.scores| ==> db.scores[i].id < db.scores[j].id)
  }

  /** Every question and every score belongs to a quiz that exists (the foreign keys). */
  ghost predicate ForeignKeysHold(db: Db) {
    && (forall i :: 0 <= i < |db.questions| ==> FindQuiz(db.quizzes, db.questions[i].quizId).Some?)
    && (forall i :: 0 <= i < |db.scores| ==> FindQuiz(db.quizzes, db.scores[i].quizId).Some?)
  }

  /** Every recorded score is at most the number of questions of its quiz. */
  ghost predicate ScoresBounded(db: Db) {
    forall i :: 0 <= i < |db.scores| ==>
      db.scores[i].userScore <= |QuestionsOf(db.questions, db.scores[i].quizId)|
  }

  /** The invariant of the database that every route preserves. */
  ghost predicate WellFormed(db: Db) {
    && QuizIdsFresh(db)
    && QuestionIdsFresh(db)
    && ScoreIdsFresh(db)
    && ForeignKeysHold(db)
    && ScoresBounded(db)
  }
}
