/** Concrete instances of the model, proved for the situations the application is meant
    to handle: a blob name, padded and re-cased answers, a three-question
    count, and a create-then-answer session. */
module Scenarios {
  import opened Wrappers
  import opened Records
  import opened Text
  import opened Creation
  import opened Grading
  import opened Scoring
  import BlobKey

  /** The image "flag.png" of question 0 of quiz 7 is stored as `quiz_7_q0_flag.png`. */
  lemma FlagBlobName()
    ensures BlobKey.Key(7, 0, "flag.png") == "quiz_7_q0_flag.png"
  {
  }

  /** The comparison key of trimmed text is its character-wise lower-casing. */
  lemma KeyOf(s: string, key: string)
    requires Trimmed(s) && |key| == |s|
    requires forall i :: 0 <= i < |s| ==> LowerChar(s[i]) == key[i]
    ensures Normalize(s) == key
  {
    NormalizeTrimmed(s);
    LowerSpec(s);
  }

  // One comparison key per lemma: several keys of literal text in one
  // proof context make the solver unfold the normaliser far more than needed.

  lemma KeyParis()
    ensures Normalize("Paris") == "paris"
  {
    KeyOf("Paris", "paris");
  }

  lemma KeyLowerParis()
    ensures Normalize("paris") == "paris"
  {
    KeyOf("paris", "paris");
  }

  lemma KeyPaddedParis()
    ensures Normalize(" Paris ") == "paris"
  {
    assert " Paris " == " " + "Paris" + " ";
    NormalizeIgnoresPadding(" ", "Paris", " ");
    KeyParis();
  }

  lemma KeyLyon()
    ensures Normalize("Lyon") != "paris"
  {
    KeyOf("Lyon", "lyon");
    assert "lyon"[0] != "paris"[0];
  }

  lemma KeySmallA()
    ensures Normalize("a") == "a"
  {
    KeyOf("a", "a");
  }

  lemma KeyCapitalA()
    ensures Normalize("A") == "a"
  {
    KeyOf("A", "a");
  }

  lemma KeyB()
    ensures Normalize("B") == "b"
  {
    KeyOf("B", "b");
  }

  lemma KeyWrong()
    ensures Normalize("wrong") != Normalize("C")
  {
    KeyOf("wrong", "wrong");
    KeyOf("C", "c");
    assert |"wrong"| != |"c"|;
  }

  /** " Paris " and "paris" share the comparison key "paris". */
  lemma NormalizeParis()
    ensures Normalize(" Paris ") == "paris"
    ensures Normalize("paris") == "paris"
  {
    KeyPaddedParis();
    KeyLowerParis();
  }

  /** A submitted " Paris " earns the point of a question whose answer is "paris". */
  lemma PaddedCapitalMatches()
    ensures var q := Question(3, 1, "Capital of France?", "paris", None);
      Earns(q, map["3" := " Paris "])
  {
    var q := Question(3, 1, "Capital of France?", "paris", None);
    NormalizeParis();
    assert FieldName(q) == "3";
  }

  /** A three-question quiz scores the sum of the three points. */
  lemma GradeThree(a: Question, b: Question, c: Question, answers: Answers)
    ensures Grade([a, b, c], answers) == Point(a, answers) + Point(b, answers) + Point(c, answers)
  {
    assert [a, b, c][..2] == [a, b];
    assert Grade([a, b, c], answers) == Grade([a, b], answers) + Point(c, answers);
    assert [a, b][..1] == [a];
    assert Grade([a, b], answers) == Grade([a], answers) + Point(b, answers);
    assert [a][..0] == [];
    assert Grade([a], answers) == Point(a, answers);
  }

  /** Correct answers A, B, C and submissions a, B, wrong score 2. */
  lemma CountsMatchingAnswers(q1: Question, q2: Question, q3: Question, answers: Answers)
    requires q1 == Question(1, 1, "1?", "A", None)
    requires q2 == Question(2, 1, "2?", "B", None)
    requires q3 == Question(3, 1, "3?", "C", None)
    requires answers == map["1" := "a", "2" := "B", "3" := "wrong"]
    ensures Grade([q1, q2, q3], answers) == 2
  {
    GradeThree(q1, q2, q3, answers);
    assert FieldName(q1) == "1" && FieldName(q2) == "2" && FieldName(q3) == "3";
    KeySmallA();
    KeyCapitalA();
    PointOf(q1, answers, "a");
    KeyB();
    PointOf(q2, answers, "B");
    KeyWrong();
    PointOf(q3, answers, "wrong");
  }

  /** The point of a question whose field carries `given`. */
  lemma PointOf(q: Question, answers: Answers, given: string)
    requires FieldName(q) in answers && answers[FieldName(q)] == given
    ensures Point(q, answers) == if given != "" && Normalize(given) == Normalize(q.correctAnswer) then 1 else 0
  {
  }

  /** Creating a quiz "Geo" with one question and no image on an empty
      database commits quiz 1 and question 1 and answers with the redirect. */
  lemma GeoCreated()
    ensures var form := CreateForm(Some("Geo"), ["Capital of France?"], ["Paris"], []);
      CreateQuiz(Db([], [], [], 1, 1, 1), map[], form, {})
        == CreateOutcome(GeoDb(), map[], RedirectToIndex)
  {
    var db0 := Db([], [], [], 1, 1, 1);
    var form := CreateForm(Some("Geo"), ["Capital of France?"], ["Paris"], []);
    var created := CreateQuiz(db0, map[], form, {});
    assert FirstFailure(form, {}, 0) == None;
    assert PlanQuiz(form, 1).value.uploads == [];
    CreateQuizInsertsPairs(db0, map[], form, {});
    assert created.db.questions == GeoDb().questions;
  }

  /** The database after the "Geo" quiz was created. */
  function GeoDb(): Db {
    Db([Quiz(1, "Geo")], [Question(1, 1, "Capital of France?", "Paris", None)], [], 2, 2, 1)
  }

  lemma GradeOne(q: Question, answers: Answers)
    ensures Grade([q], answers) == Point(q, answers)
  {
    assert [q][..0] == [];
  }

  /** The stored answer "Paris" and the submission "paris" share a key; "Lyon" does not. */
  lemma GeoKeys()
    ensures Normalize("Paris") == "paris" && Normalize("paris") == "paris"
    ensures Normalize("Lyon") != "paris"
  {
    KeyParis();
    KeyLowerParis();
    KeyLyon();
  }

  /** Answering "paris" to the "Geo" quiz scores 1. */
  lemma GeoRightAnswer(db: Db)
    requires db.quizzes == GeoDb().quizzes && db.questions == GeoDb().questions
    ensures Submit(db, 1, Some("ana"), map["1" := "paris"]).response == ShowResult(1, 1, "ana")
  {
    var row := db.questions[0];
    var answers := map["1" := "paris"];
    assert FindQuiz(db.quizzes, 1).Some?;
    assert QuestionsOf(db.questions, 1) == [row] by {
      assert db.questions[..0] == [];
    }
    assert FieldName(row) == "1";
    KeyParis();
    KeyLowerParis();
    PointOf(row, answers, "paris");
    GradeOne(row, answers);
  }

  /** Answering "Lyon" to the "Geo" quiz scores 0. */
  lemma GeoWrongAnswer(db: Db)
    requires db.quizzes == GeoDb().quizzes && db.questions == GeoDb().questions
    ensures Submit(db, 1, Some("bo"), map["1" := "Lyon"]).response == ShowResult(1, 0, "bo")
  {
    var row := db.questions[0];
    var answers := map["1" := "Lyon"];
    assert FindQuiz(db.quizzes, 1).Some?;
    assert QuestionsOf(db.questions, 1) == [row] by {
      assert db.questions[..0] == [];
    }
    assert FieldName(row) == "1";
    KeyParis();
    KeyLyon();
    PointOf(row, answers, "Lyon");
    GradeOne(row, answers);
  }

  /** The database once "ana" has answered the "Geo" quiz. */
  function GeoAfterAna(): Db {
    GeoDb().(scores := [Score(1, 1, "ana", 1)], nextScoreId := 2)
  }

  /** The database once "bo" has answered after "ana". */
  function GeoAfterBo(): Db {
    GeoDb().(scores := [Score(1, 1, "ana", 1), Score(2, 1, "bo", 0)], nextScoreId := 3)
  }

  /** The right answer of "ana" appends one score row for "ana". */
  lemma GeoAnaRecorded(db: Db)
    requires db == GeoDb()
    ensures Submit(db, 1, Some("ana"), map["1" := "paris"]).db == GeoAfterAna()
  {
    GeoRightAnswer(db);
  }

  /** The wrong answer of "bo" appends a score row after the one for "ana". */
  lemma GeoBoRecorded(db: Db)
    requires db == GeoAfterAna()
    ensures Submit(db, 1, Some("bo"), map["1" := "Lyon"]).db == GeoAfterBo()
  {
    GeoWrongAnswer(db);
    assert db.scores + [Score(2, 1, "bo", 0)] == GeoAfterBo().scores;
  }

  /** Both attempts are listed for the "Geo" quiz, in the order they were made. */
  lemma GeoScoresInOrder()
    ensures ListScores(GeoAfterBo(), 1) == Some([Score(1, 1, "ana", 1), Score(2, 1, "bo", 0)])
  {
    var ana, bo := Score(1, 1, "ana", 1), Score(2, 1, "bo", 0);
    RecordThenList(GeoAfterAna(), bo, 1);
    assert GeoAfterAna().scores + [bo] == GeoAfterBo().scores;
    assert ScoresOf([ana], 1) == [ana] by {
      assert [ana][..0] == [];
    }
    assert FindQuiz(GeoAfterBo().quizzes, 1).Some?;
  }
}
