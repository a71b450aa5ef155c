/** Facts that span several routes: the database invariant is preserved by
    creation and by recording a score, a created quiz reads back as
    submitted, and every stored image name resolves in the blob container. */
module Invariants {
  import opened Wrappers
  import opened Records
  import opened Creation
  import opened Grading
  import opened Scoring

  lemma FindQuizAfterAppend(quizzes: seq<Quiz>, q: Quiz, id: nat)
    ensures FindQuiz(quizzes + [q], id).Some? <==> FindQuiz(quizzes, id).Some? || q.id == id
  {
    var all := quizzes + [q];
    assert all[|quizzes|] == q;
    assert forall i :: 0 <= i < |quizzes| ==> all[i] == quizzes[i];
  }

  /** Committing the quiz row keeps the database well formed. */
  lemma AddQuizPreserves(db: Db, title: string)
    requires WellFormed(db)
    ensures WellFormed(db.(quizzes := db.quizzes + [Quiz(db.nextQuizId, title)],
                           nextQuizId := db.nextQuizId + 1))
  {
    var q := Quiz(db.nextQuizId, title);
    var after := db.(quizzes := db.quizzes + [q], nextQuizId := db.nextQuizId + 1);
    forall i | 0 <= i < |db.questions|
      ensures FindQuiz(after.quizzes, db.questions[i].quizId).Some?
    {
      FindQuizAfterAppend(db.quizzes, q, db.questions[i].quizId);
    }
    forall i | 0 <= i < |db.scores|
      ensures FindQuiz(after.quizzes, db.scores[i].quizId).Some?
    {
      FindQuizAfterAppend(db.quizzes, q, db.scores[i].quizId);
    }
  }

  lemma AddQuestionsKeepsIds(db: Db, drafts: seq<QuestionDraft>)
    requires QuestionIdsFresh(db)
    ensures var rows := Insert(drafts, db.nextQuestionId);
      QuestionIdsFresh(db.(questions := db.questions + rows, nextQuestionId := db.nextQuestionId + |rows|))
  {
    var rows := Insert(drafts, db.nextQuestionId);
    var after := db.(questions := db.questions + rows, nextQuestionId := db.nextQuestionId + |rows|);
    var n := |db.questions|;
    forall i | 0 <= i < |after.questions| ensures after.questions[i].id < after.nextQuestionId {
      if i >= n { assert after.questions[i] == rows[i - n]; }
    }
    forall i, j | 0 <= i < j < |after.questions|
      ensures after.questions[i].id < after.questions[j].id
    {
      if j < n {
        assert after.questions[i] == db.questions[i] && after.questions[j] == db.questions[j];
      } else if i < n {
        assert after.questions[i] == db.questions[i] && after.questions[j] == rows[j - n];
      } else {
        assert after.questions[i] == rows[i - n] && after.questions[j] == rows[j - n];
      }
    }
  }

  lemma AddQuestionsKeepsForeignKeys(db: Db, drafts: seq<QuestionDraft>)
    requires ForeignKeysHold(db)
    requires forall k :: 0 <= k < |drafts| ==> FindQuiz(db.quizzes, drafts[k].quizId).Some?
    ensures var rows := Insert(drafts, db.nextQuestionId);
      ForeignKeysHold(db.(questions := db.questions + rows, nextQuestionId := db.nextQuestionId + |rows|))
  {
    var rows := Insert(drafts, db.nextQuestionId);
    var after := db.(questions := db.questions + rows, nextQuestionId := db.nextQuestionId + |rows|);
    var n := |db.questions|;
    forall i | 0 <= i < |after.questions|
      ensures FindQuiz(after.quizzes, after.questions[i].quizId).Some?
    {
      if i < n {
        assert after.questions[i] == db.questions[i];
      } else {
        assert after.questions[i] == rows[i - n];
      }
    }
  }

  lemma AddQuestionsKeepsBounds(db: Db, drafts: seq<QuestionDraft>)
    requires ScoresBounded(db)
    ensures var rows := Insert(drafts, db.nextQuestionId);
      ScoresBounded(db.(questions := db.questions + rows, nextQuestionId := db.nextQuestionId + |rows|))
  {
    var rows := Insert(drafts, db.nextQuestionId);
    var after := db.(questions := db.questions + rows, nextQuestionId := db.nextQuestionId + |rows|);
    forall i | 0 <= i < |db.scores|
      ensures db.scores[i].userScore <= |QuestionsOf(after.questions, db.scores[i].quizId)|
    {
      RowsOfAppend(db.questions, rows, QuestionQuiz, db.scores[i].quizId);
    }
  }

  /** Quiz creation, whatever its outcome, keeps the database well formed. */
  lemma CreateQuizPreservesWellFormed(db: Db, blobs: BlobStore, form: CreateForm, failing: set<nat>)
    requires WellFormed(db)
    ensures WellFormed(CreateQuiz(db, blobs, form, failing).db)
  {
    if CreateQuiz(db, blobs, form, failing).response.RedirectToIndex? {
      CreatedQuizPreserves(db, blobs, form, failing);
    } else {
      RejectedQuizPreserves(db, blobs, form, failing);
    }
  }

  lemma RejectedQuizPreserves(db: Db, blobs: BlobStore, form: CreateForm, failing: set<nat>)
    requires WellFormed(db)
    requires !CreateQuiz(db, blobs, form, failing).response.RedirectToIndex?
    ensures WellFormed(CreateQuiz(db, blobs, form, failing).db)
  {
    var o := CreateQuiz(db, blobs, form, failing);
    if Complete(form) {
      AddQuizPreserves(db, form.title.value);
      assert o.db == db.(quizzes := db.quizzes + [Quiz(db.nextQuizId, form.title.value)],
                         nextQuizId := db.nextQuizId + 1);
    }
  }

  lemma CreatedQuizPreserves(db: Db, blobs: BlobStore, form: CreateForm, failing: set<nat>)
    requires WellFormed(db)
    requires CreateQuiz(db, blobs, form, failing).response.RedirectToIndex?
    ensures WellFormed(CreateQuiz(db, blobs, form, failing).db)
  {
    var drafts := PlanQuiz(form, db.nextQuizId).value.drafts;
    CreatedDb(db, blobs, form, failing);
    AddQuizAndQuestionsPreserves(db, form.title.value, drafts);
    assert CreateQuiz(db, blobs, form, failing).db == AddQuizAndQuestions(db, form.title.value, drafts);
  }

  /** The quiz row under the next id, then question rows that all point at it. */
  function AddQuizAndQuestions(db: Db, title: string, drafts: seq<QuestionDraft>): Db {
    var db1 := db.(quizzes := db.quizzes + [Quiz(db.nextQuizId, title)], nextQuizId := db.nextQuizId + 1);
    db1.(questions := db1.questions + Insert(drafts, db1.nextQuestionId),
         nextQuestionId := db1.nextQuestionId + |drafts|)
  }

  lemma AddQuizAndQuestionsPreserves(db: Db, title: string, drafts: seq<QuestionDraft>)
    requires WellFormed(db)
    requires forall k :: 0 <= k < |drafts| ==> drafts[k].quizId == db.nextQuizId
    ensures WellFormed(AddQuizAndQuestions(db, title, drafts))
  {
    CreationKeepsIds(db, title, drafts);
    CreationKeepsForeignKeys(db, title, drafts);
    CreationKeepsBounds(db, title, drafts);
  }

  lemma CreationKeepsIds(db: Db, title: string, drafts: seq<QuestionDraft>)
    requires QuizIdsFresh(db) && QuestionIdsFresh(db) && ScoreIdsFresh(db)
    ensures QuizIdsFresh(AddQuizAndQuestions(db, title, drafts))
    ensures QuestionIdsFresh(AddQuizAndQuestions(db, title, drafts))
    ensures ScoreIdsFresh(AddQuizAndQuestions(db, title, drafts))
  {
    var db1 := db.(quizzes := db.quizzes + [Quiz(db.nextQuizId, title)], nextQuizId := db.nextQuizId + 1);
    assert QuestionIdsFresh(db1);
    AddQuestionsKeepsIds(db1, drafts);
  }

  lemma CreationKeepsForeignKeys(db: Db, title: string, drafts: seq<QuestionDraft>)
    requires ForeignKeysHold(db)
    requires forall k :: 0 <= k < |drafts| ==> drafts[k].quizId == db.nextQuizId
    ensures ForeignKeysHold(AddQuizAndQuestions(db, title, drafts))
  {
    var q := Quiz(db.nextQuizId, title);
    var db1 := db.(quizzes := db.quizzes + [q], nextQuizId := db.nextQuizId + 1);
    forall i | 0 <= i < |db.questions|
      ensures FindQuiz(db1.quizzes, db.questions[i].quizId).Some?
    {
      FindQuizAfterAppend(db.quizzes, q, db.questions[i].quizId);
    }
    forall i | 0 <= i < |db.scores|
      ensures FindQuiz(db1.quizzes, db.scores[i].quizId).Some?
    {
      FindQuizAfterAppend(db.quizzes, q, db.scores[i].quizId);
    }
    FindQuizAfterAppend(db.quizzes, q, db.nextQuizId);
    AddQuestionsKeepsForeignKeys(db1, drafts);
  }

  lemma CreationKeepsBounds(db: Db, title: string, drafts: seq<QuestionDraft>)
    requires ScoresBounded(db)
    ensures ScoresBounded(AddQuizAndQuestions(db, title, drafts))
  {
    var db1 := db.(quizzes := db.quizzes + [Quiz(db.nextQuizId, title)], nextQuizId := db.nextQuizId + 1);
    assert ScoresBounded(db1);
    AddQuestionsKeepsBounds(db1, drafts);
  }

  /** The database a successful creation leaves: the quiz row, then the question rows. */
  lemma CreatedDb(db: Db, blobs: BlobStore, form: CreateForm, failing: set<nat>)
    requires CreateQuiz(db, blobs, form, failing).response.RedirectToIndex?
    ensures var id := db.nextQuizId;
      var drafts := PlanQuiz(form, id).value.drafts;
      && (forall k :: 0 <= k < |drafts| ==> drafts[k].quizId == id)
      && CreateQuiz(db, blobs, form, failing).db == AddQuizAndQuestions(db, form.title.value, drafts)
  {
  }

  /** Recording an attempt keeps the database well formed; in particular
      the new score is at most the number of questions of its quiz. */
  lemma SubmitPreservesWellFormed(db: Db, quizId: nat, pseudo: Option<string>, answers: Answers)
    requires WellFormed(db)
    ensures WellFormed(Submit(db, quizId, pseudo, answers).db)
  {
    var o := Submit(db, quizId, pseudo, answers);
    if o.response.ShowResult? {
      var row := Score(db.nextScoreId, quizId, pseudo.value, o.response.score);
      RecordPreserves(db, row);
      assert o.db == db.(scores := db.scores + [row], nextScoreId := db.nextScoreId + 1);
    }
  }

  /** Appending a score row with a fresh id, for an existing quiz, bounded by
      that quiz's question count, keeps the database well formed. */
  lemma RecordPreserves(db: Db, row: Score)
    requires WellFormed(db)
    requires row.id == db.nextScoreId
    requires FindQuiz(db.quizzes, row.quizId).Some?
    requires row.userScore <= |QuestionsOf(db.questions, row.quizId)|
    ensures WellFormed(db.(scores := db.scores + [row], nextScoreId := db.nextScoreId + 1))
  {
    var after := db.(scores := db.scores + [row], nextScoreId := db.nextScoreId + 1);
    RecordKeepsIds(db, row);
    RecordKeepsForeignKeys(db, row);
    RecordKeepsBounds(db, row);
    assert QuizIdsFresh(after) && QuestionIdsFresh(after);
  }

  lemma RecordKeepsIds(db: Db, row: Score)
    requires ScoreIdsFresh(db) && row.id == db.nextScoreId
    ensures ScoreIdsFresh(db.(scores := db.scores + [row], nextScoreId := db.nextScoreId + 1))
  {
    var after := db.(scores := db.scores + [row], nextScoreId := db.nextScoreId + 1);
    assert forall i :: 0 <= i < |db.scores| ==> after.scores[i] == db.scores[i];
    assert after.scores[|db.scores|] == row;
  }

  lemma RecordKeepsForeignKeys(db: Db, row: Score)
    requires ForeignKeysHold(db) && FindQuiz(db.quizzes, row.quizId).Some?
    ensures ForeignKeysHold(db.(scores := db.scores + [row], nextScoreId := db.nextScoreId + 1))
  {
    var after := db.(scores := db.scores + [row], nextScoreId := db.nextScoreId + 1);
    assert forall i :: 0 <= i < |db.scores| ==> after.scores[i] == db.scores[i];
    assert after.scores[|db.scores|] == row;
  }

  lemma RecordKeepsBounds(db: Db, row: Score)
    requires ScoresBounded(db) && row.userScore <= |QuestionsOf(db.questions, row.quizId)|
    ensures ScoresBounded(db.(scores := db.scores + [row], nextScoreId := db.nextScoreId + 1))
  {
    var after := db.(scores := db.scores + [row], nextScoreId := db.nextScoreId + 1);
    assert forall i :: 0 <= i < |db.scores| ==> after.scores[i] == db.scores[i];
    assert after.scores[|db.scores|] == row;
  }

  /** The quiz row committed under the next id is the one a lookup of that id finds. */
  lemma NewQuizFound(db: Db, title: string)
    requires QuizIdsFresh(db)
    ensures var q := Quiz(db.nextQuizId, title);
      FindQuiz(db.quizzes + [q], db.nextQuizId) == Some(q)
  {
    var q, id := Quiz(db.nextQuizId, title), db.nextQuizId;
    var all := db.quizzes + [q];
    FindQuizAfterAppend(db.quizzes, q, id);
    var found := FindQuiz(all, id);
    assert forall j :: 0 <= j < |db.quizzes| ==> all[j].id != id;
    var j :| 0 <= j < |all| && all[j] == found.value;
    assert j == |db.quizzes|;
  }

  /** No question of a well-formed database belongs to the quiz id not yet handed out. */
  lemma NoQuestionsForNewQuiz(db: Db)
    requires QuizIdsFresh(db) && ForeignKeysHold(db)
    ensures QuestionsOf(db.questions, db.nextQuizId) == []
  {
    forall i | 0 <= i < |db.questions| ensures db.questions[i].quizId != db.nextQuizId {
      var owner := FindQuiz(db.quizzes, db.questions[i].quizId).value;
      var k :| 0 <= k < |db.quizzes| && db.quizzes[k] == owner;
    }
    RowsOfNone(db.questions, QuestionQuiz, db.nextQuizId);
  }

  /** After a successful creation the new quiz is found under its id with
      the submitted title, and its questions are exactly the created rows,
      in submission order. */
  lemma CreateThenFetch(db: Db, blobs: BlobStore, form: CreateForm, failing: set<nat>)
    requires WellFormed(db)
    requires CreateQuiz(db, blobs, form, failing).response.RedirectToIndex?
    ensures var o, id := CreateQuiz(db, blobs, form, failing), db.nextQuizId;
      && FindQuiz(o.db.quizzes, id) == Some(Quiz(id, form.title.value))
      && QuestionsOf(o.db.questions, id) == Insert(PlanQuiz(form, id).value.drafts, db.nextQuestionId)
  {
    var id := db.nextQuizId;
    var rows := Insert(PlanQuiz(form, id).value.drafts, db.nextQuestionId);
    CreatedDb(db, blobs, form, failing);
    NewQuizFound(db, form.title.value);
    NoQuestionsForNewQuiz(db);
    RowsOfAll(rows, QuestionQuiz, id);
    RowsOfAppend(db.questions, rows, QuestionQuiz, id);
  }

  /** Every image name stored on a newly created question is a blob that
      exists in the container once creation succeeds, holding that
      question's uploaded file. */
  lemma CreatedImagesResolve(db: Db, blobs: BlobStore, form: CreateForm, failing: set<nat>, i: nat)
    requires CreateQuiz(db, blobs, form, failing).response.RedirectToIndex?
    requires i < PairCount(form) && HasImage(form, i)
    ensures var o, key := CreateQuiz(db, blobs, form, failing), ImageKey(form, db.nextQuizId, i).value;
      key in o.blobs && o.blobs[key] == form.images[i].content
  {
    var id := db.nextQuizId;
    var us := PlanQuiz(form, id).value.uploads;
    var run := PutAll(blobs, us, failing);
    assert run.failedAt.None?;
    assert CreateQuiz(db, blobs, form, failing).blobs == run.blobs;
    UploadsComplete(form, id, 0, i);
    var k :| 0 <= k < |us| && us[k].index == i;
    UploadsNamed(form, id, 0);
    assert us[k].key == ImageKey(form, id, i).value;
    UploadKeysDistinct(form, id);
    PutAllStoresContent(blobs, us, failing, k);
  }

  /** Creation is not all-or-nothing: when an upload raises, the quiz row is
      already committed and stays, with no questions at all. */
  lemma UploadFailureLeavesEmptyQuiz(db: Db, blobs: BlobStore, form: CreateForm, failing: set<nat>)
    requires WellFormed(db)
    requires CreateQuiz(db, blobs, form, failing).response.UploadFailed?
    ensures var o, id := CreateQuiz(db, blobs, form, failing), db.nextQuizId;
      && FindQuiz(o.db.quizzes, id) == Some(Quiz(id, form.title.value))
      && QuestionsOf(o.db.questions, id) == []
  {
    NewQuizFound(db, form.title.value);
    NoQuestionsForNewQuiz(db);
  }
}
