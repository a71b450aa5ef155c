/** The quiz-creation route (`create_quiz`, app.py lines 70-105): form
    validation, pairing of questions with answers, image blob names, the
    uploads, and the two separate commits. */
module Creation {
  import opened Wrappers
  import opened Records
  import BlobKey

  /** An uploaded file part; an empty file name means no file was chosen. */
  datatype ImageFile = ImageFile(filename: string, content: seq<bv8>)

  /** The submitted form: `title` (absent or text) and the repeated
      `question`, `answer` and `image` fields in submission order. */
  datatype CreateForm = CreateForm(
    title: Option<string>,
    questions: seq<string>,
    answers: seq<string>,
    images: seq<ImageFile>)

  /** One blob put the route performs: question index, blob name, file. */
  datatype Upload = Upload(index: nat, key: string, file: ImageFile)

  /** What the route decides before touching the store: the question rows
      and the uploads, both in question order. */
  datatype Plan = Plan(drafts: seq<QuestionDraft>, uploads: seq<Upload>)

  /** The blob container: blob name to content. */
  type BlobStore = map<string, seq<bv8>>

  /** The HTTP answer: redirect to the index, 400 for an incomplete form,
      500 naming the file whose upload failed. */
  datatype CreateResponse = RedirectToIndex | Incomplete | UploadFailed(filename: string)

  datatype CreateOutcome = CreateOutcome(db: Db, blobs: BlobStore, response: CreateResponse)

  /** The progress of the upload loop: the store so far, and the position in
      the upload list of the put that raised, if one did. */
  datatype UploadRun = UploadRun(blobs: BlobStore, failedAt: Option<nat>)

  /** The guard on line 76: a title that is present and non-empty, and at
      least one question and one answer. */
  predicate Complete(form: CreateForm) {
    && form.title.Some? && form.title.value != ""
    && |form.questions| > 0
    && |form.answers| > 0
  }

  /** How many pairs `zip(questions, answers)` yields. */
  function PairCount(form: CreateForm): (n: nat)
    ensures n <= |form.questions| && n <= |form.answers|
    ensures n == |form.questions| || n == |form.answers|
  {
    if |form.questions| <= |form.answers| then |form.questions| else |form.answers|
  }

  /** Question `i` has an image: there is an `i`-th file part and it carries a file name. */
  predicate HasImage(form: CreateForm, i: nat) {
    i < |form.images| && form.images[i].filename != ""
  }

  /** The `image_filename` stored for question `i` of quiz `quizId`. */
  function ImageKey(form: CreateForm, quizId: nat, i: nat): Option<string> {
    if HasImage(form, i) then Some(BlobKey.Key(quizId, i, form.images[i].filename)) else None
  }

  /** The question rows for pairs `from` onwards. */
  function Drafts(form: CreateForm, quizId: nat, from: nat): (r: seq<QuestionDraft>)
    requires from <= PairCount(form)
    ensures |r| == PairCount(form) - from
    ensures forall k :: 0 <= k < |r| ==>
      && r[k].quizId == quizId
      && r[k].text == form.questions[from + k]
      && r[k].correctAnswer == form.answers[from + k]
      && r[k].imageFilename == ImageKey(form, quizId, from + k)
    decreases PairCount(form) - from
  {
    if from == PairCount(form) then []
    else
      [QuestionDraft(quizId, form.questions[from], form.answers[from], ImageKey(form, quizId, from))]
        + Drafts(form, quizId, from + 1)
  }

  /** The blob puts for pairs `from` onwards: one for each question with an
      image, in increasing question order, and no other. */
  function Uploads(form: CreateForm, quizId: nat, from: nat): (r: seq<Upload>)
    requires from <= PairCount(form)
    ensures forall k :: 0 <= k < |r| ==> from <= r[k].index < PairCount(form)
    ensures forall k :: 0 <= k < |r| ==>
      HasImage(form, r[k].index) && r[k].file == form.images[r[k].index]
    ensures forall k, l :: 0 <= k < l < |r| ==> r[k].index < r[l].index
    decreases PairCount(form) - from
  {
    if from == PairCount(form) then []
    else
      var rest := Uploads(form, quizId, from + 1);
      if HasImage(form, from) then
        var r := [ImageUpload(form, quizId, from)] + rest;
        assert forall k :: 1 <= k < |r| ==> r[k] == rest[k - 1];
        r
      else rest
  }

  /** Every put stores its file under the blob name of its question. */
  lemma {:induction false} UploadsNamed(form: CreateForm, quizId: nat, from: nat)
    requires from <= PairCount(form)
    ensures forall k :: 0 <= k < |Uploads(form, quizId, from)| ==>
      NamedFor(Uploads(form, quizId, from)[k], quizId)
    decreases PairCount(form) - from
  {
    if from < PairCount(form) {
      var r := Uploads(form, quizId, from);
      var rest := Uploads(form, quizId, from + 1);
      UploadsNamed(form, quizId, from + 1);
      if HasImage(form, from) {
        var u := ImageUpload(form, quizId, from);
        assert r == [u] + rest;
        forall k | 0 <= k < |r| ensures NamedFor(r[k], quizId) {
          if k == 0 {
            assert r[k] == u;
            assert NamedFor(u, quizId);
          } else {
            assert r[k] == rest[k - 1];
            assert NamedFor(rest[k - 1], quizId);
          }
        }
      } else {
        assert r == rest;
        forall k | 0 <= k < |r| ensures NamedFor(r[k], quizId) {
          assert NamedFor(rest[k], quizId);
        }
      }
    }
  }

  /** Every question from `from` on that has an image gets its put. */
  lemma {:induction false} UploadsComplete(form: CreateForm, quizId: nat, from: nat, j: nat)
    requires from <= j < PairCount(form) && HasImage(form, j)
    ensures exists k ::
      0 <= k < |Uploads(form, quizId, from)| && Uploads(form, quizId, from)[k].index == j
    decreases PairCount(form) - from
  {
    var r := Uploads(form, quizId, from);
    var rest := Uploads(form, quizId, from + 1);
    if j == from {
      var u := ImageUpload(form, quizId, from);
      assert r == [u] + rest;
      assert r[0] == u && u.index == j;
    } else {
      UploadsComplete(form, quizId, from + 1, j);
      var k :| 0 <= k < |rest| && rest[k].index == j;
      if HasImage(form, from) {
        assert r == [ImageUpload(form, quizId, from)] + rest;
        assert r[k + 1].index == j;
      } else {
        assert r[k].index == j;
      }
    }
  }

  /** The put stores the file under `quiz_{quizId}_q{index}_{filename}`. */
  predicate NamedFor(u: Upload, quizId: nat) {
    u.key == BlobKey.Key(quizId, u.index, u.file.filename)
  }

  /** The put for question `i`: its index, its blob name, its file. */
  function ImageUpload(form: CreateForm, quizId: nat, i: nat): (u: Upload)
    requires HasImage(form, i)
    ensures u.index == i && u.file == form.images[i] && NamedFor(u, quizId)
  {
    Upload(i, BlobKey.Key(quizId, i, form.images[i].filename), form.images[i])
  }

  /** The plan for a new quiz with id `quizId`, or the 400 answer. */
  function PlanQuiz(form: CreateForm, quizId: nat): (r: Result<Plan, CreateResponse>)
    ensures r.Failure? <==> !Complete(form)
    ensures r.Failure? ==> r.error == Incomplete
    ensures r.Success? ==>
      && |r.value.drafts| == PairCount(form)
      && (forall i :: 0 <= i < PairCount(form) ==>
            r.value.drafts[i] == QuestionDraft(quizId, form.questions[i], form.answers[i],
                                               ImageKey(form, quizId, i)))
  {
    if !Complete(form) then Failure(Incomplete)
    else Success(Plan(Drafts(form, quizId, 0), Uploads(form, quizId, 0)))
  }

  /** The image of question `i` is stored as `quiz_{quizId}_q{i}_{filename}`
      exactly when the form has a file with a name at that index; otherwise
      the question has no image. */
  lemma PlanImageNames(form: CreateForm, quizId: nat, i: nat)
    requires Complete(form) && i < PairCount(form)
    ensures var d := PlanQuiz(form, quizId).value.drafts[i];
      && (HasImage(form, i) ==>
            d.imageFilename == Some(BlobKey.Key(quizId, i, form.images[i].filename)))
      && (!HasImage(form, i) ==> d.imageFilename == None)
  {
  }

  /** The blob names of one plan are pairwise distinct, so no upload of a
      quiz overwrites another of the same quiz. */
  lemma UploadKeysDistinct(form: CreateForm, quizId: nat)
    requires Complete(form)
    ensures var us := PlanQuiz(form, quizId).value.uploads;
      forall k, l :: 0 <= k < l < |us| ==> us[k].key != us[l].key
  {
    var us := PlanQuiz(form, quizId).value.uploads;
    assert us == Uploads(form, quizId, 0);
    UploadsNamed(form, quizId, 0);
    forall k, l | 0 <= k < l < |us| ensures us[k].key != us[l].key {
      if us[k].key == us[l].key {
        BlobKey.KeyInjective(quizId, us[k].index, us[k].file.filename,
                             quizId, us[l].index, us[l].file.filename);
      }
    }
  }

  /** The upload loop: puts each file under its blob name in order
      (overwriting), and stops at the first put that raises, which are the
      puts of questions whose index is in `failing`. */
  function PutAll(blobs: BlobStore, uploads: seq<Upload>, failing: set<nat>): (r: UploadRun)
    decreases |uploads|
    ensures r.failedAt.None? <==> forall k :: 0 <= k < |uploads| ==> uploads[k].index !in failing
    ensures r.failedAt.Some? ==>
      && r.failedAt.value < |uploads|
      && uploads[r.failedAt.value].index in failing
      && forall k :: 0 <= k < r.failedAt.value ==> uploads[k].index !in failing
  {
    if |uploads| == 0 then UploadRun(blobs, None)
    else if uploads[0].index in failing then UploadRun(blobs, Some(0))
    else
      var u := uploads[0];
      var rest := PutAll(blobs[u.key := u.file.content], uploads[1..], failing);
      match rest.failedAt
      case None => UploadRun(rest.blobs, None)
      case Some(p) => UploadRun(rest.blobs, Some(p + 1))
  }

  /** How many puts the loop performed: all of them, or those before the one that raised. */
  function Done(run: UploadRun, uploads: seq<Upload>): nat {
    if run.failedAt.Some? then run.failedAt.value else |uploads|
  }

  /** `key` names one of the first `n` puts. */
  predicate PutUnder(uploads: seq<Upload>, n: nat, key: string)
    requires n <= |uploads|
  {
    exists k :: 0 <= k < n && uploads[k].key == key
  }

  /** The loop's container holds the names it started with and the names of
      the puts it performed, and nothing else. */
  ghost predicate KeysAfter(blobs: BlobStore, uploads: seq<Upload>, run: UploadRun)
    requires Done(run, uploads) <= |uploads|
  {
    forall key :: key in run.blobs <==> key in blobs || PutUnder(uploads, Done(run, uploads), key)
  }

  /** After the loop the container holds the names it held before and the
      names of the puts performed, and nothing else. */
  lemma {:induction false} PutAllKeys(blobs: BlobStore, uploads: seq<Upload>, failing: set<nat>)
    ensures KeysAfter(blobs, uploads, PutAll(blobs, uploads, failing))
    decreases |uploads|
  {
    var run := PutAll(blobs, uploads, failing);
    if |uploads| > 0 && uploads[0].index !in failing {
      var u, tail := uploads[0], uploads[1..];
      var next := blobs[u.key := u.file.content];
      var rest := PutAll(next, tail, failing);
      PutAllKeys(next, tail, failing);
      assert KeysAfter(next, tail, rest);
      assert run.blobs == rest.blobs;
      assert Done(run, uploads) == Done(rest, tail) + 1;
      forall key | key in run.blobs
        ensures key in blobs || PutUnder(uploads, Done(run, uploads), key)
      {
        if key !in next {
          assert PutUnder(tail, Done(rest, tail), key);
          var j :| 0 <= j < Done(rest, tail) && tail[j].key == key;
          assert uploads[j + 1].key == key;
        } else if key !in blobs {
          assert uploads[0].key == key;
        }
      }
      forall key | key !in blobs && PutUnder(uploads, Done(run, uploads), key)
        ensures key in run.blobs
      {
        var j :| 0 <= j < Done(run, uploads) && uploads[j].key == key;
        if j > 0 {
          assert tail[j - 1].key == key;
          assert PutUnder(tail, Done(rest, tail), key);
        } else {
          assert key in next;
        }
      }
    } else {
      assert run.blobs == blobs;
    }
  }

  /** A name no performed put used keeps the content it had. */
  lemma {:induction false} PutAllKeepsOthers(blobs: BlobStore, uploads: seq<Upload>, failing: set<nat>, key: string)
    requires key in blobs
    requires var run := PutAll(blobs, uploads, failing);
      forall k :: 0 <= k < Done(run, uploads) ==> uploads[k].key != key
    ensures var run := PutAll(blobs, uploads, failing);
      key in run.blobs && run.blobs[key] == blobs[key]
    decreases |uploads|
  {
    var run := PutAll(blobs, uploads, failing);
    if |uploads| > 0 && uploads[0].index !in failing {
      var u, tail := uploads[0], uploads[1..];
      var next := blobs[u.key := u.file.content];
      var rest := PutAll(next, tail, failing);
      assert run.blobs == rest.blobs;
      assert Done(run, uploads) == Done(rest, tail) + 1;
      assert u.key != key;
      forall k | 0 <= k < Done(rest, tail) ensures tail[k].key != key {
        assert tail[k] == uploads[k + 1];
      }
      PutAllKeepsOthers(next, tail, failing, key);
    } else {
      assert run.blobs == blobs;
    }
  }

  /** With pairwise distinct blob names, every put the loop performed left
      its file's content under its name. */
  lemma {:induction false} PutAllStoresContent(blobs: BlobStore, uploads: seq<Upload>, failing: set<nat>, k: nat)
    requires forall a, b :: 0 <= a < b < |uploads| ==> uploads[a].key != uploads[b].key
    requires k < Done(PutAll(blobs, uploads, failing), uploads)
    ensures var run := PutAll(blobs, uploads, failing);
      uploads[k].key in run.blobs && run.blobs[uploads[k].key] == uploads[k].file.content
    decreases |uploads|
  {
    var u, tail := uploads[0], uploads[1..];
    var next := blobs[u.key := u.file.content];
    var run := PutAll(blobs, uploads, failing);
    var rest := PutAll(next, tail, failing);
    assert u.index !in failing;
    assert run.blobs == rest.blobs;
    assert Done(run, uploads) == Done(rest, tail) + 1;
    if k == 0 {
      // No later put reuses the first name, so the first write survives.
      forall j | 0 <= j < Done(rest, tail) ensures tail[j].key != u.key {
        assert tail[j] == uploads[j + 1];
      }
      PutAllKeepsOthers(next, tail, failing, u.key);
    } else {
      forall a, b | 0 <= a < b < |tail| ensures tail[a].key != tail[b].key {
        assert tail[a] == uploads[a + 1] && tail[b] == uploads[b + 1];
      }
      PutAllStoresContent(next, tail, failing, k - 1);
      assert tail[k - 1] == uploads[k];
    }
  }

  /** The first question, in submission order, whose image upload raises. */
  function FirstFailure(form: CreateForm, failing: set<nat>, from: nat): (r: Option<nat>)
    requires from <= PairCount(form)
    ensures r.Some? ==>
      && from <= r.value < PairCount(form)
      && HasImage(form, r.value) && r.value in failing
      && forall j :: from <= j < r.value ==> !(HasImage(form, j) && j in failing)
    ensures r.None? ==>
      forall j :: from <= j < PairCount(form) ==> !(HasImage(form, j) && j in failing)
    decreases PairCount(form) - from
  {
    if from == PairCount(form) then None
    else if HasImage(form, from) && from in failing then Some(from)
    else FirstFailure(form, failing, from + 1)
  }

  /** The upload loop stops exactly at the first question whose image put raises. */
  lemma PutAllStopsAtFirstFailure(form: CreateForm, quizId: nat, blobs: BlobStore, failing: set<nat>)
    ensures var us := Uploads(form, quizId, 0);
      var run := PutAll(blobs, us, failing);
      var first := FirstFailure(form, failing, 0);
      && (run.failedAt.None? <==> first.None?)
      && (run.failedAt.Some? ==> us[run.failedAt.value].index == first.value)
  {
    var us := Uploads(form, quizId, 0);
    var first := FirstFailure(form, failing, 0);
    if first.Some? {
      UploadsComplete(form, quizId, 0, first.value);
    }
    StopsAtFirst(form, us, blobs, failing);
  }

  /** The same, for any puts in increasing question order, each for a
      question with an image, that include the first failing question. */
  lemma StopsAtFirst(form: CreateForm, us: seq<Upload>, blobs: BlobStore, failing: set<nat>)
    requires forall k :: 0 <= k < |us| ==> us[k].index < PairCount(form) && HasImage(form, us[k].index)
    requires forall k, l :: 0 <= k < l < |us| ==> us[k].index < us[l].index
    requires var first := FirstFailure(form, failing, 0);
      first.Some? ==> exists k :: 0 <= k < |us| && us[k].index == first.value
    ensures var run, first := PutAll(blobs, us, failing), FirstFailure(form, failing, 0);
      && (run.failedAt.None? <==> first.None?)
      && (run.failedAt.Some? ==> us[run.failedAt.value].index == first.value)
  {
    var run := PutAll(blobs, us, failing);
    var first := FirstFailure(form, failing, 0);
    if first.Some? {
      var f := first.value;
      var k :| 0 <= k < |us| && us[k].index == f;
      assert us[k].index in failing;
      var p := run.failedAt.value;
      assert p <= k;
      var i := us[p].index;
      assert HasImage(form, i) && i in failing;
      assert i <= f;
    }
  }

  /** The POST branch of `create_quiz`. The quiz row is committed as soon as
      the form passes the guard; question rows are committed only once every
      upload has succeeded; an upload that raises leaves the quiz row and the
      blobs already written in place. */
  function CreateQuiz(db: Db, blobs: BlobStore, form: CreateForm, failing: set<nat>): (o: CreateOutcome)
    ensures !Complete(form) ==> o == CreateOutcome(db, blobs, Incomplete)
    ensures Complete(form) ==>
      && o.db.quizzes == db.quizzes + [Quiz(db.nextQuizId, form.title.value)]
      && o.db.nextQuizId == db.nextQuizId + 1
    ensures o.db.scores == db.scores && o.db.nextScoreId == db.nextScoreId
    ensures o.response.UploadFailed? <==> Complete(form) && FirstFailure(form, failing, 0).Some?
    ensures o.response.RedirectToIndex? <==> Complete(form) && FirstFailure(form, failing, 0).None?
    ensures Complete(form) ==> o.blobs == PutAll(blobs, Uploads(form, db.nextQuizId, 0), failing).blobs
    ensures o.response.UploadFailed? ==>
      && o.response.filename == form.images[FirstFailure(form, failing, 0).value].filename
      && o.db.questions == db.questions
      && o.db.nextQuestionId == db.nextQuestionId
    ensures o.response.RedirectToIndex? ==>
      o.db.questions == db.questions + Insert(PlanQuiz(form, db.nextQuizId).value.drafts, db.nextQuestionId)
  {
    match PlanQuiz(form, db.nextQuizId)
    case Failure(e) => CreateOutcome(db, blobs, e)
    case Success(plan) =>
      var db1 := db.(quizzes := db.quizzes + [Quiz(db.nextQuizId, form.title.value)],
                     nextQuizId := db.nextQuizId + 1);
      var run := PutAll(blobs, plan.uploads, failing);
      PutAllStopsAtFirstFailure(form, db.nextQuizId, blobs, failing);
      match run.failedAt
      case Some(p) => CreateOutcome(db1, run.blobs, UploadFailed(plan.uploads[p].file.filename))
      case None =>
        var rows := Insert(plan.drafts, db.nextQuestionId);
        CreateOutcome(db1.(questions := db1.questions + rows,
                           nextQuestionId := db.nextQuestionId + |rows|),
                      run.blobs, RedirectToIndex)
  }

  /** A successful creation adds one question row per (question, answer)
      pair, in submission order, all pointing at the new quiz; surplus
      questions or answers are dropped. */
  lemma CreateQuizInsertsPairs(db: Db, blobs: BlobStore, form: CreateForm, failing: set<nat>)
    requires CreateQuiz(db, blobs, form, failing).response.RedirectToIndex?
    ensures var o := CreateQuiz(db, blobs, form, failing);
      && |o.db.questions| == |db.questions| + PairCount(form)
      && o.db.questions[..|db.questions|] == db.questions
      && o.db.nextQuestionId == db.nextQuestionId + PairCount(form)
      && forall i :: 0 <= i < PairCount(form) ==>
           o.db.questions[|db.questions| + i] ==
             Question(db.nextQuestionId + i, db.nextQuizId, form.questions[i], form.answers[i],
                      ImageKey(form, db.nextQuizId, i))
  {
    var o := CreateQuiz(db, blobs, form, failing);
    var rows := Insert(PlanQuiz(form, db.nextQuizId).value.drafts, db.nextQuestionId);
    assert o.db.questions == db.questions + rows;
    assert o.db.questions[..|db.questions|] == db.questions;
    forall i | 0 <= i < PairCount(form)
      ensures o.db.questions[|db.questions| + i] == rows[i]
    {
    }
  }

  /** `key` is the blob name of a question before `n` that has an image. */
  ghost predicate StoredBefore(form: CreateForm, quizId: nat, n: nat, key: string) {
    exists i :: 0 <= i < n && HasImage(form, i) && key == BlobKey.Key(quizId, i, form.images[i].filename)
  }

  /** The question index up to which the upload loop of a complete form got:
      the first failing question, or past the last pair. */
  function UploadedUpTo(form: CreateForm, failing: set<nat>): (n: nat)
    ensures n <= PairCount(form)
  {
    match FirstFailure(form, failing, 0)
    case Some(f) => f
    case None => PairCount(form)
  }

  /** After the route, whatever its outcome, the container holds the names it
      held before and the blob names of the image questions before the first
      failing upload (all of them on success), and nothing else: the blobs
      written before a failure stay. */
  lemma CreateQuizBlobNames(db: Db, blobs: BlobStore, form: CreateForm, failing: set<nat>)
    requires Complete(form)
    ensures forall key :: key in CreateQuiz(db, blobs, form, failing).blobs <==>
      key in blobs || StoredBefore(form, db.nextQuizId, UploadedUpTo(form, failing), key)
  {
    var id := db.nextQuizId;
    var us := Uploads(form, id, 0);
    var run := PutAll(blobs, us, failing);
    var last := UploadedUpTo(form, failing);
    var done := Done(run, us);
    PutAllKeys(blobs, us, failing);
    assert KeysAfter(blobs, us, run);
    LoopReachesUpTo(form, id, blobs, failing);
    UploadsNamed(form, id, 0);
    forall i | 0 <= i < last && HasImage(form, i)
      ensures exists k :: 0 <= k < |us| && us[k].index == i
    {
      UploadsComplete(form, id, 0, i);
    }
    forall key ensures PutUnder(us, done, key) <==> StoredBefore(form, id, last, key) {
      PerformedNames(form, id, us, done, last, key);
    }
  }

  /** The loop performs exactly the puts of the questions before `UploadedUpTo`. */
  lemma LoopReachesUpTo(form: CreateForm, id: nat, blobs: BlobStore, failing: set<nat>)
    ensures var us := Uploads(form, id, 0);
      var done := Done(PutAll(blobs, us, failing), us);
      && done <= |us|
      && forall k :: 0 <= k < |us| ==> (k < done <==> us[k].index < UploadedUpTo(form, failing))
  {
    var us := Uploads(form, id, 0);
    var run := PutAll(blobs, us, failing);
    PutAllStopsAtFirstFailure(form, id, blobs, failing);
    if run.failedAt.Some? {
      var p := run.failedAt.value;
      assert UploadedUpTo(form, failing) == us[p].index;
      forall k | 0 <= k < |us| ensures k < p <==> us[k].index < us[p].index {
        if k < p {
          assert us[k].index < us[p].index;
        } else if k > p {
          assert us[p].index < us[k].index;
        }
      }
    }
  }

  /** The names of the first `done` puts are the blob names of the image
      questions before `last`, given that those puts are exactly the ones for
      questions before `last`. */
  lemma PerformedNames(form: CreateForm, id: nat, us: seq<Upload>, done: nat, last: nat, key: string)
    requires forall k :: 0 <= k < |us| ==>
      && HasImage(form, us[k].index) && us[k].file == form.images[us[k].index] && NamedFor(us[k], id)
    requires done <= |us|
    requires forall k :: 0 <= k < |us| ==> (k < done <==> us[k].index < last)
    requires forall i :: 0 <= i < last && HasImage(form, i) ==> exists k :: 0 <= k < |us| && us[k].index == i
    ensures PutUnder(us, done, key) <==> StoredBefore(form, id, last, key)
  {
    if PutUnder(us, done, key) {
      var k :| 0 <= k < done && us[k].key == key;
      var i := us[k].index;
      assert 0 <= i < last && HasImage(form, i) && key == BlobKey.Key(id, i, form.images[i].filename);
    }
    if StoredBefore(form, id, last, key) {
      var i :| 0 <= i < last && HasImage(form, i) && key == BlobKey.Key(id, i, form.images[i].filename);
      var k :| 0 <= k < |us| && us[k].index == i;
      assert k < done && us[k].key == key;
    }
  }
}
