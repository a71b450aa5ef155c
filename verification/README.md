# Quiz application — a Dafny model of its core

The application is a small web quiz service. A quiz author submits a title,
a list of questions, a parallel list of correct answers and, optionally, one
image per question. The service stores the quiz and its questions and puts
each image in a blob container under `quiz_{quizId}_q{index}_{filename}`. A
respondent submits a pseudo and one answer per question, keyed by the
question's id. The service counts the answers that match the correct answer
once both are stripped of surrounding whitespace and lower-cased. It appends
one score row and redirects to the result page. The scores of a quiz can be
listed in the order they were recorded.

The model covers the `create_quiz` route, the POST branch of the `quiz`
route, the `scores` route and the three table records, all in `app.py`. The
database is three append-only sequences plus explicit autoincrement
counters. The blob container is a map from blob name to content. Every route
is a pure function from the database, the container and the submitted form
to the new database, the new container and the HTTP answer.

Modules, one per file:

- `Wrappers` (`wrappers.dfy`): `Option` and `Result`.
- `Text` (`text.dfy`): Python's `str.strip()` and `str.lower()`, and the comparison key `Normalize`.
- `Decimal` (`decimal.dfy`): `str(n)` for non-negative integers, and reading it back.
- `BlobKey` (`blob_key.dfy`): the blob name of an image, and its parse.
- `Records` (`records.dfy`):
  - the `Quiz`, `Question` and `Score` rows;
  - the database;
  - the `filter_by(quiz_id=…)` queries;
  - the database invariant `WellFormed`.
- `Creation` (`creation.dfy`): form validation, question/answer pairing, the upload loop, and the two commits of `create_quiz`.
- `Grading` (`grading.dfy`): the matching rule and the score count.
- `Scoring` (`scoring.dfy`): recording an attempt and listing scores.
- `Invariants` (`invariants.dfy`): properties that span several routes.
- `Scenarios` (`scenarios.dfy`): concrete instances proved about the model: a three-question grading instance (correct answers A, B, C against submissions a, B, wrong) and a create-then-answer session.

Quiz creation is not all-or-nothing:

- the code commits the quiz row before any upload (app.py line 81);
- it commits the question rows only after every upload succeeded (line 103);
- an upload that raises returns a 500 and leaves the quiz row committed with no questions, along with the blobs already written.

Creation is not atomic, and the model follows the code. `Invariants.UploadFailureLeavesEmptyQuiz` and `Creation.CreateQuizBlobNames` state this.

## Model

| member | source | states |
|---|---|---|
| Records.FindQuiz | app.py:112 | The lookup finds a row of the table carrying the requested id, and finds nothing exactly when no row carries it (the 404 case). |
| Records.RowsOfSpec | app.py:113 | The `filter_by(quiz_id=…)` queries (questions here, scores on line 145) return a row exactly when it is in the table and belongs to that quiz. |
| Records.RowsOfNone | app.py:113 | A quiz none of whose rows are in the table gets the empty list. |
| Records.RowsOfAll | app.py:113 | When every row belongs to the quiz, the query returns the whole table in its order. |
| Records.RowsOfAppend | app.py:145 | Adding rows keeps the earlier result as a prefix and places the new matching rows after it, in insertion order, so a listing is in the order the rows were recorded. |
| Records.Insert | app.py:96-103 | Each inserted row keeps its draft's quiz id, text, correct answer and image name, and gets consecutive ids from the next free one. |
| Text.StripLeftSpec | app.py:123 | Stripping the front keeps a suffix, drops only whitespace, and leaves no leading whitespace. |
| Text.StripRightSpec | app.py:123 | Stripping the back keeps a prefix, drops only whitespace, and leaves no trailing whitespace. |
| Text.StripSpec | app.py:123 | `strip()` returns the trimmed slice of the input whose surroundings are whitespace only. |
| Text.StripUnique | app.py:123 | A trimmed text surrounded by whitespace strips back to exactly that text. |
| Text.StripIgnoresPadding | app.py:123 | Padding with whitespace on either side does not change the stripped text. |
| Text.StripIdempotent | app.py:123 | Stripping twice is the same as stripping once. |
| Text.LowerSpec | app.py:123 | `lower()` lower-cases each character in place. |
| Text.LowerCommutesWithStrip | app.py:123 | Lower-casing and stripping can be done in either order. |
| Text.LowerIdempotent | app.py:123 | Lower-casing twice is lower-casing once. |
| Text.NormalizeIdempotent | app.py:123 | A comparison key is its own comparison key. |
| Text.NormalizeIgnoresPadding | app.py:123 | Whitespace padding does not change the comparison key. |
| Text.NormalizeIgnoresCase | app.py:123 | Texts that agree up to letter case have the same comparison key. |
| Text.NormalizeTrimmed | app.py:123 | For text with no surrounding whitespace the key is just the lower-cased text. |
| Decimal.NatToStringDigits | app.py:122 | `str(n)` is all digits, with no leading zero unless it is the single digit. |
| Decimal.ParseNatToString | app.py:122 | Reading the digits of `str(n)` gives back `n`. |
| Decimal.NatToStringInjective | app.py:122 | Different question ids have different form field names. |
| BlobKey.ParseKey | app.py:89 | Every blob name reads back to the quiz id, question index and file name it was built from. |
| BlobKey.KeyInjective | app.py:89 | Two images share a blob name only when quiz id, index and file name all agree. |
| Creation.PairCount | app.py:83 | `zip` yields as many pairs as the shorter of the question and answer lists. |
| Creation.Drafts | app.py:83-102 | Question row `i` carries the `i`-th question, the `i`-th answer, the new quiz's id and the blob name of image `i` when there is one. |
| Creation.Uploads | app.py:83-92 | Uploads happen only for paired questions whose file part exists and has a name, carry that file, and come in increasing question order. |
| Creation.UploadsNamed | app.py:89-91 | Every upload stores its file under `quiz_{id}_q{i}_{filename}` of its own question. |
| Creation.UploadsComplete | app.py:84-92 | Every paired question with a named file part gets an upload. |
| Creation.ImageUpload | app.py:89-91 | The upload for question `i` carries index `i`, file `i` and that file's blob name. |
| Creation.PlanQuiz | app.py:76-102 | A missing or empty title or an empty question or answer list is refused; otherwise there is one row per pair, in order, with the image name only where a named file exists. |
| Creation.PlanImageNames | app.py:84-100 | A question's stored image name is its blob name when it has a named file and absent otherwise. |
| Creation.UploadKeysDistinct | app.py:89-91 | The uploads of one quiz use pairwise distinct blob names, so none overwrites another. |
| Creation.PutAll | app.py:88-94 | The loop fails exactly when some upload's question is in the failing set, and then fails at the first such upload. |
| Creation.PutAllKeys | app.py:91 | Afterwards the container holds the names it held before plus the names of the uploads performed, and nothing else. |
| Creation.PutAllKeepsOthers | app.py:91 | A name no performed upload used keeps its previous content. |
| Creation.PutAllStoresContent | app.py:91 | With distinct names, each performed upload leaves its file's content under its name (overwrite semantics). |
| Creation.FirstFailure | app.py:83-94 | This finds the first paired question, in order, whose image upload raises; when there is none, no named-image question fails. |
| Creation.PutAllStopsAtFirstFailure | app.py:83-94 | The upload loop fails exactly when some question with an image fails, and it stops at the first such question. |
| Creation.StopsAtFirst | app.py:83-94 | The same holds for any increasing list of image uploads that includes the first failing question. |
| Creation.CreateQuiz | app.py:70-105 | An incomplete form gets a 400 and changes nothing. Otherwise the quiz row is committed under the next id, and the container is what the upload loop leaves. The answer is a 500 naming the first failing file, with no question row written, exactly when some upload fails. It is the redirect, with the planned rows appended, exactly when none does. Scores are never touched. |
| Creation.CreateQuizInsertsPairs | app.py:83-103 | After a successful creation there is exactly one new row per pair, in submission order, for the new quiz. Surplus questions or answers are dropped. |
| Creation.CreateQuizBlobNames | app.py:79-94 | After a complete form, whatever the outcome, the container holds the names it held before plus the blob names of the image questions before the first failing upload (all of them on success), and nothing else; blobs written before a failure stay. |
| Creation.LoopReachesUpTo | app.py:83-94 | The loop performs exactly the puts of the image questions before the first failing one. |
| Creation.PerformedNames | app.py:89-91 | The names of the performed puts are exactly the blob names of those questions. |
| Grading.Grade | app.py:120-124 | The score is at most the number of questions. |
| Grading.GradeZero | app.py:120-124 | The score is zero exactly when no question's answer matches. |
| Grading.GradeFull | app.py:120-124 | The score equals the question count exactly when every answer matches. |
| Grading.GradeSubmission | app.py:120-124 | The running-total loop computes the count of matching questions, bounded by the question count. |
| Grading.GradeAppend | app.py:120-124 | Grading two lists of questions one after the other adds their scores. |
| Grading.GradeRemove | app.py:120-124 | Removing one question removes exactly its point. |
| Grading.GradePermutation | app.py:113-124 | Any reordering of the fetched questions gives the same score. |
| Grading.GradeRespectsAgreement | app.py:121-124 | Submissions whose fields agree in emptiness and comparison key get the same score. |
| Grading.PaddingKeepsVerdict | app.py:123 | Padding a non-empty answer with whitespace keeps both its emptiness and its comparison key. |
| Grading.RecasingKeepsVerdict | app.py:123 | Changing only the letter case of an answer keeps both its emptiness and its comparison key. |
| Grading.GradeIgnoresPadding | app.py:121-124 | Padding a non-empty submitted answer with whitespace does not change the score. |
| Grading.GradeIgnoresCase | app.py:121-124 | Changing the letter case of a submitted answer does not change the score. |
| Grading.MissingOrEmptyNeverEarns | app.py:122-123 | An absent or empty answer never earns a point. |
| Grading.BlankAnswerEdgeCase | app.py:123 | A whitespace-only answer earns the point of a question whose correct answer is empty, but the empty answer does not. |
| Scoring.Submit | app.py:111-130 | An unknown quiz gets a 404 and a missing or empty pseudo gets a 400; both leave the database unchanged. Otherwise exactly one score row with the next id is appended. The redirect carries the quiz id, the pseudo and that same score, which is at most the quiz's question count. |
| Scoring.ListScores | app.py:143-146 | An unknown quiz gets a 404. Otherwise the listing holds exactly the score rows of that quiz. |
| Scoring.SubmitScoreIsGrade | app.py:113-126 | The recorded score is the grade of the quiz's questions whatever order the query returns them in. |
| Scoring.EmptyQuizScoresZero | app.py:120-126 | A quiz without questions records zero. |
| Scoring.RecordThenList | app.py:126-145 | Recording a row appends it to its quiz's listing and leaves other quizzes' listings unchanged. |
| Scoring.SubmitThenList | app.py:126-145 | After an attempt, the quiz's listing is the old listing followed by the new row, and other quizzes' listings are unchanged. |
| Invariants.AddQuizPreserves | app.py:79-81 | Committing the quiz row keeps ids fresh and increasing, foreign keys valid and scores bounded. |
| Invariants.AddQuestionsKeepsIds | app.py:96-103 | Appending question rows keeps question ids below the counter and strictly increasing. |
| Invariants.AddQuestionsKeepsForeignKeys | app.py:96-103 | Appending question rows that point at existing quizzes keeps every foreign key valid. |
| Invariants.AddQuestionsKeepsBounds | app.py:96-103 | Appending question rows keeps every recorded score within its quiz's question count. |
| Invariants.CreateQuizPreservesWellFormed | app.py:70-105 | Every outcome of quiz creation keeps the database invariant. |
| Invariants.RejectedQuizPreserves | app.py:76-94 | The 400 and 500 outcomes keep the database invariant. |
| Invariants.CreatedQuizPreserves | app.py:79-103 | A successful creation keeps the database invariant. |
| Invariants.AddQuizAndQuestionsPreserves | app.py:79-103 | A quiz row followed by question rows that all point at it keeps the database invariant. |
| Invariants.CreatedDb | app.py:79-103 | A successful creation adds the quiz row, then question rows that all carry the new quiz's id. |
| Invariants.SubmitPreservesWellFormed | app.py:115-128 | Every outcome of a submission keeps the database invariant. |
| Invariants.RecordPreserves | app.py:126-128 | A score row with a fresh id, for an existing quiz and within its question count, keeps the invariant. |
| Invariants.NewQuizFound | app.py:79-81 | The committed quiz row is what a lookup of the new id finds. |
| Invariants.NoQuestionsForNewQuiz | app.py:79-81 | No existing question belongs to the id about to be handed out. |
| Invariants.CreateThenFetch | app.py:79-113 | After a successful creation the quiz is found with the submitted title, and its questions are exactly the new rows in submission order. |
| Invariants.CreatedImagesResolve | app.py:87-100 | Every image name stored on a new question exists in the container and holds that question's file. |
| Invariants.UploadFailureLeavesEmptyQuiz | app.py:79-94 | After an upload failure the new quiz row is present and has no questions. |
| Scenarios.FlagBlobName | app.py:89 | Image `flag.png` of question 0 of quiz 7 is stored as `quiz_7_q0_flag.png`. |
| Scenarios.PaddedCapitalMatches | app.py:123 | The answer " Paris " earns the point of a question whose answer is "paris". |
| Scenarios.CountsMatchingAnswers | app.py:120-124 | Correct answers A, B, C against submissions a, B, wrong score 2. |
| Scenarios.GeoCreated | app.py:70-105 | Creating a one-question quiz on an empty database commits quiz 1 and question 1 and redirects. |
| Scenarios.GeoRightAnswer | app.py:115-130 | A right answer to that quiz scores 1. |
| Scenarios.GeoWrongAnswer | app.py:115-130 | A wrong answer to that quiz scores 0. |
| Scenarios.GeoAnaRecorded | app.py:126-128 | The first attempt appends one score row. |
| Scenarios.GeoBoRecorded | app.py:126-128 | The second attempt appends a row after the first. |
| Scenarios.GeoScoresInOrder | app.py:145 | Both attempts are listed, in the order they were made. |

## Left out

- The Flask layer is not modelled:
  - routing, templates and the GET branches;
  - the index route (app.py lines 62-65);
  - the result route (lines 135-139), together with its default pseudo `Inconnu`.
  Responses are constructors, not French message texts.
- Configuration and start-up are not modelled: environment checks, `load_dotenv`, the upload folder, and client construction (lines 8-37). They are I/O.
- SQLAlchemy sessions are modelled as atomic updates of the table sequences. Concurrency and database-side failures are out of scope.
- Autoincrement ids are modelled as consecutive counters. A real database may skip values.
- Query order is taken to be table order. `filter_by(...).all()` promises none. `Grading.GradePermutation` and `Scoring.SubmitScoreIsGrade` show that the score does not depend on the order. The listing's order is the table order.
- The column widths (`String(100)`, `String(500)`, `String(200)`) are not enforced.
- The Azure blob service is a map from name to content. Which put raises is a parameter: the set of failing question indices. The exception text `{e}` in the 500 message is not modelled; the answer carries only the file name.
- A file part counts as an image when its file name is non-empty. A file part's truthiness is its file name, so this is the whole test on line 87.
- `Text.Lower`: lower-cases ASCII letters only. Python's full Unicode `lower()`, including characters whose lower case is longer, is not modelled.
- `Text.IsSpace`: lists the code points Python's `str.isspace` accepts. It is not derived from the Unicode database.
- Form fields are maps. `request.form.get` returns the first value of a repeated field, and the map holds that value.
- `Records.RowsOf`: its own contract states only the size bound. Membership is `Records.RowsOfSpec`, and order is `Records.RowsOfAppend`. `Records.QuestionsOf` and `Records.ScoresOf` are its instances for the two tables.
- `Decimal.NatToString`: its own contract states only the length. The digit facts are `Decimal.NatToStringDigits` and `Decimal.ParseNatToString`.
