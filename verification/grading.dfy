/** The grading loop of the quiz route (app.py lines 120-124): one point per
    question whose submitted answer, looked up under the question's id,
    is non-empty and equals the correct answer after `strip().lower()`. */
module Grading {
  import opened Records
  import opened Text
  import Decimal

  /** The submitted form fields: field name to (first) value. */
  type Answers = map<string, string>

  /** The form field that carries the answer to `q`: `str(q.id)`. */
  function FieldName(q: Question): string {
    Decimal.NatToString(q.id)
  }

  /** The test on line 123: an answer is present, non-empty, and matches the
      correct answer once both are stripped and lower-cased. */
  predicate Earns(q: Question, answers: Answers) {
    var field := FieldName(q);
    && field in answers
    && answers[field] != ""
    && Normalize(answers[field]) == Normalize(q.correctAnswer)
  }

  /** The points `q` contributes. */
  function Point(q: Question, answers: Answers): nat {
    if Earns(q, answers) then 1 else 0
  }

  /** The score of a submission: the number of questions it earns, never
      more than there are questions. */
  function Grade(questions: seq<Question>, answers: Answers): (score: nat)
    ensures score <= |questions|
  {
    if |questions| == 0 then 0
    else
      var n := |questions| - 1;
      Grade(questions[..n], answers) + Point(questions[n], answers)
  }

  /** The score is zero exactly when no question is earned. */
  lemma {:induction false} GradeZero(questions: seq<Question>, answers: Answers)
    ensures Grade(questions, answers) == 0 <==>
      forall i :: 0 <= i < |questions| ==> !Earns(questions[i], answers)
  {
    if |questions| > 0 {
      var n := |questions| - 1;
      var init := questions[..n];
      GradeZero(init, answers);
      assert Grade(questions, answers) == Grade(init, answers) + Point(questions[n], answers);
      if Grade(questions, answers) == 0 {
        forall i | 0 <= i < |questions| ensures !Earns(questions[i], answers) {
          if i < n {
            assert init[i] == questions[i];
          }
        }
      } else if Grade(init, answers) > 0 {
        var j :| 0 <= j < n && Earns(init[j], answers);
        assert Earns(questions[j], answers);
      } else {
        assert Earns(questions[n], answers);
      }
    }
  }

  /** The score equals the number of questions exactly when every question is earned. */
  lemma {:induction false} GradeFull(questions: seq<Question>, answers: Answers)
    ensures Grade(questions, answers) == |questions| <==>
      forall i :: 0 <= i < |questions| ==> Earns(questions[i], answers)
  {
    if |questions| > 0 {
      var n := |questions| - 1;
      var init := questions[..n];
      GradeFull(init, answers);
      assert Grade(questions, answers) == Grade(init, answers) + Point(questions[n], answers);
      if Grade(questions, answers) == |questions| {
        forall i | 0 <= i < |questions| ensures Earns(questions[i], answers) {
          if i < n {
            assert init[i] == questions[i];
          }
        }
      } else if Grade(init, answers) < n {
        var j :| 0 <= j < n && !Earns(init[j], answers);
        assert !Earns(questions[j], answers);
      } else {
        assert !Earns(questions[n], answers);
      }
    }
  }

  /** The loop as written: a running total over the questions in query order. */
  method GradeSubmission(questions: seq<Question>, answers: Answers) returns (score: nat)
    ensures score == Grade(questions, answers)
    ensures score <= |questions|
  {
    score := 0;
    for i := 0 to |questions|
      invariant score == Grade(questions[..i], answers)
    {
      assert questions[..i + 1][..i] == questions[..i];
      if FieldName(questions[i]) in answers {
        var userAnswer := answers[FieldName(questions[i])];
        if userAnswer != "" && Normalize(userAnswer) == Normalize(questions[i].correctAnswer) {
          score := score + 1;
        }
      }
    }
    assert questions[..|questions|] == questions;
  }

  /** Grading a concatenation adds the two grades. */
  lemma {:induction false} GradeAppend(a: seq<Question>, b: seq<Question>, answers: Answers)
    ensures Grade(a + b, answers) == Grade(a, answers) + Grade(b, answers)
  {
    if |b| == 0 {
      assert a + b == a;
    } else {
      var n := |b| - 1;
      assert (a + b)[..|a + b| - 1] == a + b[..n];
      GradeAppend(a, b[..n], answers);
    }
  }

  /** Removing one question removes exactly its point. */
  lemma GradeRemove(questions: seq<Question>, k: nat, answers: Answers)
    requires k < |questions|
    ensures Grade(questions, answers)
         == Grade(questions[..k] + questions[k + 1..], answers) + Point(questions[k], answers)
  {
    assert questions == questions[..k] + [questions[k]] + questions[k + 1..];
    GradeAppend(questions[..k] + [questions[k]], questions[k + 1..], answers);
    GradeAppend(questions[..k], [questions[k]], answers);
    GradeAppend(questions[..k], questions[k + 1..], answers);
    assert Grade([questions[k]], answers) == Point(questions[k], answers) by {
      assert [questions[k]][..0] == [];
    }
  }

  /** The score does not depend on the order in which the questions are
      fetched: any permutation of them gives the same count. */
  lemma {:induction false} GradePermutation(qs: seq<Question>, ps: seq<Question>, answers: Answers)
    requires multiset(qs) == multiset(ps)
    ensures Grade(qs, answers) == Grade(ps, answers)
    decreases |qs|
  {
    if |qs| > 0 {
      var n := |qs| - 1;
      var x := qs[n];
      RemoveOne(qs, n);
      assert qs[..n] + qs[n + 1..] == qs[..n];
      assert x in multiset(ps);
      var k :| 0 <= k < |ps| && ps[k] == x;
      RemoveOne(ps, k);
      GradePermutation(qs[..n], ps[..k] + ps[k + 1..], answers);
      GradeRemove(ps, k, answers);
      assert Grade(qs, answers) == Grade(qs[..n], answers) + Point(x, answers);
    } else {
      assert |ps| == 0;
    }
  }

  /** Removing the element at `k` removes one occurrence of it from the multiset. */
  lemma RemoveOne<T>(s: seq<T>, k: nat)
    requires k < |s|
    ensures multiset(s[..k] + s[k + 1..]) == multiset(s) - multiset{s[k]}
  {
    assert s == s[..k] + [s[k]] + s[k + 1..];
    assert multiset(s) == multiset(s[..k]) + multiset{s[k]} + multiset(s[k + 1..]);
  }

  /** Two submitted values get the same verdict against every correct
      answer: both empty or both non-empty, with the same comparison key. */
  predicate SameVerdict(x: string, y: string) {
    (x == "" <==> y == "") && Normalize(x) == Normalize(y)
  }

  /** Two submissions that agree field by field up to `SameVerdict`. */
  predicate AnswersAgree(a: Answers, b: Answers) {
    && a.Keys == b.Keys
    && forall f :: f in a ==> SameVerdict(a[f], b[f])
  }

  /** Submissions that agree field by field earn the same score. */
  lemma {:induction false} GradeRespectsAgreement(questions: seq<Question>, a: Answers, b: Answers)
    requires AnswersAgree(a, b)
    ensures Grade(questions, a) == Grade(questions, b)
  {
    if |questions| > 0 {
      var n := |questions| - 1;
      GradeRespectsAgreement(questions[..n], a, b);
      assert Earns(questions[n], a) == Earns(questions[n], b);
    }
  }

  /** Padding a non-empty answer with whitespace keeps its verdict. */
  lemma PaddingKeepsVerdict(pre: string, s: string, suf: string)
    requires s != ""
    requires AllSpace(pre) && AllSpace(suf)
    ensures SameVerdict(s, pre + s + suf)
  {
    NormalizeIgnoresPadding(pre, s, suf);
  }

  /** Changing the letter case of an answer keeps its verdict. */
  lemma RecasingKeepsVerdict(s: string, t: string)
    requires Lower(s) == Lower(t)
    ensures SameVerdict(s, t)
  {
    NormalizeIgnoresCase(s, t);
    assert |s| == |t|;
  }

  /** The score is unchanged when one submitted non-empty answer is padded
      with whitespace. */
  lemma GradeIgnoresPadding(questions: seq<Question>, a: Answers, field: string, pre: string, suf: string)
    requires field in a && a[field] != ""
    requires AllSpace(pre) && AllSpace(suf)
    ensures Grade(questions, a) == Grade(questions, a[field := pre + a[field] + suf])
  {
    var b := a[field := pre + a[field] + suf];
    PaddingKeepsVerdict(pre, a[field], suf);
    assert AnswersAgree(a, b);
    GradeRespectsAgreement(questions, a, b);
  }

  /** The score is unchanged when the letter case of one submitted answer changes. */
  lemma GradeIgnoresCase(questions: seq<Question>, a: Answers, field: string, t: string)
    requires field in a && Lower(a[field]) == Lower(t)
    ensures Grade(questions, a) == Grade(questions, a[field := t])
  {
    var b := a[field := t];
    RecasingKeepsVerdict(a[field], t);
    forall f | f in a ensures SameVerdict(a[f], b[f]) {
      if f != field {
        assert b[f] == a[f];
      }
    }
    assert AnswersAgree(a, b);
    GradeRespectsAgreement(questions, a, b);
  }

  /** An absent or empty answer never earns a point, even when the correct
      answer is itself empty once stripped. */
  lemma MissingOrEmptyNeverEarns(q: Question, answers: Answers)
    requires FieldName(q) !in answers || answers[FieldName(q)] == ""
    ensures Point(q, answers) == 0
  {
  }

  /** A whitespace-only answer is not empty, so it earns the point of a
      question whose correct answer strips to the empty string, while the
      empty answer does not. Padding an empty answer can therefore change
      the score. */
  lemma BlankAnswerEdgeCase()
    ensures var q := Question(1, 1, "?", "", Wrappers.None);
      && Grade([q], map["1" := " "]) == 1
      && Grade([q], map["1" := ""]) == 0
  {
    var q := Question(1, 1, "?", "", Wrappers.None);
    assert FieldName(q) == "1";
    assert [q][..0] == [];
    var blank := " ";
    assert Strip(blank) == [] by {
      assert blank == blank + [] + [];
      StripUnique(blank, [], []);
    }
  }
}
