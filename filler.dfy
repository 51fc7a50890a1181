/** The form filler: gathering one value per rendered question, and the required-field check
    made on "Submit Response". */
module Filler {
  import opened Answers
  import opened Forms
  import opened Builder
  import Screening

  /** How drawing the form ends: with the answers of one submission, or with an error at the
      first question whose widget cannot be drawn, after which nothing can be submitted. */
  datatype Collection = Collected(answers: AnswerMap) | Crashed(at: nat)

  /** Gathers the answers of one submission. `widgetValues[i]` is the value the widget of
      question `i` returned; questions of a type the filler does not know get no widget and
      no entry. A question with options but no options list, or a checkbox question with an
      option twice, stops the form with an error. */
  method CollectAnswers(questions: seq<Question>, widgetValues: seq<Answer>) returns (result: Collection)
    requires |widgetValues| == |questions|
    ensures result.Crashed? <==> exists i :: 0 <= i < |questions| && !Renderable(questions[i])
    ensures result.Crashed? ==>
      && result.at < |questions|
      && !Renderable(questions[result.at])
      && forall k :: 0 <= k < result.at ==> Renderable(questions[k])
    ensures result.Collected? ==>
      forall i: nat :: i in result.answers <==> i < |questions| && questions[i].qtype in KnownTypes
    ensures result.Collected? ==> forall i :: i in result.answers ==> result.answers[i] == widgetValues[i]
    ensures result.Collected? ==> AnsweredCount(result.answers) <= |questions|
    ensures result.Collected? ==>
      (Screening.ScreeningStatus(result.answers, |questions|) == Screening.Passed <==>
       |questions| > 0 && forall i :: 0 <= i < |questions| ==> Truthy(Get(result.answers, i)))
  {
    var answers: AnswerMap := map[];
    for i := 0 to |questions|
      invariant forall k :: 0 <= k < i ==> Renderable(questions[k])
      invariant forall k: nat :: k in answers <==> k < i && questions[k].qtype in KnownTypes
      invariant forall k :: k in answers ==> answers[k] == widgetValues[k]
    {
      if !Renderable(questions[i]) {
        return Crashed(i);
      }
      if questions[i].qtype in KnownTypes {
        answers := answers[i := widgetValues[i]];
      }
    }
    AnsweredCountBelow(answers, |questions|);
    CollectedPassedIff(questions, answers);
    result := Collected(answers);
  }

  /** The filler on a form saved from a builder draft that kept its invariants and that the
      filler can draw: nothing stops it, and every question gets an entry holding its widget's
      value, since every stored type is one the filler knows. */
  method FillDraft(form: FormDraft, widgetValues: seq<Answer>) returns (answers: AnswerMap)
    requires form.Valid() && form.Fillable()
    requires |widgetValues| == |form.questions|
    ensures forall i: nat :: i in answers <==> i < |form.questions|
    ensures forall i :: i in answers ==> answers[i] == widgetValues[i]
  {
    var result := CollectAnswers(form.questions, widgetValues);
    answers := result.answers;
  }

  /** Answers keyed by question index pass the screening iff there is at least one question
      and every question has a truthy answer. */
  lemma CollectedPassedIff(questions: seq<Question>, answers: AnswerMap)
    requires forall i: nat :: i in answers ==> i < |questions|
    ensures Screening.ScreeningStatus(answers, |questions|) == Screening.Passed <==>
      |questions| > 0 && forall i :: 0 <= i < |questions| ==> Truthy(Get(answers, i))
  {
    var n := |questions|;
    var keys := AnsweredKeys(answers);
    assert keys <= Below(n);
    if n > 0 && forall i :: 0 <= i < n ==> Truthy(Get(answers, i)) {
      forall i: nat | i < n
        ensures i in keys
      {
        assert Truthy(Get(answers, i));
      }
      assert keys == Below(n);
    }
    if Screening.ScreeningStatus(answers, n) == Screening.Passed {
      SubsetEqualCard(keys, Below(n));
      forall i | 0 <= i < n
        ensures Truthy(Get(answers, i))
      {
        assert i in keys;
      }
    }
  }

  /** The indices among the first `n` questions that are required and have no truthy answer,
      in index order: the errors of the required-field check. There are at most `n`, each below
      `n` and each naming a required question. */
  function MissingRequired(questions: seq<Question>, answers: AnswerMap, n: nat): (errors: seq<nat>)
    requires n <= |questions|
    ensures |errors| <= n
    ensures forall i :: i in errors ==> i < n && questions[i].required
  {
    if n == 0 then []
    else
      var i := n - 1;
      MissingRequired(questions, answers, i)
        + (if questions[i].required && !Truthy(Get(answers, i)) then [i] else [])
  }

  /** Exactly the required questions without a truthy answer are reported, each once and in
      index order; optional questions never are. */
  lemma {:induction false} MissingRequiredExactly(questions: seq<Question>, answers: AnswerMap, n: nat)
    requires n <= |questions|
    ensures forall i: nat :: i in MissingRequired(questions, answers, n) <==>
      i < n && questions[i].required && !Truthy(Get(answers, i))
    ensures forall j, k :: 0 <= j < k < |MissingRequired(questions, answers, n)| ==>
      MissingRequired(questions, answers, n)[j] < MissingRequired(questions, answers, n)[k]
  {
    if n > 0 {
      var prev := MissingRequired(questions, answers, n - 1);
      MissingRequiredExactly(questions, answers, n - 1);
      forall j | 0 <= j < |prev|
        ensures prev[j] < n - 1
      {
        assert prev[j] in prev;
      }
    }
  }

  /** The check made on "Submit Response": every question is visited, an error is recorded for
      each required question without a truthy answer, and the response may be saved only if
      there was none. */
  method ValidateRequired(questions: seq<Question>, answers: AnswerMap) returns (valid: bool, errors: seq<nat>)
    ensures errors == MissingRequired(questions, answers, |questions|)
    ensures valid <==> errors == []
    ensures valid <==> forall i :: 0 <= i < |questions| && questions[i].required ==> Truthy(Get(answers, i))
  {
    valid := true;
    errors := [];
    for i := 0 to |questions|
      invariant errors == MissingRequired(questions, answers, i)
      invariant valid <==> errors == []
    {
      if questions[i].required && !Truthy(Get(answers, i)) {
        errors := errors + [i];
        valid := false;
      }
    }
    MissingRequiredExactly(questions, answers, |questions|);
    if !valid {
      assert errors[0] in errors;
    }
  }
}
