/** Answer values as the form filler records them, and Python's truthiness test on them, which
    both the screening count and the required-field check apply to each stored value. */
module Answers {

  /** One recorded answer. The widgets of the filler produce:
      - a string for short-text, paragraph, email, multiple-choice and dropdown questions;
      - a number for number and scale questions (only zero versus non-zero matters here);
      - a list of the ticked options for checkbox questions;
      - nothing (Python's None) when no value is stored. */
  datatype Answer =
    | Text(s: string)
    | Num(n: int)
    | Choices(items: seq<string>)
    | Absent

  /** Python truthiness: exactly the four values "", [], None and 0 are "unanswered". */
  predicate Truthy(a: Answer)
    ensures Truthy(a) <==> a !in {Text(""), Num(0), Choices([]), Absent}
  {
    match a
    case Text(s) => s != ""
    case Num(n) => n != 0
    case Choices(items) => items != []
    case Absent => false
  }

  /** Answers of one response, keyed by question index. */
  type AnswerMap = map<nat, Answer>

  /** The stored value of question `i`, or None when there is no entry for it. */
  function Get(answers: AnswerMap, i: nat): Answer
  {
    if i in answers then answers[i] else Absent
  }

  /** The keys whose stored value is truthy. */
  function AnsweredKeys(answers: AnswerMap): (keys: set<nat>)
    ensures keys <= answers.Keys
  {
    set k | k in answers && Truthy(answers[k])
  }

  /** The number of truthy values: at most the number of stored values, and zero exactly when
      no stored value is truthy. */
  function AnsweredCount(answers: AnswerMap): (count: nat)
    ensures count <= |answers|
    ensures count == 0 <==> forall k :: k in answers ==> !Truthy(answers[k])
  {
    SubsetCard(AnsweredKeys(answers), answers.Keys);
    NoneAnswered(answers);
    |AnsweredKeys(answers)|
  }

  lemma NoneAnswered(answers: AnswerMap)
    ensures AnsweredKeys(answers) == {} <==> forall k :: k in answers ==> !Truthy(answers[k])
  {
    if exists k :: k in answers && Truthy(answers[k]) {
      var k :| k in answers && Truthy(answers[k]);
      assert k in AnsweredKeys(answers);
    }
  }

  lemma {:induction false} SubsetCard<T>(a: set<T>, b: set<T>)
    requires a <= b
    ensures |a| <= |b|
  {
    if a != {} {
      var x :| x in a;
      SubsetCard(a - {x}, b - {x});
    }
  }

  /** A subset as large as its superset is the superset. */
  lemma SubsetEqualCard<T>(a: set<T>, b: set<T>)
    requires a <= b && |a| == |b|
    ensures a == b
  {
    if exists x :: x in b && x !in a {
      var x :| x in b && x !in a;
      SubsetCard(a, b - {x});
    }
  }

  /** Storing a value under key `k` counts once if the value is truthy and not at all otherwise,
      whatever was stored under `k` before. */
  lemma AnsweredCountUpdate(answers: AnswerMap, k: nat, v: Answer)
    ensures AnsweredCount(answers[k := v]) == AnsweredCount(answers - {k}) + (if Truthy(v) then 1 else 0)
  {
    AnsweredKeysUpdate(answers, k, v);
  }

  lemma AnsweredKeysUpdate(answers: AnswerMap, k: nat, v: Answer)
    ensures k !in AnsweredKeys(answers - {k})
    ensures AnsweredKeys(answers[k := v]) == AnsweredKeys(answers - {k}) + (if Truthy(v) then {k} else {})
  {
    var updated := answers[k := v];
    var removed := answers - {k};
    forall x | x in AnsweredKeys(updated)
      ensures x in AnsweredKeys(removed) || (x == k && Truthy(v))
    {
      if x != k {
        assert x in removed && removed[x] == updated[x];
      }
    }
    forall x | x in AnsweredKeys(removed)
      ensures x in AnsweredKeys(updated)
    {
      assert x in updated && removed[x] == updated[x];
    }
  }

  /** Only truthy values are counted: a falsy value ("", [], None, 0) adds nothing. */
  lemma FalsyNotCounted(answers: AnswerMap, k: nat, v: Answer)
    requires !Truthy(v)
    ensures AnsweredCount(answers[k := v]) == AnsweredCount(answers - {k})
  {
    AnsweredCountUpdate(answers, k, v);
  }

  /** Every stored value is counted exactly when every stored value is truthy. */
  lemma AnsweredCountFull(answers: AnswerMap)
    ensures AnsweredCount(answers) == |answers| <==> forall k :: k in answers ==> Truthy(answers[k])
  {
    var keys := AnsweredKeys(answers);
    if exists k :: k in answers && !Truthy(answers[k]) {
      var k :| k in answers && !Truthy(answers[k]);
      SubsetCard(keys, answers.Keys - {k});
    } else {
      assert keys == answers.Keys;
    }
  }

  /** When every key is below `n`, at most `n` values are counted. */
  lemma AnsweredCountBelow(answers: AnswerMap, n: nat)
    requires forall k :: k in answers ==> k < n
    ensures AnsweredCount(answers) <= n
  {
    SubsetCard(AnsweredKeys(answers), Below(n));
  }

  /** The indices 0 .. n-1. */
  function Below(n: nat): (r: set<nat>)
    ensures forall k: nat :: k in r <==> k < n
    ensures |r| == n
  {
    if n == 0 then {} else Below(n - 1) + {n - 1}
  }
}
