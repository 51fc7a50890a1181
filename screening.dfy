/** The screening scorer: a Passed / Pending / Failed classification of one response,
    derived only from how many of its answers are truthy. */
module Screening {
  import opened Answers

  datatype Status = Passed | Pending | Failed

  /** The ordering Failed < Pending < Passed. */
  function Rank(s: Status): nat
  {
    match s
    case Failed => 0
    case Pending => 1
    case Passed => 2
  }

  /** The share of questions answered, as an exact ratio; 0 when the form has no questions. */
  function Percentage(answered: nat, total: nat): real
  {
    if total > 0 then answered as real / total as real else 0.0
  }

  /** The status for a given count: a full ratio passes, more than half is pending, anything
      else fails. Stated in integers: no questions fails, a count equal to the question count
      passes, more than half (including more truthy answers than questions) is pending, and
      anything else, exactly half among it, fails. */
  function StatusFor(answered: nat, total: nat): (s: Status)
    ensures s == Passed <==> total > 0 && answered == total
    ensures s == Pending <==> total > 0 && answered != total && 2 * answered > total
    ensures s == Failed <==> total == 0 || 2 * answered <= total
  {
    PercentageFacts(answered, total);
    var percentage := Percentage(answered, total);
    if percentage == 1.0 then Passed
    else if percentage > 0.5 then Pending
    else Failed
  }

  /** The screening status of one response. A form without questions fails every response,
      and so does a response with no truthy value (an answered count of zero). */
  function ScreeningStatus(answers: AnswerMap, total: nat): (s: Status)
    ensures total == 0 ==> s == Failed
    ensures AnsweredCount(answers) == 0 ==> s == Failed
  {
    StatusFor(AnsweredCount(answers), total)
  }

  /** The two ratio comparisons the scorer makes, as comparisons of integers. */
  lemma PercentageFacts(answered: nat, total: nat)
    ensures total > 0 ==> (Percentage(answered, total) == 1.0 <==> answered == total)
    ensures total > 0 ==> (Percentage(answered, total) > 0.5 <==> 2 * answered > total)
  {
    if total > 0 {
      var a, t := answered as real, total as real;
      var p := a / t;
      assert p * t == a;
      RatioOne(p, a, t);
      RatioHalf(p, a, t);
    }
  }

  /** With the ratio written p, so that p * t == a: p is 1 exactly when a equals t. */
  lemma RatioOne(p: real, a: real, t: real)
    requires t > 0.0 && p * t == a
    ensures p == 1.0 <==> a == t
  {
    ScaleOrder(p, 1.0, t);
    ScaleOrder(1.0, p, t);
  }

  /** With the ratio written p, so that p * t == a: p exceeds one half exactly when 2a exceeds t. */
  lemma RatioHalf(p: real, a: real, t: real)
    requires t > 0.0 && p * t == a
    ensures p > 0.5 <==> 2.0 * a > t
  {
    ScaleOrder(p, 0.5, t);
  }

  /** Scaling by a positive factor keeps the order. */
  lemma ScaleOrder(x: real, y: real, t: real)
    requires t > 0.0
    ensures x <= y <==> x * t <= y * t
  {
    if x <= y {
      assert (y - x) * t >= 0.0;
    } else {
      assert (x - y) * t > 0.0;
    }
  }

  /** For a fixed question count, answering more never lowers the status. */
  lemma StatusMonotone(a: nat, b: nat, total: nat)
    requires a <= b <= total
    ensures Rank(StatusFor(a, total)) <= Rank(StatusFor(b, total))
  {
  }

  /** A response whose stored values are all truthy and which has one value per question passes. */
  lemma AllAnsweredPasses(answers: AnswerMap, total: nat)
    requires total == |answers| > 0
    requires forall k :: k in answers ==> Truthy(answers[k])
    ensures ScreeningStatus(answers, total) == Passed
  {
    AnsweredCountFull(answers);
  }

  /** The score ignores falsy values: storing "", [], None or 0 under a key gives the same
      status as having no entry for that key at all. */
  lemma FalsyIgnored(answers: AnswerMap, k: nat, v: Answer, total: nat)
    requires !Truthy(v)
    ensures ScreeningStatus(answers[k := v], total) == ScreeningStatus(answers - {k}, total)
  {
    FalsyNotCounted(answers, k, v);
  }
}
