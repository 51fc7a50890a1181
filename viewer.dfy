/** The responses viewer and the forms list: the "Passed" tally, answer flattening for the
    on-screen listing and the CSV export, and the labels cut to a fixed width. */
module Viewer {
  import opened Answers
  import opened Forms
  import opened Text
  import opened Screening

  /** Width of a form title in the forms list. */
  const ListTitleWidth: nat := 20
  /** Width of a question text in the builder's list of current questions. */
  const QuestionTextWidth: nat := 50
  /** Width of a question text in an export column header. */
  const ExportTextWidth: nat := 30

  /** What a missing answer becomes in the export, and in the on-screen listing. */
  const ExportMissing: string := ""
  const ViewerMissing: string := "No answer"

  /** The label of a form in the forms list: at most 23 characters, starting with as much of
      the title as fits in 20; an ellipsis is appended iff the title is longer than that. */
  function FormListLabel(title: string): (shown: string)
    ensures |shown| <= ListTitleWidth + 3
    ensures |title| <= ListTitleWidth ==> shown == title
    ensures |title| > ListTitleWidth ==> |shown| == ListTitleWidth + 3 && shown[ListTitleWidth..] == "..."
    ensures var m := if |title| < ListTitleWidth then |title| else ListTitleWidth;
      shown[..m] == title[..m]
  {
    Truncate(title, ListTitleWidth)
  }

  /** Two titles longer than 20 characters get the same label in the forms list exactly when
      their first 20 characters agree, whatever follows. */
  lemma LongTitlesShareLabel(title1: string, title2: string)
    requires |title1| > ListTitleWidth && |title2| > ListTitleWidth
    ensures FormListLabel(title1) == FormListLabel(title2) <==> title1[..ListTitleWidth] == title2[..ListTitleWidth]
  {
    if FormListLabel(title1) == FormListLabel(title2) {
      assert FormListLabel(title1)[..ListTitleWidth] == FormListLabel(title2)[..ListTitleWidth];
    }
  }

  /** The label of a question in the builder's list of current questions: at most 53
      characters, starting with as much of the text as fits in 50; an ellipsis is appended iff
      the text is longer than that. */
  function QuestionListLabel(text: string): (shown: string)
    ensures |shown| <= QuestionTextWidth + 3
    ensures |text| <= QuestionTextWidth ==> shown == text
    ensures |text| > QuestionTextWidth ==> |shown| == QuestionTextWidth + 3 && shown[QuestionTextWidth..] == "..."
    ensures var m := if |text| < QuestionTextWidth then |text| else QuestionTextWidth;
      shown[..m] == text[..m]
  {
    Truncate(text, QuestionTextWidth)
  }

  /** One stored answer as a table cell: a list becomes one string starting with its first
      item, any other value is passed through, and a missing entry becomes `missing`. */
  function Flatten(answers: AnswerMap, i: nat, missing: string): (cell: Answer)
    ensures !cell.Choices?
    ensures i !in answers ==> cell == Text(missing)
    ensures i in answers && !answers[i].Choices? ==> cell == answers[i]
    ensures i in answers && answers[i].Choices? && answers[i].items != [] ==>
      cell.Text? && answers[i].items[0] <= cell.s
  {
    if i !in answers then Text(missing)
    else match answers[i]
      case Choices(items) => Text(Join(items))
      case other => other
  }

  /** The cell of question `i` in the export: never a list, and empty text when the response
      has no entry for the question. */
  function ExportCell(answers: AnswerMap, i: nat): (cell: Answer)
    ensures !cell.Choices?
    ensures i !in answers ==> cell == Text("")
  {
    Flatten(answers, i, ExportMissing)
  }

  /** The answer of question `i` in the on-screen listing: never a list, and "No answer" when
      the response has no entry for the question. */
  function ViewerCell(answers: AnswerMap, i: nat): (cell: Answer)
    ensures !cell.Choices?
    ensures i !in answers ==> cell == Text("No answer")
  {
    Flatten(answers, i, ViewerMissing)
  }

  /** Flattening loses nothing it should keep: a scalar comes out unchanged, and the selections
      of a non-empty checkbox answer whose options hold no comma are recovered by splitting. */
  lemma FlattenKeepsAnswer(answers: AnswerMap, i: nat, missing: string)
    requires i in answers
    ensures !answers[i].Choices? ==> Flatten(answers, i, missing) == answers[i]
    ensures answers[i].Choices? && answers[i].items != []
      && (forall k :: 0 <= k < |answers[i].items| ==> ',' !in answers[i].items[k])
      ==> Flatten(answers, i, missing).Text? && Split(Flatten(answers, i, missing).s) == answers[i].items
  {
    if answers[i].Choices? && answers[i].items != []
      && (forall k :: 0 <= k < |answers[i].items| ==> ',' !in answers[i].items[k]) {
      SplitJoin(answers[i].items);
    }
  }

  /** The export and the on-screen listing differ only for a question with no stored entry,
      which is "" in the export and "No answer" on screen. */
  lemma MissingDefaults(answers: AnswerMap, i: nat)
    ensures i !in answers ==> ExportCell(answers, i) == Text("") && ViewerCell(answers, i) == Text("No answer")
    ensures ExportCell(answers, i) == ViewerCell(answers, i) <==> i in answers
  {
  }

  /** The export column header of question `i`: "Q", its number, ": ", then the first 30
      characters of its text and always "...". The question's number can be read back from the
      digits after the "Q". */
  function ExportHeader(i: nat, text: string): (header: string)
    ensures |header| >= |NatToString(i + 1)| + 6
    ensures header[0] == 'Q'
    ensures header[|header| - 3..] == "..."
    ensures ParseNat(header[1..1 + |NatToString(i + 1)|]) == i + 1
  {
    var number := NatToString(i + 1);
    var header := "Q" + number + (": " + Abbreviate(text, ExportTextWidth));
    assert header[1..1 + |number|] == number;
    ParseNatToString(i + 1);
    header
  }

  /** Different questions get different column headers, so no answer of a row overwrites
      another, whatever the question texts. */
  lemma ExportHeadersDistinct(i: nat, j: nat, s: string, t: string)
    requires i != j
    ensures ExportHeader(i, s) != ExportHeader(j, t)
  {
    var a, b := NatToString(i + 1), NatToString(j + 1);
    var h1, h2 := ExportHeader(i, s), ExportHeader(j, t);
    assert h1 == "Q" + a + (": " + Abbreviate(s, ExportTextWidth));
    assert h2 == "Q" + b + (": " + Abbreviate(t, ExportTextWidth));
    if |a| < |b| {
      assert h1[1 + |a|] == ':' && h2[1 + |a|] == b[|a|];
    } else if |b| < |a| {
      assert h2[1 + |b|] == ':' && h1[1 + |b|] == a[|b|];
    }
  }

  /** The answer columns of one export row, for the first `n` questions: one column each, and
      no list in any of them. */
  function ExportCells(questions: seq<Question>, answers: AnswerMap, n: nat): (cells: seq<(string, Answer)>)
    requires n <= |questions|
    ensures |cells| == n
    ensures forall k :: 0 <= k < n ==> !cells[k].1.Choices?
  {
    if n == 0 then []
    else ExportCells(questions, answers, n - 1) + [(ExportHeader(n - 1, questions[n - 1].text), ExportCell(answers, n - 1))]
  }

  /** Column `i` holds question `i`'s header and its flattened answer. */
  lemma {:induction false} ExportCellsAt(questions: seq<Question>, answers: AnswerMap, n: nat)
    requires n <= |questions|
    ensures forall i :: 0 <= i < n ==>
      ExportCells(questions, answers, n)[i] == (ExportHeader(i, questions[i].text), ExportCell(answers, i))
  {
    if n > 0 {
      var prev := ExportCells(questions, answers, n - 1);
      var last := (ExportHeader(n - 1, questions[n - 1].text), ExportCell(answers, n - 1));
      assert ExportCells(questions, answers, n) == prev + [last];
      ExportCellsAt(questions, answers, n - 1);
    }
  }

  /** No two columns of a row share a header. */
  lemma ExportCellsDistinct(questions: seq<Question>, answers: AnswerMap, n: nat)
    requires n <= |questions|
    ensures forall j, k :: 0 <= j < k < n ==>
      ExportCells(questions, answers, n)[j].0 != ExportCells(questions, answers, n)[k].0
  {
    var cells := ExportCells(questions, answers, n);
    ExportCellsAt(questions, answers, n);
    forall j, k | 0 <= j < k < n
      ensures cells[j].0 != cells[k].0
    {
      assert cells[j].0 == ExportHeader(j, questions[j].text);
      assert cells[k].0 == ExportHeader(k, questions[k].text);
      ExportHeadersDistinct(j, k, questions[j].text, questions[k].text);
    }
  }

  /** The inner loop of the export: one column per question, in question order. */
  method ExportAnswerCells(questions: seq<Question>, answers: AnswerMap) returns (cells: seq<(string, Answer)>)
    ensures cells == ExportCells(questions, answers, |questions|)
    ensures |cells| == |questions|
    ensures forall i :: 0 <= i < |questions| ==>
      cells[i] == (ExportHeader(i, questions[i].text), ExportCell(answers, i))
    ensures forall j, k :: 0 <= j < k < |cells| ==> cells[j].0 != cells[k].0
  {
    cells := [];
    for i := 0 to |questions|
      invariant cells == ExportCells(questions, answers, i)
    {
      var answer := Flatten(answers, i, ExportMissing);
      cells := cells + [(ExportHeader(i, questions[i].text), answer)];
    }
    ExportCellsAt(questions, answers, |questions|);
    ExportCellsDistinct(questions, answers, |questions|);
  }

  /** One row of the export. */
  datatype Row = Row(responseId: string, submittedAt: string, status: Status, cells: seq<(string, Answer)>)

  /** The export row of a response: its identifier and time, its screening status, and one
      column per question with no two columns under the same header. */
  function ExportRow(questions: seq<Question>, r: Response): (row: Row)
    ensures row.responseId == r.id && row.submittedAt == r.submittedAt
    ensures row.status == ScreeningStatus(r.answers, |questions|)
    ensures |row.cells| == |questions|
    ensures forall j, k :: 0 <= j < k < |row.cells| ==> row.cells[j].0 != row.cells[k].0
  {
    ExportCellsDistinct(questions, r.answers, |questions|);
    Row(r.id, r.submittedAt, ScreeningStatus(r.answers, |questions|), ExportCells(questions, r.answers, |questions|))
  }

  /** The "Passed" tally: the number of responses whose screening status is Passed. */
  function PassedCount(responses: seq<Response>, total: nat): (n: nat)
    ensures n <= |responses|
    ensures n == |responses| <==> forall k :: 0 <= k < |responses| ==> ScreeningStatus(responses[k].answers, total) == Passed
    ensures n == 0 <==> forall k :: 0 <= k < |responses| ==> ScreeningStatus(responses[k].answers, total) != Passed
  {
    if responses == [] then 0
    else
      var last := responses[|responses| - 1];
      PassedCount(responses[..|responses| - 1], total) + (if ScreeningStatus(last.answers, total) == Passed then 1 else 0)
  }

  /** The number of export rows whose status column reads Passed. */
  function PassedRows(rows: seq<Row>): nat
  {
    if rows == [] then 0 else PassedRows(rows[..|rows| - 1]) + (if rows[|rows| - 1].status == Passed then 1 else 0)
  }

  /** Rows whose statuses are those of the responses, in order, count as many Passed as the tally. */
  lemma {:induction false} PassedRowsMatch(rows: seq<Row>, responses: seq<Response>, total: nat)
    requires |rows| == |responses|
    requires forall k :: 0 <= k < |rows| ==> rows[k].status == ScreeningStatus(responses[k].answers, total)
    ensures PassedRows(rows) == PassedCount(responses, total)
  {
    if rows != [] {
      PassedRowsMatch(rows[..|rows| - 1], responses[..|responses| - 1], total);
    }
  }

  /** The export loop: one row per response, in the order the responses were listed, with
      the same statuses the "Passed" tally counts. */
  method ExportRows(questions: seq<Question>, responses: seq<Response>) returns (table: seq<Row>)
    ensures |table| == |responses|
    ensures forall k :: 0 <= k < |responses| ==> table[k] == ExportRow(questions, responses[k])
    ensures PassedRows(table) == PassedCount(responses, |questions|)
  {
    table := [];
    for k := 0 to |responses|
      invariant |table| == k
      invariant forall m :: 0 <= m < k ==> table[m] == ExportRow(questions, responses[m])
    {
      var r := responses[k];
      var cells := ExportAnswerCells(questions, r.answers);
      table := table + [Row(r.id, r.submittedAt, ScreeningStatus(r.answers, |questions|), cells)];
    }
    PassedRowsMatch(table, responses, |questions|);
  }
}
