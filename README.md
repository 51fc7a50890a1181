# Form generator: completion and screening rules

This project models the decision logic of a small questionnaire app (`streamlit_app.py`):

- **Answers and truthiness.** The filler records one value per question: a string, a number, a
  list of ticked checkbox options, or nothing. The app treats `""`, `[]`, `None` and `0` as
  "unanswered", which is Python's truthiness test.
- **Screening scorer.** A response is classified Passed, Pending or Failed from the ratio of
  truthy answers to the number of questions. The viewer's "Passed" tally counts responses
  classified Passed.
- **Required-field validation on submit.** Every question is visited. Each required question
  without a truthy answer yields one error. The response is saved only if there were no errors.
- **The builder's question list.** Options are collected from the non-empty option inputs. A
  question is appended only if its text is non-empty. Its type is stored as a slug of the
  chosen label: lower-cased, with hyphens for spaces. It gets an options list only when some
  option was entered. Deleting removes one question in place.
- **Drawing the form in the filler.** A question of a type with options needs its options
  list. A checkbox question needs distinct options, because each checkbox's widget key is made
  of the question index and the option text. Otherwise the form stops with an error.
- **Display and export.** A checkbox answer is flattened by joining with `", "`. A missing
  answer becomes `""` in the CSV export and `"No answer"` on screen. Labels are cut to 20, 50
  or 30 characters with an ellipsis, and each export column header is `Q<n>: ` followed by the
  abbreviated question text.

Modules, one per component: `Answers` (answer values, truthiness, the answered count),
`Screening` (the scorer), `Text` (join/split, truncation, decimal numbers, slugs), `Forms`
(question and response records, the type labels, which questions the filler can draw),
`Builder` (option collection and the `FormDraft` class holding the question list), `Filler`
(answer collection and required-field validation), `Viewer` (tally, flattening, export).

The float ratio of the scorer is modelled as an exact ratio of reals. The contract of
`Screening.StatusFor` restates it in integers. No questions gives Failed. `answered == total`
gives Passed. `2 * answered > total` gives Pending. Anything else gives Failed.

Facts about the app that the model keeps:
- The filler renders every question. There is no skip logic and no rule that hides options.
- The required check covers every question.
- "Unanswered" also covers a numeric `0`, because of Python truthiness.
- A response with more truthy answers than questions is scored Pending, not Passed.
- The builder offers eight types. None of them is a likert scale.

## Model

| member | source | states |
|---|---|---|
| `Answers.Truthy` | streamlit_app.py:149 | exactly the four values `""`, `0`, `[]` and `None` are unanswered; every other value is answered |
| `Answers.AnsweredCount` | streamlit_app.py:149 | the count of truthy values is at most the number of stored values, and zero iff no stored value is truthy |
| `Answers.AnsweredCountUpdate` | streamlit_app.py:149 | storing a value under a key adds one to the answered count if the value is truthy and nothing otherwise, whatever was there before |
| `Answers.FalsyNotCounted` | streamlit_app.py:149 | `""`, `[]`, `None` and `0` are never counted as answered |
| `Answers.AnsweredCountFull` | streamlit_app.py:149 | every stored value is counted iff every stored value is truthy |
| `Screening.StatusFor` | streamlit_app.py:148-157 | Passed iff there are questions and answered equals their number; Pending iff there are questions, answered differs from their number and exceeds half of it; Failed iff there are no questions or at most half are answered |
| `Screening.PercentageFacts` | streamlit_app.py:150-154 | the ratio equals 1 iff the counts are equal, and exceeds one half iff twice the answered count exceeds the question count |
| `Screening.ScreeningStatus` | streamlit_app.py:148-157 | a form with no questions fails every response, and a response with no truthy value fails |
| `Screening.StatusMonotone` | streamlit_app.py:148-157 | for a fixed question count and answered counts up to it, answering more never lowers the status on Failed < Pending < Passed |
| `Screening.AllAnsweredPasses` | streamlit_app.py:149-153 | one truthy value per question, with at least one question, passes |
| `Screening.FalsyIgnored` | streamlit_app.py:149 | storing a falsy value under a key gives the same status as having no entry for that key |
| `Text.Join` | streamlit_app.py:448 | no items give the empty string; the result starts with the first item, is at least as long as each item and holds two characters per separator |
| `Text.SplitJoin` | streamlit_app.py:448 | joining a non-empty list of comma-free items with `", "` is undone by splitting, so the order and content of the items are kept |
| `Text.JoinSnoc` | streamlit_app.py:310 | joining a list with one more item appends a separator and that item at the end |
| `Text.Truncate` | streamlit_app.py:210 | at most n + 3 characters; a short text is unchanged; a long one keeps its first n characters and gets `"..."` appended |
| `Text.TruncateIdempotent` | streamlit_app.py:304 | truncating a truncated label changes nothing |
| `Text.Abbreviate` | streamlit_app.py:449 | the result is what was kept of the text (at most n characters, taken from its start) followed by `"..."` in every case |
| `Text.AbbreviateVersusTruncate` | streamlit_app.py:449 | the always-ellipsis header form equals the conditional form exactly when the text is longer than the width |
| `Text.NatToString` | streamlit_app.py:449 | the question number written in a header is a non-empty run of decimal digits |
| `Text.ParseNatToString` | streamlit_app.py:449 | reading back the decimal digits of a number gives that number |
| `Text.NatToStringInjective` | streamlit_app.py:449 | distinct question numbers are written differently |
| `Text.Slug` | streamlit_app.py:289 | the type slug has the length of its label |
| `Text.SlugNormal` | streamlit_app.py:289 | a slug has no spaces and no upper-case letters and is its own slug |
| `Forms.LabelsSlugToKnownTypes` | streamlit_app.py:264-289 | each of the eight type labels offered by the builder slugs to the type the filler renders for it, and the three choice labels slug to the three types whose widget reads the options |
| `Builder.NonEmpty` | streamlit_app.py:279-282 | no more options are kept than were entered, and each kept option is a non-empty input |
| `Builder.NonEmptyMembers` | streamlit_app.py:279-282 | an option is kept iff it was entered and is non-empty |
| `Builder.NonEmptyAppend` | streamlit_app.py:279-282 | filtering distributes over concatenation, so kept options stay in entry order |
| `Builder.NonEmptyKeepsFilled` | streamlit_app.py:279-282 | when every input is filled in, all of them are kept, in order |
| `Builder.CollectOptions` | streamlit_app.py:275-282 | a choice type gets exactly its non-empty option inputs in entry order; other types get none |
| `Builder.NewQuestion` | streamlit_app.py:285-294 | text, description and required flag are kept; the type is a slug; the options key is absent iff the options list is empty, and otherwise holds that list |
| `Builder.NewQuestionWellFormed` | streamlit_app.py:285-294 | a question added with non-empty text and an offered type is well formed, its type is one the filler knows, and it has options iff a choice type was chosen and some option was filled in |
| `Builder.BlankChoiceUnrenderable` | streamlit_app.py:279-294 | a choice question whose option inputs are all blank is stored without options, and the filler cannot draw it |
| `Builder.RepeatedCheckboxUnrenderable` | streamlit_app.py:375-378 | a checkbox question with two equal option texts is stored with both, and the filler cannot draw it |
| `Builder.FormDraft.constructor` | streamlit_app.py:160-169 | a new draft is titled "Untitled Form", has no questions and is not published |
| `Builder.FormDraft.SetTitle` | streamlit_app.py:242-243 | the title changes and nothing else does |
| `Builder.FormDraft.AddQuestion` | streamlit_app.py:284-296 | empty text leaves the questions unchanged; otherwise exactly the new question is appended at the end; well-formedness of every question is kept |
| `Builder.FormDraft.AddCheckedQuestion` | streamlit_app.py:284-296 | the question is appended only if its text is non-empty and the filler can draw it, so a draft whose questions can all be drawn stays so |
| `Builder.FormDraft.DeleteQuestion` | streamlit_app.py:312-313 | removes exactly question i and keeps the others in order; well-formedness is kept, and so is drawability |
| `Builder.FormDraft.Publish` | streamlit_app.py:319-320 | the draft becomes published and nothing else changes |
| `Filler.CollectAnswers` | streamlit_app.py:358-387 | stops with an error iff some question cannot be drawn, at the first such question; otherwise one entry per question of a known type holding its widget's value, no more truthy answers than questions, and the submission would pass screening iff there is a question and every question has a truthy answer |
| `Filler.FillDraft` | streamlit_app.py:358-387 | a form from a well-formed draft whose questions can all be drawn is filled without error, and every question gets an entry holding its widget's value |
| `Filler.CollectedPassedIff` | streamlit_app.py:148-153 | answers keyed by question index pass iff there is a question and each question has a truthy answer |
| `Filler.MissingRequired` | streamlit_app.py:393-397 | at most one error per question, each naming a required question among those visited |
| `Filler.MissingRequiredExactly` | streamlit_app.py:393-397 | the errors are exactly the required questions without a truthy answer, each once, in increasing index order; optional questions never produce one |
| `Filler.ValidateRequired` | streamlit_app.py:392-400 | visits every question with no early exit; the errors are those above; the save is allowed iff no error was raised iff every required question has a truthy answer |
| `Viewer.FormListLabel` | streamlit_app.py:210 | at most 23 characters; the title's first 20 characters (all of a shorter title) come first; a title of at most 20 characters is shown whole, and a longer one gets `"..."` appended |
| `Viewer.LongTitlesShareLabel` | streamlit_app.py:210 | two titles longer than 20 characters are shown with the same label iff their first 20 characters agree |
| `Viewer.QuestionListLabel` | streamlit_app.py:304 | at most 53 characters; the text's first 50 characters come first; a text of at most 50 characters is shown whole, and a longer one gets `"..."` appended |
| `Viewer.Flatten` | streamlit_app.py:446-448 | no list reaches a table cell; a missing entry becomes the default text; a scalar passes unchanged; a non-empty list becomes text starting with its first item |
| `Viewer.ExportCell` | streamlit_app.py:446-448 | an export cell is never a list, and is `""` for a question with no entry |
| `Viewer.ViewerCell` | streamlit_app.py:474-476 | an on-screen answer is never a list, and is `"No answer"` for a question with no entry |
| `Viewer.FlattenKeepsAnswer` | streamlit_app.py:474-476 | a scalar answer is passed through unchanged; a non-empty list of comma-free options is recovered from its flattened text |
| `Viewer.MissingDefaults` | streamlit_app.py:446 | a missing answer is `""` in the export and `"No answer"` on screen, and the two differ only for a missing answer |
| `Viewer.ExportHeader` | streamlit_app.py:449 | a header starts with `Q`, ends with `"..."`, and the question's number can be read back from the digits after the `Q` |
| `Viewer.ExportHeadersDistinct` | streamlit_app.py:449 | column headers of different questions differ whatever the texts, so no answer overwrites another in a row |
| `Viewer.ExportCells` | streamlit_app.py:445-449 | one column per question, none holding a list |
| `Viewer.ExportCellsAt` | streamlit_app.py:445-449 | column i holds question i's header and flattened answer |
| `Viewer.ExportCellsDistinct` | streamlit_app.py:445-449 | no two columns of a row share a header |
| `Viewer.ExportAnswerCells` | streamlit_app.py:445-450 | one column per question in question order, with distinct headers |
| `Viewer.ExportRow` | streamlit_app.py:438-449 | a row carries the response's id, time and screening status, and one column per question under distinct headers |
| `Viewer.PassedCount` | streamlit_app.py:425 | the tally is at most the number of responses; it equals it iff every response passes and is zero iff none does |
| `Viewer.PassedRowsMatch` | streamlit_app.py:425-441 | rows carrying the responses' statuses count as many Passed as the tally |
| `Viewer.ExportRows` | streamlit_app.py:436-451 | one row per response in order, each with the response's id, time, status and answer columns; the Passed rows number the tally |

## Findings

| source | as written | input that shows it | evidently intended | confidence | as-written member | corrected member |
|---|---|---|---|---|---|---|
| streamlit_app.py:285-294 | a choice question is stored without an options key when every option input is blank, and the filler then reads that key (lines 373, 376, 381) and stops with a KeyError | "Add Question" with text "Pick one", type "Dropdown" and option inputs `["", "", ""]` | a question that cannot be filled is not added | not executed | `Builder.BlankChoiceUnrenderable` | `Builder.FormDraft.AddCheckedQuestion` |
| streamlit_app.py:377 | two checkboxes of one question get the same widget key when two option texts are equal, which Streamlit rejects | "Add Question" with type "Checkboxes" and option inputs `["Yes", "Yes"]` | the options of a checkbox question are distinct | not executed | `Builder.RepeatedCheckboxUnrenderable` | `Builder.FormDraft.AddCheckedQuestion` |

`Builder.FormDraft.AddQuestion` and `Filler.CollectAnswers` model the code as written.
`Filler.CollectAnswers` ends in `Crashed` at the first question that cannot be drawn.
`Builder.FormDraft.AddCheckedQuestion` adds the missing check. It keeps `Fillable`, and
`Filler.FillDraft` relies on `Fillable` to fill a form without error.

## Left out

- SQLite persistence (creating tables, saving and loading forms, saving and listing responses, deleting a form with its responses): storage I/O. A response is given to the model as a record, and `Filler.FillDraft` takes the draft's questions as the stored form's.
- Streamlit rendering, sidebar navigation, session state and reruns: user-interface plumbing. Widget values are inputs of `Filler.CollectAnswers`. These include the defaults: the radio preselects its first option, the dropdown starts on `""`, the scale starts on 5.
- The number of option inputs, which the builder limits to 2 to 10: `Builder.CollectOptions` accepts any number.
- Unique form identifiers from the clock and `uuid`: nondeterministic. `Builder.FormDraft.constructor` takes the identifier as a parameter.
- Loading a stored form into the builder with "Edit": it replaces the draft with stored data, which is storage I/O.
- The filler's "Form not found!" and "not published yet" checks, and the success message: presentation around storage lookups.
- The pandas table, the CSV text, the base64 download link and the float pass-rate percentage: library calls and floating point.
- The shareable URL and embed-code strings: deployment formatting.
- The decorations around labels (the clipboard emoji, `Question <n>: ` in the builder, `**text:**` in the viewer): fixed text around the modelled labels.
- The error text "Question <n> is required!" is represented by the zero-based index of the question (n is that index plus one).
- Answers are keyed by question index throughout. The string keys that appear after the JSON round trip through storage are not modelled.
- Number answers are integers: only zero versus non-zero matters to the logic.
- `Screening.StatusFor`: the ratio is an exact real, not an IEEE double. For counts of realistic size the two agree.
- `Text.Slug`: lower-cases the ASCII letters only, while Python's `lower()` covers all of Unicode. The builder's labels are ASCII.
