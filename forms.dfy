/** The form data the builder, the filler and the viewer share. */
module Forms {
  import opened Answers
  import Text

  datatype Option<T> = None | Some(value: T)

  /** One question of a form. `options` is present only when the author entered at least one
      non-empty option. `qtype` is the slug of the label chosen in the builder. */
  datatype Question = Question(
    text: string,
    description: string,
    qtype: string,
    required: bool,
    options: Option<seq<string>>)

  /** One stored submission. Its identifier and timestamp are assigned by the store. */
  datatype Response = Response(id: string, submittedAt: string, answers: AnswerMap)

  /** The question types offered in the builder, as shown to the author. */
  const TypeLabels: seq<string> :=
    ["Short Text", "Paragraph", "Multiple Choice", "Checkboxes", "Dropdown", "Number", "Email", "Scale"]

  /** The types whose options the author enters. */
  const ChoiceLabels: seq<string> := ["Multiple Choice", "Checkboxes", "Dropdown"]

  /** The types the filler renders a widget for. */
  const KnownTypes: seq<string> :=
    ["short-text", "paragraph", "multiple-choice", "checkboxes", "dropdown", "number", "email", "scale"]

  /** The types whose widget reads the question's options list. */
  const OptionTypes: seq<string> := ["multiple-choice", "checkboxes", "dropdown"]

  /** No item occurs twice. */
  predicate Distinct(items: seq<string>)
  {
    forall j, k :: 0 <= j < k < |items| ==> items[j] != items[k]
  }

  /** The filler can draw the question's widget: a question of a type with options carries
      its options list, and a checkbox question has no option twice (each checkbox's widget
      key is made of the question index and the option text, and two equal keys are an error). */
  predicate Renderable(q: Question)
  {
    && (q.qtype in OptionTypes ==> q.options.Some?)
    && (q.qtype == "checkboxes" && q.options.Some? ==> Distinct(q.options.value))
  }

  lemma SlugOf(name: string, slug: string)
    requires |name| == |slug|
    requires forall i :: 0 <= i < |name| ==> Text.SlugChar(name[i]) == slug[i]
    ensures Text.Slug(name) == slug
  {
  }

  /** Every label the builder offers turns into a type the filler renders, and the labels
      whose options the author enters turn into the types whose widget reads them. */
  lemma LabelsSlugToKnownTypes()
    ensures |TypeLabels| == |KnownTypes|
    ensures forall i :: 0 <= i < |TypeLabels| ==> Text.Slug(TypeLabels[i]) == KnownTypes[i]
    ensures forall i :: 0 <= i < |ChoiceLabels| ==> Text.Slug(ChoiceLabels[i]) == OptionTypes[i]
  {
    SlugOf("Short Text", "short-text");
    SlugOf("Paragraph", "paragraph");
    SlugOf("Multiple Choice", "multiple-choice");
    SlugOf("Checkboxes", "checkboxes");
    SlugOf("Dropdown", "dropdown");
    SlugOf("Number", "number");
    SlugOf("Email", "email");
    SlugOf("Scale", "scale");
  }
}
