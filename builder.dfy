/** The form builder: collecting the options the author typed, turning the add-question form
    into a question, and the in-place list of questions of the form being edited. */
module Builder {
  import opened Forms
  import opened Text

  /** The option inputs that are not empty, in entry order: no more options than inputs, each
      one an input, none of them empty. */
  function NonEmpty(inputs: seq<string>): (kept: seq<string>)
    ensures |kept| <= |inputs|
    ensures forall x :: x in kept ==> x != "" && x in inputs
  {
    if inputs == [] then []
    else
      var last := inputs[|inputs| - 1];
      NonEmpty(inputs[..|inputs| - 1]) + (if last != "" then [last] else [])
  }

  /** An option is kept iff it was entered and is not empty. */
  lemma {:induction false} NonEmptyMembers(inputs: seq<string>)
    ensures forall x :: x in NonEmpty(inputs) <==> x in inputs && x != ""
    ensures |NonEmpty(inputs)| <= |inputs|
  {
    if inputs != [] {
      var init := inputs[..|inputs| - 1];
      NonEmptyMembers(init);
      assert inputs == init + [inputs[|inputs| - 1]];
    }
  }

  /** Filtering distributes over concatenation, so the kept options stay in entry order. */
  lemma {:induction false} NonEmptyAppend(a: seq<string>, b: seq<string>)
    ensures NonEmpty(a + b) == NonEmpty(a) + NonEmpty(b)
  {
    if b != [] {
      var init := b[..|b| - 1];
      assert (a + b)[..|a + b| - 1] == a + init;
      NonEmptyAppend(a, init);
    } else {
      assert a + b == a;
    }
  }

  /** Inputs that are all filled in are kept whole. */
  lemma {:induction false} NonEmptyKeepsFilled(inputs: seq<string>)
    requires "" !in inputs
    ensures NonEmpty(inputs) == inputs
  {
    if inputs != [] {
      var init := inputs[..|inputs| - 1];
      assert inputs == init + [inputs[|inputs| - 1]];
      NonEmptyKeepsFilled(init);
    }
  }

  /** The options list built while the add-question form is shown: for a choice type, each
      option input that is not empty is appended in turn; other types get no options. */
  method CollectOptions(typeLabel: string, inputs: seq<string>) returns (options: seq<string>)
    ensures options == if typeLabel in ChoiceLabels then NonEmpty(inputs) else []
    ensures forall x :: x in options ==> x in inputs && x != ""
  {
    options := [];
    if typeLabel in ChoiceLabels {
      for i := 0 to |inputs|
        invariant options == NonEmpty(inputs[..i])
      {
        assert inputs[..i + 1][..i] == inputs[..i];
        if inputs[i] != "" {
          options := options + [inputs[i]];
        }
      }
      assert inputs[..|inputs|] == inputs;
      NonEmptyMembers(inputs);
    }
  }

  /** The question record built on "Add Question": its type is a slug, and the options key is
      attached only when the options list is not empty, holding that list. */
  function NewQuestion(text: string, description: string, typeLabel: string, required: bool,
                       options: seq<string>): (q: Question)
    ensures q.text == text && q.description == description && q.required == required
    ensures Slug(q.qtype) == q.qtype && |q.qtype| == |typeLabel|
    ensures q.options.None? <==> options == []
    ensures q.options.Some? ==> q.options.value == options
  {
    SlugNormal(typeLabel);
    Question(text, description, Slug(typeLabel), required, if options == [] then None else Some(options))
  }

  /** What every question added through the builder satisfies. */
  predicate WellFormed(q: Question)
  {
    && q.text != ""
    && q.qtype in KnownTypes
    && Slug(q.qtype) == q.qtype
    && match q.options
       case None => true
       case Some(opts) => opts != [] && "" !in opts
  }

  /** A question built from a non-empty text, a type offered by the builder and collected
      options is well formed, and it has options exactly when a choice type was chosen and at
      least one option was filled in. */
  lemma NewQuestionWellFormed(text: string, description: string, typeLabel: string, required: bool,
                              inputs: seq<string>)
    requires text != ""
    requires typeLabel in TypeLabels
    ensures var options := if typeLabel in ChoiceLabels then NonEmpty(inputs) else [];
      var q := NewQuestion(text, description, typeLabel, required, options);
      && WellFormed(q)
      && q.qtype == Slug(typeLabel)
      && (q.options.Some? <==> typeLabel in ChoiceLabels && exists x :: x in inputs && x != "")
  {
    NonEmptyMembers(inputs);
    SlugNormal(typeLabel);
    LabelsSlugToKnownTypes();
    var t :| 0 <= t < |TypeLabels| && TypeLabels[t] == typeLabel;
    assert KnownTypes[t] in KnownTypes;
    var kept := NonEmpty(inputs);
    if kept != [] {
      assert kept[0] in kept;
    }
    if exists x :: x in inputs && x != "" {
      var x :| x in inputs && x != "";
      assert x in kept;
    }
  }

  /** The builder stores a question the filler cannot draw: a choice type whose option inputs
      were all left blank gets no options list, and its widget needs one. */
  lemma BlankChoiceUnrenderable(text: string, description: string, typeLabel: string, required: bool,
                                inputs: seq<string>)
    requires typeLabel in ChoiceLabels
    requires forall k :: 0 <= k < |inputs| ==> inputs[k] == ""
    ensures NewQuestion(text, description, typeLabel, required, NonEmpty(inputs)).options == None
    ensures !Renderable(NewQuestion(text, description, typeLabel, required, NonEmpty(inputs)))
  {
    BlankInputsKeepNothing(inputs);
    ChoiceSlug(typeLabel);
  }

  lemma {:induction false} BlankInputsKeepNothing(inputs: seq<string>)
    requires forall k :: 0 <= k < |inputs| ==> inputs[k] == ""
    ensures NonEmpty(inputs) == []
  {
    if inputs != [] {
      BlankInputsKeepNothing(inputs[..|inputs| - 1]);
    }
  }

  lemma ChoiceSlug(typeLabel: string)
    requires typeLabel in ChoiceLabels
    ensures Slug(typeLabel) in OptionTypes
  {
    LabelsSlugToKnownTypes();
    var c :| 0 <= c < |ChoiceLabels| && ChoiceLabels[c] == typeLabel;
    assert OptionTypes[c] in OptionTypes;
  }

  /** The same holds for a checkbox question two of whose option inputs hold the same text:
      both are kept, and the two checkboxes would share one widget key. */
  lemma RepeatedCheckboxUnrenderable(text: string, description: string, required: bool, inputs: seq<string>)
    requires "" !in inputs
    requires exists j, k :: 0 <= j < k < |inputs| && inputs[j] == inputs[k]
    ensures !Renderable(NewQuestion(text, description, "Checkboxes", required, NonEmpty(inputs)))
  {
    NonEmptyKeepsFilled(inputs);
    CheckboxSlug();
    var q := NewQuestion(text, description, "Checkboxes", required, NonEmpty(inputs));
    assert q.qtype == "checkboxes" && q.options == Some(inputs);
    assert !Distinct(inputs);
  }

  lemma CheckboxSlug()
    ensures Slug("Checkboxes") == "checkboxes"
  {
    SlugOf("Checkboxes", "checkboxes");
  }

  /** The form being edited in the builder. */
  class FormDraft {
    var id: string
    var title: string
    var questions: seq<Question>
    var isPublished: bool

    ghost predicate Valid()
      reads this
    {
      forall i :: 0 <= i < |questions| ==> WellFormed(questions[i])
    }

    /** Every question of the draft can be drawn by the filler. */
    ghost predicate Fillable()
      reads this
    {
      forall i :: 0 <= i < |questions| ==> Renderable(questions[i])
    }

    /** A new draft; its identifier comes from the caller. */
    constructor (id: string)
      ensures Valid() && Fillable()
      ensures this.id == id && title == "Untitled Form" && questions == [] && !isPublished
    {
      this.id := id;
      title := "Untitled Form";
      questions := [];
      isPublished := false;
    }

    /** The title field writes straight into the draft. */
    method SetTitle(newTitle: string)
      requires Valid()
      modifies this
      ensures Valid()
      ensures title == newTitle
      ensures id == old(id) && questions == old(questions) && isPublished == old(isPublished)
    {
      title := newTitle;
    }

    /** "Add Question": with an empty text nothing changes; otherwise exactly one question is
        appended at the end, whether or not the filler can draw it. */
    method AddQuestion(text: string, description: string, typeLabel: string, required: bool,
                       optionInputs: seq<string>)
      requires Valid()
      requires typeLabel in TypeLabels
      modifies this
      ensures Valid()
      ensures id == old(id) && title == old(title) && isPublished == old(isPublished)
      ensures text == "" ==> questions == old(questions)
      ensures text != "" ==> questions == old(questions) + [NewQuestion(text, description, typeLabel, required,
        if typeLabel in ChoiceLabels then NonEmpty(optionInputs) else [])]
    {
      var options := CollectOptions(typeLabel, optionInputs);
      if text != "" {
        NewQuestionWellFormed(text, description, typeLabel, required, optionInputs);
        questions := questions + [NewQuestion(text, description, typeLabel, required, options)];
      }
    }

    /** "Add Question" with the check the filler relies on: the question is appended only when
        its text is non-empty and the filler can draw it, so a fillable draft stays fillable. */
    method AddCheckedQuestion(text: string, description: string, typeLabel: string, required: bool,
                              optionInputs: seq<string>)
      requires Valid() && Fillable()
      requires typeLabel in TypeLabels
      modifies this
      ensures Valid() && Fillable()
      ensures id == old(id) && title == old(title) && isPublished == old(isPublished)
      ensures var q := NewQuestion(text, description, typeLabel, required,
                                   if typeLabel in ChoiceLabels then NonEmpty(optionInputs) else []);
        questions == if text != "" && Renderable(q) then old(questions) + [q] else old(questions)
    {
      var options := CollectOptions(typeLabel, optionInputs);
      var q := NewQuestion(text, description, typeLabel, required, options);
      if text != "" && Renderable(q) {
        NewQuestionWellFormed(text, description, typeLabel, required, optionInputs);
        questions := questions + [q];
      }
    }

    /** "Delete" on question `i`: removes exactly that question and keeps the rest in order. */
    method DeleteQuestion(i: nat)
      requires Valid()
      requires i < |questions|
      modifies this
      ensures Valid()
      ensures old(Fillable()) ==> Fillable()
      ensures id == old(id) && title == old(title) && isPublished == old(isPublished)
      ensures questions == old(questions[..i]) + old(questions[i + 1..])
      ensures |questions| == |old(questions)| - 1
      ensures forall k :: 0 <= k < i ==> questions[k] == old(questions[k])
      ensures forall k :: i <= k < |questions| ==> questions[k] == old(questions[k + 1])
    {
      questions := questions[..i] + questions[i + 1..];
    }

    /** "Generate Shareable Link" marks the draft published before it is saved. */
    method Publish()
      requires Valid()
      modifies this
      ensures Valid()
      ensures isPublished
      ensures id == old(id) && title == old(title) && questions == old(questions)
    {
      isPublished := true;
    }
  }
}
